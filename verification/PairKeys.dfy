/** The key under which evidence and labels file an unordered pair of populations. */
module PairKeys {

  const SEPARATOR: char := '\U{1F}'

  predicate Precedes(a: string, b: string) {
    b != "" && (a == "" || a[0] < b[0] || (a[0] == b[0] && Precedes(a[1..], b[1..])))
  }

  function PairKey(a: string, b: string): string {
    var (left, right) := if Precedes(b, a) then (b, a) else (a, b);
    left + [SEPARATOR] + right
  }

  lemma {:induction false} PrecedesIsTotal(a: string, b: string)
    ensures a != b <==> Precedes(a, b) || Precedes(b, a)
    ensures !(Precedes(a, b) && Precedes(b, a))
  {
    if a != "" && b != "" {
      PrecedesIsTotal(a[1..], b[1..]);
      assert a == [a[0]] + a[1..] && b == [b[0]] + b[1..];
    }
  }

  /** The key does not depend on the order in which the pair is named. */
  lemma PairKeySymmetric(a: string, b: string)
    ensures PairKey(a, b) == PairKey(b, a)
  {
    PrecedesIsTotal(a, b);
  }

  /** The two ids in the order in which the key lists them. */
  function Ordered(a: string, b: string): (r: (string, string))
    ensures r == (a, b) || r == (b, a)
    ensures PairKey(a, b) == r.0 + [SEPARATOR] + r.1
  {
    if Precedes(b, a) then (b, a) else (a, b)
  }

  /** A separator at which the key reads as an ordered pair. */
  predicate ReadsAt(key: string, i: nat) {
    i < |key| && key[i] == SEPARATOR && !Precedes(key[i + 1..], key[..i])
  }

  /** The key reads as an ordered pair at one place only, which a caller can check beforehand. */
  predicate ReadsOneWay(a: string, b: string) {
    var key, at := PairKey(a, b), |Ordered(a, b).0|;
    forall i: nat :: i < |key| && i != at ==> !ReadsAt(key, i)
  }

  lemma OwnReading(a: string, b: string)
    ensures var (key, (left, right)) := (PairKey(a, b), Ordered(a, b));
      ReadsAt(key, |left|) && key[..|left|] == left && key[|left| + 1..] == right
  {
    PrecedesIsTotal(a, b);
    var left, right := Ordered(a, b).0, Ordered(a, b).1;
    var key := left + [SEPARATOR] + right;
    assert key[..|left|] == left && key[|left| + 1..] == right;
  }

  /** Reading the key at such a place gives a pair filed under that very key. */
  lemma ReadingIsAPair(key: string, i: nat)
    requires ReadsAt(key, i)
    ensures PairKey(key[..i], key[i + 1..]) == key && Ordered(key[..i], key[i + 1..]) == (key[..i], key[i + 1..])
  {
  }

  lemma SameSet(a: string, b: string, c: string, d: string)
    ensures {a, b} == {c, d} <==> (a == c && b == d) || (a == d && b == c)
  {
    if {a, b} == {c, d} {
      assert a in {c, d} && b in {c, d} && c in {a, b} && d in {a, b};
    }
  }

  lemma SamePairSameReading(a: string, b: string, c: string, d: string)
    ensures {a, b} == {c, d} <==> Ordered(a, b) == Ordered(c, d)
  {
    SameSet(a, b, c, d);
    PrecedesIsTotal(a, b);
    PrecedesIsTotal(c, d);
  }

  /** A key names its pair alone exactly when it reads as an ordered pair at no other separator. */
  lemma KeyNamesThePairExactly(a: string, b: string)
    ensures ReadsOneWay(a, b) <==> forall c, d :: PairKey(c, d) == PairKey(a, b) ==> {c, d} == {a, b}
  {
    var key, at := PairKey(a, b), |Ordered(a, b).0|;
    OwnReading(a, b);
    if ReadsOneWay(a, b) {
      forall c, d | PairKey(c, d) == key ensures {c, d} == {a, b} {
        OwnReading(c, d);
        SamePairSameReading(c, d, a, b);
      }
    }
    if forall c, d :: PairKey(c, d) == key ==> {c, d} == {a, b} {
      forall i: nat | i < |key| && i != at ensures !ReadsAt(key, i) {
        if ReadsAt(key, i) {
          ReadingIsAPair(key, i);
          SamePairSameReading(key[..i], key[i + 1..], a, b);
        }
      }
    }
  }

  /** Among the names given, the key reads as a pair at one place only. */
  predicate ReadsOnceAmong(names: set<string>, a: string, b: string) {
    var key, at := PairKey(a, b), |Ordered(a, b).0|;
    forall i: nat :: i < |key| && i != at && ReadsAt(key, i) && key[..i] in names && key[i + 1..] in names ==> key[..i] == key[i + 1..]
  }

  /** Of the pairs of given names a key names one alone exactly when it reads as no other of them. */
  lemma KeyNamesOnePairAmong(names: set<string>, a: string, b: string)
    requires a in names && b in names
    ensures ReadsOnceAmong(names, a, b) <==>
            forall c, d :: c in names && d in names && c != d && PairKey(c, d) == PairKey(a, b) ==> {c, d} == {a, b}
  {
    var key, at := PairKey(a, b), |Ordered(a, b).0|;
    OwnReading(a, b);
    if ReadsOnceAmong(names, a, b) {
      forall c, d | c in names && d in names && c != d && PairKey(c, d) == key ensures {c, d} == {a, b} {
        OwnReading(c, d);
        SamePairSameReading(c, d, a, b);
      }
    }
    if forall c, d :: c in names && d in names && c != d && PairKey(c, d) == key ==> {c, d} == {a, b} {
      forall i: nat | i < |key| && i != at && ReadsAt(key, i) && key[..i] in names && key[i + 1..] in names
        ensures key[..i] == key[i + 1..]
      {
        ReadingIsAPair(key, i);
        SamePairSameReading(key[..i], key[i + 1..], a, b);
      }
    }
  }

  lemma OneSeparator(a: string, b: string)
    requires SEPARATOR !in a && SEPARATOR !in b
    ensures ReadsOneWay(a, b)
  {
    var key, left, right := PairKey(a, b), Ordered(a, b).0, Ordered(a, b).1;
    assert SEPARATOR !in left && SEPARATOR !in right;
    forall i: nat | i < |key| && i != |left| ensures key[i] != SEPARATOR {
      assert if i < |left| then key[i] == left[i] else key[i] == right[i - |left| - 1];
    }
  }

  /** The key of a pair of ids without the separator is the key of no other pair, whatever the others contain. */
  lemma PairKeyNamesThePair(a: string, b: string, c: string, d: string)
    requires SEPARATOR !in a && SEPARATOR !in b
    ensures PairKey(a, b) == PairKey(c, d) <==> {a, b} == {c, d}
  {
    OneSeparator(a, b);
    KeyNamesThePairExactly(a, b);
    SamePairSameReading(a, b, c, d);
  }

  /** An id containing the separator can make two different pairs share a key. */
  lemma SeparatorCollides() returns (a: string, b: string, c: string, d: string)
    ensures {a, b} != {c, d} && PairKey(a, b) == PairKey(c, d)
  {
    a, b, c, d := "a", ['b', SEPARATOR, 'c'], ['a', SEPARATOR, 'b'], "c";
    assert a in {a, b} && a !in {c, d};
    assert PairKey(a, b) == ['a', SEPARATOR, 'b', SEPARATOR, 'c'];
    assert PairKey(c, d) == ['a', SEPARATOR, 'b', SEPARATOR, 'c'];
  }
}
