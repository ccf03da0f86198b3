/**
 Compact aliases for long plan identifiers. A prompt is written with the aliases, and
 a result is expanded back to the exact identifiers, in its identifier slots only.
 */
module Aliases {
  import opened Ordering

  // --- decimal numerals ------------------------------------------------------------------------

  const DIGITS: string := "0123456789"

  function Digits(n: nat): (r: string)
    ensures r != []
  {
    if n < 10 then [DIGITS[n]] else Digits(n / 10) + [DIGITS[n % 10]]
  }

  function Zeros(n: nat): (r: string)
    ensures |r| == n
  {
    if n == 0 then "" else "0" + Zeros(n - 1)
  }

  /** A number padded with zeros to a width, or written out when it needs more. */
  function Padded(n: nat, width: nat): string {
    var digits := Digits(n);
    if |digits| < width then Zeros(width - |digits|) + digits else digits
  }

  function DigitValue(c: char): nat {
    if '0' <= c <= '9' then (c - '0') as nat else 0
  }

  /** Reading a numeral. */
  function ValueOf(s: string): nat {
    if s == [] then 0 else 10 * ValueOf(s[..|s| - 1]) + DigitValue(s[|s| - 1])
  }

  lemma ReadsOneMore(s: string, c: char)
    ensures ValueOf(s + [c]) == 10 * ValueOf(s) + DigitValue(c)
  {
    assert (s + [c])[..|s|] == s;
  }

  lemma {:induction false} DigitsRead(n: nat)
    ensures ValueOf(Digits(n)) == n
  {
    if n < 10 {
      ReadsOneMore("", DIGITS[n]);
      assert Digits(n) == "" + [DIGITS[n]];
    } else {
      DigitsRead(n / 10);
      ReadsOneMore(Digits(n / 10), DIGITS[n % 10]);
    }
  }

  lemma {:induction false} LeadingZeros(zeros: nat, s: string)
    ensures ValueOf(Zeros(zeros) + s) == ValueOf(s)
    decreases |s|, zeros
  {
    var all := Zeros(zeros) + s;
    if s != [] {
      LeadingZeros(zeros, s[..|s| - 1]);
      assert all[..|all| - 1] == Zeros(zeros) + s[..|s| - 1];
    } else if zeros > 0 {
      ZerosEnd(zeros);
      assert all == Zeros(zeros) && all[..|all| - 1] == Zeros(zeros - 1) + s;
      LeadingZeros(zeros - 1, s);
    }
  }

  lemma {:induction false} ZerosEnd(n: nat)
    requires n > 0
    ensures Zeros(n) == Zeros(n - 1) + "0"
  {
    if n > 1 {
      ZerosEnd(n - 1);
    }
  }

  /** A padded numeral reads back as its number, so padding is injective. */
  lemma PaddedReads(n: nat, width: nat)
    ensures ValueOf(Padded(n, width)) == n
  {
    DigitsRead(n);
    if |Digits(n)| < width {
      LeadingZeros(width - |Digits(n)|, Digits(n));
    }
  }

  lemma {:induction false} SmallerIsNoLonger(m: nat, n: nat)
    requires m <= n
    ensures |Digits(m)| <= |Digits(n)|
  {
    if m >= 10 {
      SmallerIsNoLonger(m / 10, n / 10);
    }
  }

  // --- the alias tables ----------------------------------------------------------------------------

  function Max(a: nat, b: nat): nat {
    if a < b then b else a
  }

  function Width(count: nat): nat {
    Max(2, |Digits(count)|)
  }

  function AliasOf(prefix: char, index: nat, width: nat): string {
    [prefix] + Padded(index, width)
  }

  /** Identifiers numbered from one in list order; a repeated identifier keeps its last number. */
  function Numbered(ids: seq<string>, prefix: char, width: nat): map<string, string> {
    if ids == [] then map[]
    else Numbered(ids[..|ids| - 1], prefix, width)[ids[|ids| - 1] := AliasOf(prefix, |ids|, width)]
  }

  /** Where an identifier stands last in the list. */
  ghost predicate LastAt(ids: seq<string>, i: nat, id: string) {
    i < |ids| && ids[i] == id && forall j :: i < j < |ids| ==> ids[j] != id
  }

  lemma {:induction false} NumberedIs(ids: seq<string>, prefix: char, width: nat)
    ensures forall id :: id in Numbered(ids, prefix, width) <==> id in ids
    ensures forall id, i: nat :: LastAt(ids, i, id) ==> Numbered(ids, prefix, width)[id] == AliasOf(prefix, i + 1, width)
  {
    if ids != [] {
      var init, last := ids[..|ids| - 1], ids[|ids| - 1];
      NumberedIs(init, prefix, width);
      assert ids == init + [last];
      forall id, i: nat | LastAt(ids, i, id)
        ensures id in Numbered(ids, prefix, width) && Numbered(ids, prefix, width)[id] == AliasOf(prefix, i + 1, width)
      {
        assert id in ids;
        if i < |ids| - 1 {
          assert ids[|ids| - 1] != id;
          assert LastAt(init, i, id);
        }
      }
    }
  }

  lemma {:induction false} LastOccurrence(ids: seq<string>, id: string) returns (i: nat)
    requires id in ids
    ensures LastAt(ids, i, id)
  {
    if ids[|ids| - 1] == id {
      i := |ids| - 1;
    } else {
      assert ids == ids[..|ids| - 1] + [ids[|ids| - 1]];
      i := LastOccurrence(ids[..|ids| - 1], id);
    }
  }

  /** Different identifiers get different aliases, all of one width. */
  lemma AliasesAreInjective(ids: seq<string>, prefix: char, x: string, y: string)
    requires x in ids && y in ids
    ensures var t := Table(ids, prefix);
      && x in t && y in t && (t[x] == t[y] ==> x == y)
      && |t[x]| == 1 + Width(|ids|) && t[x][0] == prefix
  {
    var width := Width(|ids|);
    NumberedIs(ids, prefix, width);
    var i := LastOccurrence(ids, x);
    var j := LastOccurrence(ids, y);
    var t := Numbered(ids, prefix, width);
    assert t[x] == AliasOf(prefix, i + 1, width) && t[y] == AliasOf(prefix, j + 1, width);
    PaddedReads(i + 1, width);
    PaddedReads(j + 1, width);
    assert t[x][1..] == Padded(i + 1, width) && t[y][1..] == Padded(j + 1, width);
    SmallerIsNoLonger(i + 1, |ids|);
  }

  /** The table read backwards. */
  function Reversed(ids: seq<string>, table: map<string, string>): map<string, string>
    requires forall id :: id in ids ==> id in table
  {
    if ids == [] then map[]
    else
      assert ids == ids[..|ids| - 1] + [ids[|ids| - 1]];
      Reversed(ids[..|ids| - 1], table)[table[ids[|ids| - 1]] := ids[|ids| - 1]]
  }

  lemma {:induction false} ReversedIs(ids: seq<string>, table: map<string, string>)
    requires forall id :: id in ids ==> id in table
    requires forall x, y :: x in ids && y in ids && table[x] == table[y] ==> x == y
    ensures forall a :: a in Reversed(ids, table) ==> Reversed(ids, table)[a] in ids && table[Reversed(ids, table)[a]] == a
    ensures forall id :: id in ids ==> table[id] in Reversed(ids, table) && Reversed(ids, table)[table[id]] == id
  {
    if ids != [] {
      var init := ids[..|ids| - 1];
      assert ids == init + [ids[|ids| - 1]];
      ReversedIs(init, table);
    }
  }

  predicate Before(a: string, b: string) {
    if a == [] || b == [] then |a| < |b|
    else a[0] < b[0] || (a[0] == b[0] && Before(a[1..], b[1..]))
  }

  lemma {:induction false} BeforeIsTotal(a: string, b: string, c: string)
    ensures !Before(a, a)
    ensures Before(a, b) && Before(b, c) ==> Before(a, c)
    ensures a != b ==> Before(a, b) || Before(b, a)
  {
    if a != [] {
      BeforeIsTotal(a[1..], if b == [] then [] else b[1..], if c == [] then [] else c[1..]);
      assert a == [a[0]] + a[1..];
      assert b != [] ==> b == [b[0]] + b[1..];
    }
  }

  /** Where two texts first differ the one has the lesser character, or it ends there. */
  ghost predicate LessAt(a: string, b: string, k: nat) {
    && k <= |a| && k < |b| && (k == |a| || a[k] < b[k])
    && forall i :: 0 <= i < k ==> a[i] == b[i]
  }

  ghost predicate Less(a: string, b: string) {
    exists k: nat :: LessAt(a, b, k)
  }

  lemma {:induction false} BeforeIsLess(a: string, b: string)
    ensures Before(a, b) <==> Less(a, b)
    decreases |a|
  {
    if a == [] || b == [] {
      if a == [] && b != [] {
        assert LessAt(a, b, 0);
      }
    } else if a[0] == b[0] {
      BeforeIsLess(a[1..], b[1..]);
      if k: nat :| LessAt(a[1..], b[1..], k) {
        assert LessAt(a, b, k + 1) by {
          forall i | 0 <= i < k + 1 ensures a[i] == b[i] {
            assert i > 0 ==> a[1..][i - 1] == b[1..][i - 1];
          }
        }
      }
      if k: nat :| LessAt(a, b, k) {
        assert k > 0;
        forall i | 0 <= i < k - 1 ensures a[1..][i] == b[1..][i] {
          assert a[i + 1] == b[i + 1];
        }
        assert LessAt(a[1..], b[1..], k - 1);
      }
    } else {
      assert a[0] < b[0] ==> LessAt(a, b, 0);
      forall k: nat | LessAt(a, b, k) ensures k == 0 && a[0] < b[0] {
      }
    }
  }

  lemma BeforeIsStrictWeak()
    ensures StrictWeak(Before)
  {
    forall a, b, c
      ensures !Before(a, a) && (Before(a, b) && Before(b, c) ==> Before(a, c)) && (Before(a, c) ==> Before(a, b) || Before(b, c))
    {
      BeforeIsTotal(a, b, c);
      BeforeIsTotal(b, a, c);
    }
  }

  function Deduplicated(ids: seq<string>): (r: seq<string>)
    ensures forall id :: id in r <==> id in ids
    ensures Distinct(r)
  {
    if ids == [] then []
    else
      var rest := Deduplicated(ids[1..]);
      if ids[0] in rest then rest else [ids[0]] + rest
  }

  /** `sorted(set(ids))` */
  function SortedIds(ids: seq<string>): seq<string> {
    SortBy(Deduplicated(ids), Before)
  }

  lemma SortedIdsFacts(ids: seq<string>)
    ensures forall id :: id in SortedIds(ids) <==> id in ids
    ensures Distinct(SortedIds(ids))
    ensures forall i, j :: 0 <= i < j < |SortedIds(ids)| ==> Less(SortedIds(ids)[i], SortedIds(ids)[j])
  {
    var listed := SortedIds(ids);
    BeforeIsStrictWeak();
    SortDistinct(Deduplicated(ids), Before);
    SortKeeps(Deduplicated(ids), Before);
    forall i, j | 0 <= i < j < |listed| ensures Less(listed[i], listed[j]) {
      BeforeIsTotal(listed[i], listed[j], listed[j]);
      BeforeIsLess(listed[i], listed[j]);
    }
  }

  /** A work item's aliases: its populations sorted, its dependencies as listed. */
  datatype Aliases = Aliases(populations: map<string, string>, dependencies: map<string, string>,
                             populationOf: map<string, string>, dependencyOf: map<string, string>)
  {
    function Forward(s: string): string {
      if s in dependencies then dependencies[s] else if s in populations then populations[s] else s
    }
  }

  datatype Work = Work(populations: seq<string>, dependencies: seq<string>)

  function Table(ids: seq<string>, prefix: char): map<string, string> {
    Numbered(ids, prefix, Width(|ids|))
  }

  function BackTable(ids: seq<string>, prefix: char): map<string, string> {
    NumberedIs(ids, prefix, Width(|ids|));
    Reversed(ids, Table(ids, prefix))
  }

  function IdentifierAliases(work: Work): Aliases {
    var sorted := SortedIds(work.populations);
    Aliases(Table(sorted, 'p'), Table(work.dependencies, 'd'), BackTable(sorted, 'p'), BackTable(work.dependencies, 'd'))
  }

  /** A table of aliases with the given first letter, and the same table read backwards. */
  ghost predicate InverseTables(ids: seq<string>, prefix: char, table: map<string, string>, back: map<string, string>) {
    && (forall id :: id in table <==> id in ids)
    && (forall id :: id in table ==> |table[id]| > 0 && table[id][0] == prefix && table[id] in back && back[table[id]] == id)
    && (forall a :: a in back ==> back[a] in table && table[back[a]] == a)
  }

  lemma TablesAreInverse(ids: seq<string>, prefix: char)
    ensures InverseTables(ids, prefix, Table(ids, prefix), BackTable(ids, prefix))
  {
    var table := Table(ids, prefix);
    NumberedIs(ids, prefix, Width(|ids|));
    forall x, y | x in ids && y in ids ensures x in table && (table[x] == table[y] ==> x == y) && |table[x]| > 0 && table[x][0] == prefix {
      AliasesAreInjective(ids, prefix, x, y);
    }
    ReversedIs(ids, table);
  }

  lemma AliasesAreInverse(work: Work)
    ensures var a := IdentifierAliases(work);
      InverseTables(work.populations, 'p', a.populations, a.populationOf) && InverseTables(work.dependencies, 'd', a.dependencies, a.dependencyOf)
  {
    SortedIdsFacts(work.populations);
    TablesAreInverse(SortedIds(work.populations), 'p');
    TablesAreInverse(work.dependencies, 'd');
  }

  // --- replacing identifiers in a prompt value and expanding them in a result -------------------------

  datatype Value =
    | Null
    | Truth(truth: bool)
    | Number(number: real)
    | Text(text: string)
    | List(items: seq<Value>)
    | Tuple(items: seq<Value>)
    | Mapping(fields: map<string, Value>)

  function AliasPromptValue(v: Value, aliases: Aliases): Value {
    match v
    case Mapping(fields) => Mapping(map k | k in fields :: AliasPromptValue(fields[k], aliases))
    case List(items) => List(seq(|items|, i requires 0 <= i < |items| => AliasPromptValue(items[i], aliases)))
    case Tuple(items) => List(seq(|items|, i requires 0 <= i < |items| => AliasPromptValue(items[i], aliases)))
    case Text(s) => Text(aliases.Forward(s))
    case _ => v
  }

  datatype Slot = PopulationSlot | DependencySlot | NoSlot

  /** The keys under which a result names populations, and those under which it names work. */
  lemma SlotKeys(key: string)
    ensures SlotOf(key) == PopulationSlot <==>
      || key == "population_id" || key == "population_ids" || key == "unbound_population_ids"
      || key == "left_population_id" || key == "right_population_id"
    ensures SlotOf(key) == DependencySlot <==> key == "work_id" || key == "evidence_work_ids"
  {
  }

  function SlotOf(key: string): Slot {
    if key in ["population_id", "population_ids", "unbound_population_ids", "left_population_id", "right_population_id"] then PopulationSlot
    else if key in ["work_id", "evidence_work_ids"] then DependencySlot
    else NoSlot
  }

  function ExpandText(s: string, slot: Slot, aliases: Aliases): string {
    match slot
    case PopulationSlot => if s in aliases.populationOf then aliases.populationOf[s] else s
    case DependencySlot => if s in aliases.dependencyOf then aliases.dependencyOf[s] else s
    case NoSlot => s
  }

  /** A list keeps the slot it stands in; every field of a mapping has its own. */
  function Expand(v: Value, slot: Slot, aliases: Aliases): Value {
    match v
    case Mapping(fields) => Mapping(map k | k in fields :: Expand(fields[k], SlotOf(k), aliases))
    case List(items) => List(seq(|items|, i requires 0 <= i < |items| => Expand(items[i], slot, aliases)))
    case Text(s) => Text(ExpandText(s, slot, aliases))
    case _ => v
  }

  function ExpandResultIdentifiers(work: Work, payload: Value): Value {
    Expand(payload, NoSlot, IdentifierAliases(work))
  }

  // --- the round trip --------------------------------------------------------------------------------------

  /** The value with its tuples turned into lists, as the prompt shows them. */
  function Listed(v: Value): Value {
    match v
    case Mapping(fields) => Mapping(map k | k in fields :: Listed(fields[k]))
    case List(items) => List(seq(|items|, i requires 0 <= i < |items| => Listed(items[i])))
    case Tuple(items) => List(seq(|items|, i requires 0 <= i < |items| => Listed(items[i])))
    case _ => v
  }

  /** What a text may be in its slot: an identifier of the slot's kind that the other kind does not
      take over, or a text that is neither an identifier nor an alias of that kind. */
  predicate Admissible(s: string, slot: Slot, aliases: Aliases) {
    match slot
    case PopulationSlot =>
      if s in aliases.dependencies then s == aliases.dependencies[s]
      else s in aliases.populations || s !in aliases.populationOf
    case DependencySlot =>
      if s in aliases.dependencies then true
      else if s in aliases.populations then s == aliases.populations[s]
      else s !in aliases.dependencyOf
    case NoSlot =>
      if s in aliases.dependencies then s == aliases.dependencies[s]
      else s in aliases.populations ==> s == aliases.populations[s]
  }

  predicate AllAdmissible(v: Value, slot: Slot, aliases: Aliases) {
    match v
    case Mapping(fields) => forall k :: k in fields ==> AllAdmissible(fields[k], SlotOf(k), aliases)
    case List(items) => forall i :: 0 <= i < |items| ==> AllAdmissible(items[i], slot, aliases)
    case Tuple(items) => forall i :: 0 <= i < |items| ==> AllAdmissible(items[i], slot, aliases)
    case Text(s) => Admissible(s, slot, aliases)
    case _ => true
  }

  ghost predicate Inverse(work: Work, a: Aliases) {
    && InverseTables(work.populations, 'p', a.populations, a.populationOf)
    && InverseTables(work.dependencies, 'd', a.dependencies, a.dependencyOf)
  }

  lemma TextIsRestored(work: Work, aliases: Aliases, s: string, slot: Slot)
    requires Inverse(work, aliases)
    ensures ExpandText(aliases.Forward(s), slot, aliases) == s <==> Admissible(s, slot, aliases)
  {
  }

  lemma {:induction false} ValueIsRestored(work: Work, aliases: Aliases, v: Value, slot: Slot)
    requires Inverse(work, aliases)
    ensures Expand(AliasPromptValue(v, aliases), slot, aliases) == Listed(v) <==> AllAdmissible(v, slot, aliases)
    decreases v, 1
  {
    match v
    case Mapping(fields) => FieldsAreRestored(work, aliases, v, slot);
    case List(items) => ItemsAreRestored(work, aliases, v, slot);
    case Tuple(items) => ItemsAreRestored(work, aliases, v, slot);
    case Text(s) => TextIsRestored(work, aliases, s, slot);
    case _ =>
  }

  lemma {:induction false} FieldsAreRestored(work: Work, aliases: Aliases, v: Value, slot: Slot)
    requires Inverse(work, aliases) && v.Mapping?
    ensures Expand(AliasPromptValue(v, aliases), slot, aliases) == Listed(v) <==>
            forall k :: k in v.fields ==> AllAdmissible(v.fields[k], SlotOf(k), aliases)
    decreases v, 0
  {
    var back, listed := Expand(AliasPromptValue(v, aliases), slot, aliases).fields, Listed(v).fields;
    forall k | k in v.fields
      ensures back[k] == listed[k] <==> AllAdmissible(v.fields[k], SlotOf(k), aliases)
    {
      ValueIsRestored(work, aliases, v.fields[k], SlotOf(k));
    }
    assert back.Keys == listed.Keys;
    assert back == listed <==> forall k :: k in v.fields ==> back[k] == listed[k];
  }

  lemma {:induction false} ItemsAreRestored(work: Work, aliases: Aliases, v: Value, slot: Slot)
    requires Inverse(work, aliases) && (v.List? || v.Tuple?)
    ensures Expand(AliasPromptValue(v, aliases), slot, aliases) == Listed(v) <==>
            forall i :: 0 <= i < |v.items| ==> AllAdmissible(v.items[i], slot, aliases)
    decreases v, 0
  {
    var back := Expand(AliasPromptValue(v, aliases), slot, aliases).items;
    forall i | 0 <= i < |v.items|
      ensures back[i] == Listed(v).items[i] <==> AllAdmissible(v.items[i], slot, aliases)
    {
      ValueIsRestored(work, aliases, v.items[i], slot);
    }
  }

  /** Expanding an aliased payload restores it exactly when every text is admissible in its slot. */
  lemma AliasRoundTrip(work: Work, payload: Value)
    ensures var aliases := IdentifierAliases(work);
      ExpandResultIdentifiers(work, AliasPromptValue(payload, aliases)) == Listed(payload) <==> AllAdmissible(payload, NoSlot, aliases)
  {
    AliasesAreInverse(work);
    ValueIsRestored(work, IdentifierAliases(work), payload, NoSlot);
  }

  /** With no identifier that is both a population and a dependency, every population comes back in a
      population slot and every dependency in a dependency slot, whatever the identifiers look like. */
  lemma IdentifiersComeBack(work: Work, s: string)
    requires forall id :: id in work.populations ==> id !in work.dependencies
    ensures var a := IdentifierAliases(work);
      && (s in work.populations ==> ExpandText(a.Forward(s), PopulationSlot, a) == s)
      && (s in work.dependencies ==> ExpandText(a.Forward(s), DependencySlot, a) == s)
  {
    AliasesAreInverse(work);
  }

  /** A population that is also a dependency is lost: its population slot keeps the dependency's alias. */
  lemma SharedIdentifierIsLost()
    ensures var a := IdentifierAliases(Work(["x"], ["x"]));
      a.Forward("x") == "d01" && ExpandText(a.Forward("x"), PopulationSlot, a) == "d01"
  {
    var work := Work(["x"], ["x"]);
    var a := IdentifierAliases(work);
    AliasesAreInverse(work);
    assert LastAt(work.dependencies, 0, "x");
    NumberedIs(work.dependencies, 'd', Width(1));
    assert Digits(1) == "1" && Zeros(1) == "0";
    assert "d01"[0] == 'd';
  }

  /** The value with the texts of its identifier slots left out. */
  function Masked(v: Value, slot: Slot): Value {
    match v
    case Mapping(fields) => Mapping(map k | k in fields :: Masked(fields[k], SlotOf(k)))
    case List(items) => List(seq(|items|, i requires 0 <= i < |items| => Masked(items[i], slot)))
    case Text(s) => if slot == NoSlot then v else Text("")
    case _ => v
  }

  /** Expansion changes nothing but the texts of identifier slots: keys, names and structure stay. */
  lemma {:induction false} OnlySlotsExpand(v: Value, slot: Slot, aliases: Aliases)
    ensures Masked(Expand(v, slot, aliases), slot) == Masked(v, slot)
  {
    match v
    case Mapping(fields) =>
      forall k | k in fields
        ensures Masked(Expand(fields[k], SlotOf(k), aliases), SlotOf(k)) == Masked(fields[k], SlotOf(k))
      {
        OnlySlotsExpand(fields[k], SlotOf(k), aliases);
      }
      assert Masked(Expand(v, slot, aliases), slot).fields == Masked(v, slot).fields;
    case List(items) =>
      forall i | 0 <= i < |items|
        ensures Masked(Expand(items[i], slot, aliases), slot) == Masked(items[i], slot)
      {
        OnlySlotsExpand(items[i], slot, aliases);
      }
      assert Masked(Expand(v, slot, aliases), slot).items == Masked(v, slot).items;
    case _ =>
  }
}
