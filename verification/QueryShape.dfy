/**
 The character scanners that read the shape of a blanked query: top-level commas, FROM
 clauses and parenthesised subqueries, and the table references collected through them.
 */
module QueryShape {

  /** What a scanner carries along: parenthesis depth and whether it is inside a quoted identifier. */
  datatype State = State(depth: nat, inIdentifier: bool) {
    predicate Top() {
      depth == 0 && !inIdentifier
    }
  }

  const START: State := State(0, false)
  const IDENT: char := '"'

  /** A closing parenthesis without an open one is ignored. */
  function Advance(st: State, c: char): State {
    if c == IDENT then st.(inIdentifier := !st.inIdentifier)
    else if st.inIdentifier then st
    else if c == '(' then st.(depth := st.depth + 1)
    else if c == ')' && st.depth > 0 then st.(depth := st.depth - 1)
    else st
  }

  /** The state in front of position `i`. */
  function StateAt(value: string, i: nat): State
    requires i <= |value|
  {
    if i == 0 then START else Advance(StateAt(value, i - 1), value[i - 1])
  }

  // --- top-level commas --------------------------------------------------------------------------

  function SplitFrom(s: string, st: State): (parts: seq<string>)
    ensures parts != []
  {
    if s == "" then [""]
    else if s[0] == ',' && st.Top() then [""] + SplitFrom(s[1..], st)
    else
      var rest := SplitFrom(s[1..], Advance(st, s[0]));
      [[s[0]] + rest[0]] + rest[1..]
  }

  function Split(value: string): seq<string> {
    SplitFrom(value, START)
  }

  function Join(parts: seq<string>): string
    requires parts != []
  {
    if |parts| == 1 then parts[0] else parts[0] + "," + Join(parts[1..])
  }

  function EndState(s: string, st: State): State {
    if s == "" then st else EndState(s[1..], Advance(st, s[0]))
  }

  /** Joining the parts restores the input. */
  lemma {:induction false} JoinOfSplit(s: string, st: State)
    ensures Join(SplitFrom(s, st)) == s
  {
    if s != "" {
      if s[0] == ',' && st.Top() {
        JoinOfSplit(s[1..], st);
        assert ([""] + SplitFrom(s[1..], st))[1..] == SplitFrom(s[1..], st);
      } else {
        JoinOfSplit(s[1..], Advance(st, s[0]));
        var rest := SplitFrom(s[1..], Advance(st, s[0]));
        assert ([[s[0]] + rest[0]] + rest[1..])[1..] == rest[1..];
      }
    }
  }

  /** Splitting any part again returns just that part. */
  lemma {:induction false} PartsAreWhole(s: string, st: State, k: nat)
    requires k < |SplitFrom(s, st)|
    ensures SplitFrom(SplitFrom(s, st)[k], if k == 0 then st else START) == [SplitFrom(s, st)[k]]
    decreases |s|
  {
    if s != "" {
      if s[0] == ',' && st.Top() {
        assert st == START;
        if k > 0 {
          PartsAreWhole(s[1..], st, k - 1);
        }
      } else {
        var next := Advance(st, s[0]);
        PartsAreWhole(s[1..], next, k);
        var rest := SplitFrom(s[1..], next);
        if k == 0 {
          assert ([s[0]] + rest[0])[1..] == rest[0];
        } else {
          assert SplitFrom(s, st)[k] == rest[k];
        }
      }
    }
  }

  /** A text that is one part and ends at the top level. */
  ghost predicate Closed(part: string) {
    Split(part) == [part] && EndState(part, START).Top()
  }

  lemma {:induction false} SplitBehindPart(part: string, st: State, rest: string)
    requires SplitFrom(part, st) == [part] && EndState(part, st).Top()
    ensures SplitFrom(part + "," + rest, st) == [part] + Split(rest)
    decreases |part|
  {
    var whole := part + "," + rest;
    if part == "" {
      assert st == START && whole[1..] == rest;
    } else {
      var next := Advance(st, part[0]);
      assert !(part[0] == ',' && st.Top());
      var inner := SplitFrom(part[1..], next);
      var again := [[part[0]] + inner[0]] + inner[1..];
      assert again == [part] && |again| == |inner| && again[0] == [part[0]] + inner[0];
      assert ([part[0]] + inner[0])[1..] == inner[0];
      assert inner == [part[1..]];
      SplitBehindPart(part[1..], next, rest);
      assert whole[0] == part[0] && whole[1..] == part[1..] + "," + rest;
      assert [part[0]] + part[1..] == part;
    }
  }

  /** Splitting a join returns the parts joined, as long as all but the last end at the top level. */
  lemma {:induction false} SplitOfJoin(parts: seq<string>)
    requires parts != [] && Split(parts[|parts| - 1]) == [parts[|parts| - 1]]
    requires forall k :: 0 <= k < |parts| - 1 ==> Closed(parts[k])
    ensures Split(Join(parts)) == parts
  {
    if |parts| > 1 {
      SplitOfJoin(parts[1..]);
      assert Closed(parts[0]);
      SplitBehindPart(parts[0], START, Join(parts[1..]));
      assert parts == [parts[0]] + parts[1..];
    }
  }

  /** The parts found so far, the part being read, and what is still to come. */
  ghost predicate SplitSoFar(value: string, parts: seq<string>, current: string, rest: string, st: State) {
    var coming := SplitFrom(rest, st);
    Split(value) == parts + [current + coming[0]] + coming[1..]
  }

  lemma SplitMore(value: string, parts: seq<string>, current: string, rest: string, st: State)
    requires rest != "" && SplitSoFar(value, parts, current, rest, st)
    ensures if rest[0] == ',' && st.Top()
            then SplitSoFar(value, parts + [current], "", rest[1..], st)
            else SplitSoFar(value, parts, current + [rest[0]], rest[1..], Advance(st, rest[0]))
  {
    var coming := SplitFrom(rest, st);
    if rest[0] == ',' && st.Top() {
      var later := SplitFrom(rest[1..], st);
      assert coming[1..] == later && coming[0] == "";
      assert current + "" == current && "" + later[0] == later[0];
      assert later == [later[0]] + later[1..];
      assert parts + [current] + later == parts + [current] + [later[0]] + later[1..];
    } else {
      var later := SplitFrom(rest[1..], Advance(st, rest[0]));
      assert coming[1..] == later[1..] && coming[0] == [rest[0]] + later[0];
      assert current + ([rest[0]] + later[0]) == current + [rest[0]] + later[0];
    }
  }

  lemma NothingSplitYet(value: string)
    ensures SplitSoFar(value, [], "", value, START)
  {
    var coming := Split(value);
    assert "" + coming[0] == coming[0] && coming == [coming[0]] + coming[1..];
  }

  ghost predicate Splitting(value: string, parts: seq<string>, start: nat, i: nat, st: State) {
    start <= i <= |value| && SplitSoFar(value, parts, value[start..i], value[i..], st)
  }

  lemma SplitTurn(value: string, parts: seq<string>, start: nat, i: nat, st: State)
    requires Splitting(value, parts, start, i, st) && i < |value|
    ensures if value[i] == ',' && st.Top() then Splitting(value, parts + [value[start..i]], i + 1, i + 1, st)
            else Splitting(value, parts, start, i + 1, Advance(st, value[i]))
  {
    SplitMore(value, parts, value[start..i], value[i..], st);
    assert value[i..][1..] == value[i + 1..] && value[start..i] + [value[i]] == value[start..i + 1];
    assert value[i + 1..i + 1] == "";
  }

  lemma SplitEnd(value: string, parts: seq<string>, start: nat, st: State)
    requires Splitting(value, parts, start, |value|, st)
    ensures Split(value) == parts + [value[start..]]
  {
    assert value[|value|..] == "" && value[start..|value|] == value[start..];
    assert value[start..] + "" == value[start..];
    assert [""][1..] == [];
  }

  /** One character: whether it is a top-level comma, and the state behind it. */
  method ReadComma(ch: char, depth: nat, inIdentifier: bool) returns (comma: bool, deeper: nat, nowIn: bool)
    ensures comma <==> ch == ',' && State(depth, inIdentifier).Top()
    ensures State(deeper, nowIn) == Advance(State(depth, inIdentifier), ch)
  {
    comma, deeper, nowIn := false, depth, inIdentifier;
    if ch == IDENT {
      nowIn := !inIdentifier;
    } else if !inIdentifier {
      if ch == '(' {
        deeper := depth + 1;
      } else if ch == ')' && depth > 0 {
        deeper := depth - 1;
      } else if ch == ',' && depth == 0 {
        comma := true;
      }
    }
  }

  method SplitTopLevelCommas(value: string) returns (parts: seq<string>)
    ensures parts == Split(value)
    ensures parts != [] && Join(parts) == value
    ensures forall k :: 0 <= k < |parts| ==> Split(parts[k]) == [parts[k]]
  {
    parts := [];
    var start, depth, inIdentifier := 0, 0, false;
    assert value[0..] == value && value[0..0] == "";
    NothingSplitYet(value);
    for i := 0 to |value|
      invariant Splitting(value, parts, start, i, State(depth, inIdentifier))
    {
      SplitTurn(value, parts, start, i, State(depth, inIdentifier));
      var comma;
      comma, depth, inIdentifier := ReadComma(value[i], depth, inIdentifier);
      if comma {
        parts := parts + [value[start..i]];
        start := i + 1;
      }
    }
    SplitEnd(value, parts, start, State(depth, inIdentifier));
    parts := parts + [value[start..]];
    JoinOfSplit(value, START);
    forall k | 0 <= k < |parts| ensures Split(parts[k]) == [parts[k]] {
      PartsAreWhole(value, START, k);
    }
  }

  // --- FROM clauses --------------------------------------------------------------------------------

  predicate WordChar(c: char) {
    'a' <= c <= 'z' || 'A' <= c <= 'Z' || '0' <= c <= '9' || c == '_'
  }

  predicate KeywordAt(value: string, index: nat, keyword: string) {
    && index + |keyword| <= |value| && value[index..index + |keyword|] == keyword
    && (index > 0 ==> !WordChar(value[index - 1]))
    && (index + |keyword| < |value| ==> !WordChar(value[index + |keyword|]))
  }

  const FROM: string := "from"
  const END_KEYWORDS: seq<string> :=
    ["where", "group by", "order by", "having", "limit", "offset", "union", "except", "intersect"]

  predicate EndKeywordAt(value: string, index: nat) {
    exists k :: 0 <= k < |END_KEYWORDS| && KeywordAt(value, index, END_KEYWORDS[k])
  }

  /** A FROM clause ends at an unmatched parenthesis or at a keyword of its own level. */
  predicate Stops(value: string, j: nat, st: State)
    requires j < |value|
  {
    st.Top() && (value[j] == ')' || EndKeywordAt(value, j))
  }

  function ClauseEnd(value: string, j: nat, st: State): (e: nat)
    requires j <= |value|
    ensures j <= e <= |value|
    decreases |value| - j
  {
    if j == |value| || Stops(value, j, st) then j else ClauseEnd(value, j + 1, Advance(st, value[j]))
  }

  /** The end found is the first position that stops the clause, or the end of the text. */
  lemma {:induction false} ClauseEndIsFirst(value: string, j: nat, st: State, m: nat)
    requires j <= |value| && j <= m <= ClauseEnd(value, j, st)
    ensures m < ClauseEnd(value, j, st) ==> !Stops(value, m, EndState(value[j..m], st))
    ensures m == ClauseEnd(value, j, st) < |value| ==> Stops(value, m, EndState(value[j..m], st))
    decreases m - j
  {
    if j == m {
      assert value[j..m] == "";
    } else {
      ClauseEndIsFirst(value, j + 1, Advance(st, value[j]), m);
      assert value[j..m][0] == value[j] && value[j..m][1..] == value[j + 1..m];
    }
  }

  predicate FromAt(value: string, i: nat, st: State)
    ensures FromAt(value, i, st) ==> i + |FROM| <= |value|
  {
    st.Top() && KeywordAt(value, i, FROM)
  }

  function ClauseBehind(value: string, i: nat): string
    requires i + |FROM| <= |value|
  {
    value[i + |FROM|..ClauseEnd(value, i + |FROM|, START)]
  }

  function ClausesFrom(value: string, i: nat, st: State): seq<string>
    requires i <= |value|
    decreases |value| - i
  {
    if i == |value| then []
    else if FromAt(value, i, st) then
      [ClauseBehind(value, i)] + ClausesFrom(value, ClauseEnd(value, i + |FROM|, START), START)
    else ClausesFrom(value, i + 1, Advance(st, value[i]))
  }

  function FromClauses(value: string): seq<string> {
    ClausesFrom(value, 0, START)
  }

  // --- which FROM keywords open a clause -----------------------------------------------------------

  /** Where the clauses start. */
  function StartsFrom(value: string, i: nat, st: State): seq<nat>
    requires i <= |value|
    decreases |value| - i
  {
    if i == |value| then []
    else if FromAt(value, i, st) then [i] + StartsFrom(value, ClauseEnd(value, i + |FROM|, START), START)
    else StartsFrom(value, i + 1, Advance(st, value[i]))
  }

  function FromStarts(value: string): seq<nat> {
    StartsFrom(value, 0, START)
  }

  /** A FROM keyword outside parentheses and quoted identifiers of the whole text. */
  predicate TopLevelFrom(value: string, p: nat) {
    p < |value| && FromAt(value, p, StateAt(value, p))
  }

  /** Position `p` lies in the clause of the FROM at `q`. */
  predicate InsideClause(value: string, q: nat, p: nat) {
    q < p && q + |FROM| <= |value| && p < ClauseEnd(value, q + |FROM|, START)
  }

  /** One clause for each start, and it is what stands behind it. */
  ghost predicate Sit(value: string, clauses: seq<string>, starts: seq<nat>) {
    |clauses| == |starts| && forall k :: 0 <= k < |starts| ==> SitsAt(value, clauses[k], starts[k])
  }

  ghost predicate SitsAt(value: string, clause: string, start: nat) {
    start + |FROM| <= |value| && clause == ClauseBehind(value, start)
  }

  lemma SitMore(value: string, clauses: seq<string>, starts: seq<nat>, clause: string, start: nat)
    requires Sit(value, clauses, starts) && SitsAt(value, clause, start)
    ensures Sit(value, [clause] + clauses, [start] + starts)
  {
  }

  /** Every clause is what stands behind its start, up to the end of that clause. */
  lemma {:induction false} ClausesSit(value: string, i: nat, st: State)
    requires i <= |value|
    ensures Sit(value, ClausesFrom(value, i, st), StartsFrom(value, i, st))
    decreases |value| - i
  {
    if i < |value| {
      if FromAt(value, i, st) {
        var end := ClauseEnd(value, i + |FROM|, START);
        ClausesSit(value, end, START);
        SitMore(value, ClausesFrom(value, end, START), StartsFrom(value, end, START), ClauseBehind(value, i), i);
      } else {
        ClausesSit(value, i + 1, Advance(st, value[i]));
      }
    }
  }

  lemma PlainCharacter(st: State, c: char)
    requires c != IDENT && c != '(' && c != ')'
    ensures Advance(st, c) == st
  {
  }

  /** The keyword itself leaves the state at the top level. */
  lemma StateBehindFrom(value: string, i: nat)
    requires TopLevelFrom(value, i)
    ensures i + |FROM| <= |value| && StateAt(value, i + |FROM|) == START
  {
    var word := value[i..i + |FROM|];
    assert word[0] == 'f' && word[1] == 'r' && word[2] == 'o' && word[3] == 'm';
    assert value[i] == 'f' && value[i + 1] == 'r' && value[i + 2] == 'o' && value[i + 3] == 'm';
    assert StateAt(value, i) == START;
    PlainCharacter(START, 'f');
    assert StateAt(value, i + 1) == START;
    PlainCharacter(START, 'r');
    assert StateAt(value, i + 2) == START;
    PlainCharacter(START, 'o');
    assert StateAt(value, i + 3) == START;
    PlainCharacter(START, 'm');
  }

  /** A clause that ends before the text does ends at the top level of the whole text. */
  lemma {:induction false} StateAtClauseEnd(value: string, j: nat)
    requires j <= |value|
    ensures var e := ClauseEnd(value, j, StateAt(value, j)); e < |value| ==> StateAt(value, e) == START
    decreases |value| - j
  {
    if j < |value| {
      ClauseEndStep(value, j, StateAt(value, j));
      if !Stops(value, j, StateAt(value, j)) {
        assert StateAt(value, j + 1) == Advance(StateAt(value, j), value[j]);
        StateAtClauseEnd(value, j + 1);
      }
    }
  }

  /** Reading on from a start keeps the scanner's state the state of the whole text. */
  lemma NextStart(value: string, i: nat)
    requires TopLevelFrom(value, i)
    ensures var e := ClauseEnd(value, i + |FROM|, START); i < e <= |value| && (e < |value| ==> StateAt(value, e) == START)
  {
    StateBehindFrom(value, i);
    StateAtClauseEnd(value, i + |FROM|);
  }

  ghost predicate Covered(value: string, starts: seq<nat>, p: nat) {
    exists q :: q in starts && InsideClause(value, q, p)
  }

  /** The starts listed from `i` on are the uncovered top-level FROM keywords from `i` on. */
  ghost predicate Exact(value: string, i: nat, starts: seq<nat>) {
    && (forall q :: q in starts ==> i <= q < |value|)
    && (forall p: nat :: i <= p ==> (p in starts <==> TopLevelFrom(value, p) && !Covered(value, starts, p)))
  }

  lemma ExactStart(value: string, i: nat, e: nat, rest: seq<nat>)
    requires TopLevelFrom(value, i) && i + |FROM| <= |value| && e == ClauseEnd(value, i + |FROM|, START) && i < e && Exact(value, e, rest)
    ensures Exact(value, i, [i] + rest)
  {
    var starts := [i] + rest;
    forall p: nat | i <= p ensures p in starts <==> TopLevelFrom(value, p) && !Covered(value, starts, p) {
      StartCovers(value, i, e, rest, p);
    }
  }

  lemma StartCovers(value: string, i: nat, e: nat, rest: seq<nat>, p: nat)
    requires i <= p && i + |FROM| <= |value| && e == ClauseEnd(value, i + |FROM|, START) && i < e && forall q :: q in rest ==> e <= q
    ensures Covered(value, [i] + rest, p) <==> i < p < e || Covered(value, rest, p)
    ensures p <= e ==> !Covered(value, rest, p)
  {
    var starts := [i] + rest;
    if Covered(value, rest, p) {
      var q :| q in rest && InsideClause(value, q, p);
      assert q in starts;
    }
    if i < p < e {
      assert i in starts && InsideClause(value, i, p);
    }
    if Covered(value, starts, p) {
      var q :| q in starts && InsideClause(value, q, p);
      assert q == i || q in rest;
    }
  }

  lemma ExactSkip(value: string, i: nat, starts: seq<nat>)
    requires !TopLevelFrom(value, i) && Exact(value, i + 1, starts)
    ensures Exact(value, i, starts)
  {
  }

  lemma {:induction false} StartsFromAreTopLevel(value: string, i: nat, st: State)
    requires i <= |value| && (i < |value| ==> st == StateAt(value, i))
    ensures Exact(value, i, StartsFrom(value, i, st))
    decreases |value| - i
  {
    if i == |value| {
      assert StartsFrom(value, i, st) == [];
    } else if FromAt(value, i, st) {
      var e := ClauseEnd(value, i + |FROM|, START);
      NextStart(value, i);
      StartsFromAreTopLevel(value, e, START);
      ExactStart(value, i, e, StartsFrom(value, e, START));
    } else {
      assert i + 1 < |value| ==> StateAt(value, i + 1) == Advance(st, value[i]);
      StartsFromAreTopLevel(value, i + 1, Advance(st, value[i]));
      ExactSkip(value, i, StartsFrom(value, i + 1, Advance(st, value[i])));
    }
  }

  /** A clause starts at exactly the top-level FROM keywords that no earlier clause contains. */
  lemma StartsAreTopLevel(value: string, p: nat)
    ensures p in FromStarts(value) <==> TopLevelFrom(value, p) && !Covered(value, FromStarts(value), p)
  {
    StartsFromAreTopLevel(value, 0, START);
  }

  lemma KeywordStart(value: string, i: nat)
    requires i < |value| && (KeywordAt(value, i, FROM) || EndKeywordAt(value, i))
    ensures value[i] != IDENT && value[i] != '(' && value[i] != ')'
  {
    if KeywordAt(value, i, FROM) {
      assert value[i..i + |FROM|][0] == 'f';
    } else {
      var k :| 0 <= k < |END_KEYWORDS| && KeywordAt(value, i, END_KEYWORDS[k]);
      assert value[i..i + |END_KEYWORDS[k]|][0] == END_KEYWORDS[k][0];
    }
  }

  /** One character of a clause: whether it ends the clause, and the state behind it. */
  method ReadInClause(value: string, j: nat, depth: nat, inIdentifier: bool) returns (stop: bool, deeper: nat, nowIn: bool)
    requires j < |value|
    ensures stop <==> Stops(value, j, State(depth, inIdentifier))
    ensures !stop ==> State(deeper, nowIn) == Advance(State(depth, inIdentifier), value[j])
  {
    var ch := value[j];
    if EndKeywordAt(value, j) {
      KeywordStart(value, j);
    }
    if ch == IDENT {
      return false, depth, !inIdentifier;
    }
    if inIdentifier {
      return false, depth, inIdentifier;
    }
    if ch == '(' {
      return false, depth + 1, inIdentifier;
    }
    if ch == ')' {
      if depth == 0 {
        return true, depth, inIdentifier;
      }
      return false, depth - 1, inIdentifier;
    }
    stop := depth == 0 && EndKeywordAt(value, j);
    return stop, depth, inIdentifier;
  }

  lemma ClauseEndStep(value: string, j: nat, st: State)
    requires j < |value|
    ensures ClauseEnd(value, j, st) == if Stops(value, j, st) then j else ClauseEnd(value, j + 1, Advance(st, value[j]))
  {
  }

  /** The inner loop, from behind a FROM keyword to the end of its clause. */
  method ScanClause(value: string, start: nat) returns (j: nat)
    requires start <= |value|
    ensures j == ClauseEnd(value, start, START)
  {
    j := start;
    var depth, inIdentifier := 0, false;
    ghost var end := ClauseEnd(value, start, START);
    while j < |value|
      invariant start <= j <= |value|
      invariant end == ClauseEnd(value, j, State(depth, inIdentifier))
    {
      ClauseEndStep(value, j, State(depth, inIdentifier));
      var stop, deeper, nowIn := ReadInClause(value, j, depth, inIdentifier);
      if stop {
        break;
      }
      depth, inIdentifier := deeper, nowIn;
      j := j + 1;
    }
  }

  /** One character outside the clauses: whether a top-level FROM starts here, and the state behind it. */
  method ReadOutside(value: string, i: nat, depth: nat, inIdentifier: bool) returns (start: bool, deeper: nat, nowIn: bool)
    requires i < |value|
    ensures start <==> FromAt(value, i, State(depth, inIdentifier))
    ensures !start ==> State(deeper, nowIn) == Advance(State(depth, inIdentifier), value[i])
    ensures start ==> State(depth, inIdentifier) == START
  {
    var ch := value[i];
    if KeywordAt(value, i, FROM) {
      KeywordStart(value, i);
    }
    if ch == IDENT {
      return false, depth, !inIdentifier;
    }
    if inIdentifier {
      return false, depth, inIdentifier;
    }
    if ch == '(' {
      return false, depth + 1, inIdentifier;
    }
    if ch == ')' {
      return false, if depth > 0 then depth - 1 else 0, inIdentifier;
    }
    start := depth == 0 && KeywordAt(value, i, FROM);
    return start, depth, inIdentifier;
  }

  lemma ClausesStep(value: string, i: nat, st: State, clauses: seq<string>)
    requires i < |value|
    ensures !FromAt(value, i, st) ==> clauses + ClausesFrom(value, i, st) == clauses + ClausesFrom(value, i + 1, Advance(st, value[i]))
    ensures FromAt(value, i, st) ==>
      var j := ClauseEnd(value, i + |FROM|, START);
      && i + |FROM| <= j <= |value|
      && clauses + ClausesFrom(value, i, st) == clauses + [value[i + |FROM|..j]] + ClausesFrom(value, j, START)
  {
  }

  method TopLevelFromClauses(value: string) returns (clauses: seq<string>)
    ensures clauses == FromClauses(value) && Sit(value, clauses, FromStarts(value))
  {
    clauses := [];
    var depth, inIdentifier, i := 0, false, 0;
    ghost var all := FromClauses(value);
    while i < |value|
      invariant 0 <= i <= |value|
      invariant all == clauses + ClausesFrom(value, i, State(depth, inIdentifier))
      decreases |value| - i
    {
      ClausesStep(value, i, State(depth, inIdentifier), clauses);
      var start, deeper, nowIn := ReadOutside(value, i, depth, inIdentifier);
      if start {
        var j := ScanClause(value, i + |FROM|);
        clauses := clauses + [value[i + |FROM|..j]];
        i := j;
      } else {
        depth, inIdentifier := deeper, nowIn;
        i := i + 1;
      }
    }
    ClausesSit(value, 0, START);
  }

  // --- parenthesised subqueries ------------------------------------------------------------------------

  predicate OpensAt(value: string, i: nat) {
    i < |value| && value[i] == '(' && !StateAt(value, i).inIdentifier
  }

  predicate ClosesAt(value: string, i: nat) {
    i < |value| && value[i] == ')' && !StateAt(value, i).inIdentifier
  }

  /** Parentheses opened less parentheses closed from `s` up to `i`, quoted identifiers aside. */
  function Height(value: string, s: nat, i: nat): int
    decreases i
  {
    if i <= s then 0
    else Height(value, s, i - 1) + (if OpensAt(value, i - 1) then 1 else if ClosesAt(value, i - 1) then -1 else 0)
  }

  ghost predicate NeverBelow(value: string, s: nat, i: nat) {
    forall m: nat :: s <= m <= i ==> Height(value, s, m) >= 0
  }

  /** An opening parenthesis and the closing one that belongs to it. */
  ghost predicate Matched(value: string, s: nat, e: nat) {
    s < e && OpensAt(value, s) && ClosesAt(value, e) && Height(value, s + 1, e) == 0 && NeverBelow(value, s + 1, e)
  }

  /** What one character does to the stack of open parentheses, and the pair it completes. */
  function NextStack(value: string, i: nat, stack: seq<nat>): seq<nat> {
    if OpensAt(value, i) then stack + [i]
    else if ClosesAt(value, i) && stack != [] then stack[..|stack| - 1]
    else stack
  }

  function PairAt(value: string, i: nat, stack: seq<nat>): seq<(nat, nat)> {
    if ClosesAt(value, i) && stack != [] then [(stack[|stack| - 1], i)] else []
  }

  /** The pairs the stack produces, reading on from `i`. */
  function PairsFrom(value: string, i: nat, stack: seq<nat>): seq<(nat, nat)>
    requires i <= |value|
    decreases |value| - i
  {
    if i == |value| then []
    else PairAt(value, i, stack) + PairsFrom(value, i + 1, NextStack(value, i, stack))
  }

  /** The stack holds exactly the parentheses still open, each at its own height. */
  ghost predicate StackAt(value: string, i: nat, stack: seq<nat>) {
    && (forall t :: 0 <= t < |stack| ==> StillOpen(value, i, stack[t]) && Height(value, stack[t] + 1, i) == |stack| - 1 - t)
    && (forall s: nat :: StillOpen(value, i, s) ==> s in stack)
  }

  ghost predicate StillOpen(value: string, i: nat, s: nat) {
    s < i && OpensAt(value, s) && NeverBelow(value, s + 1, i)
  }

  lemma StillOpenStep(value: string, i: nat, s: nat)
    requires i < |value|
    ensures StillOpen(value, i + 1, s) <==> (s == i && OpensAt(value, i)) || (StillOpen(value, i, s) && Height(value, s + 1, i + 1) >= 0)
  {
    if s < i && NeverBelow(value, s + 1, i) && Height(value, s + 1, i + 1) >= 0 {
      var from := s + 1;
      forall m: nat | from <= m <= i + 1 ensures Height(value, from, m) >= 0 {
        assert m <= i || m == i + 1;
      }
    }
  }

  lemma PushKeepsStack(value: string, i: nat, stack: seq<nat>)
    requires StackAt(value, i, stack) && OpensAt(value, i)
    ensures StackAt(value, i + 1, stack + [i])
  {
    var pushed := stack + [i];
    forall t | 0 <= t < |pushed|
      ensures StillOpen(value, i + 1, pushed[t]) && Height(value, pushed[t] + 1, i + 1) == |pushed| - 1 - t
    {
      StillOpenStep(value, i, pushed[t]);
    }
    forall s: nat | StillOpen(value, i + 1, s) ensures s in pushed {
      StillOpenStep(value, i, s);
    }
  }

  lemma PassKeepsStack(value: string, i: nat, stack: seq<nat>)
    requires i < |value| && StackAt(value, i, stack) && !OpensAt(value, i) && !(ClosesAt(value, i) && stack != [])
    ensures StackAt(value, i + 1, stack)
  {
    forall t | 0 <= t < |stack|
      ensures StillOpen(value, i + 1, stack[t]) && Height(value, stack[t] + 1, i + 1) == |stack| - 1 - t
    {
      StillOpenStep(value, i, stack[t]);
    }
    forall s: nat | StillOpen(value, i + 1, s) ensures s in stack {
      StillOpenStep(value, i, s);
    }
  }

  lemma PopKeepsStack(value: string, i: nat, stack: seq<nat>)
    requires StackAt(value, i, stack) && ClosesAt(value, i) && stack != []
    ensures StackAt(value, i + 1, stack[..|stack| - 1])
    ensures Matched(value, stack[|stack| - 1], i)
    ensures forall s: nat :: Matched(value, s, i) ==> s == stack[|stack| - 1]
  {
    var popped, top := stack[..|stack| - 1], stack[|stack| - 1];
    assert StillOpen(value, i, top);
    forall t | 0 <= t < |popped|
      ensures StillOpen(value, i + 1, popped[t]) && Height(value, popped[t] + 1, i + 1) == |popped| - 1 - t
    {
      assert popped[t] == stack[t];
      StillOpenStep(value, i, stack[t]);
    }
    forall s: nat | StillOpen(value, i + 1, s) ensures s in popped {
      StillOpenStep(value, i, s);
      var t :| 0 <= t < |stack| && stack[t] == s;
      assert popped[t] == s;
    }
    forall s: nat | Matched(value, s, i) ensures s == top {
      assert StillOpen(value, i, s);
      var t :| 0 <= t < |stack| && stack[t] == s;
    }
  }

  /** The stack finds every matched pair of the text and nothing else. */
  lemma {:induction false} PairsAreMatched(value: string, i: nat, stack: seq<nat>)
    requires i <= |value| && StackAt(value, i, stack)
    ensures forall s: nat, e: nat :: (s, e) in PairsFrom(value, i, stack) <==> i <= e && Matched(value, s, e)
    decreases |value| - i
  {
    if i < |value| {
      StepKeepsStack(value, i, stack);
      PairsAreMatched(value, i + 1, NextStack(value, i, stack));
      forall s: nat, e: nat ensures (s, e) in PairsFrom(value, i, stack) <==> i <= e && Matched(value, s, e) {
        if e == i {
          assert (s, e) in PairAt(value, i, stack) <==> Matched(value, s, e);
        }
      }
    }
  }

  lemma StepKeepsStack(value: string, i: nat, stack: seq<nat>)
    requires i < |value| && StackAt(value, i, stack)
    ensures StackAt(value, i + 1, NextStack(value, i, stack))
    ensures forall s: nat, e: nat :: (s, e) in PairAt(value, i, stack) <==> e == i && Matched(value, s, e)
  {
    if OpensAt(value, i) {
      PushKeepsStack(value, i, stack);
    } else if ClosesAt(value, i) && stack != [] {
      PopKeepsStack(value, i, stack);
    } else {
      PassKeepsStack(value, i, stack);
      forall s: nat | Matched(value, s, i) ensures s in stack {
        assert StillOpen(value, i, s);
      }
    }
  }

  // --- collecting table references ------------------------------------------------------------------------

  predicate IsSpace(c: char) {
    c == ' ' || '\U{9}' <= c <= '\U{D}' || '\U{1C}' <= c <= '\U{1F}'
  }

  function StripLeft(s: string): (r: string)
    ensures |r| <= |s| && (r != "" ==> !IsSpace(r[0]))
  {
    if s != "" && IsSpace(s[0]) then StripLeft(s[1..]) else s
  }

  function StripRight(s: string): (r: string)
    ensures |r| <= |s| && (r != "" ==> !IsSpace(r[|r| - 1]))
  {
    if s != "" && IsSpace(s[|s| - 1]) then StripRight(s[..|s| - 1]) else s
  }

  function Strip(s: string): (r: string)
    ensures |r| <= |s|
  {
    StripRight(StripLeft(s))
  }

  predicate StartsWithWord(s: string, word: string) {
    word <= s && (|s| > |word| ==> !WordChar(s[|word|]))
  }

  predicate IsSubquery(s: string) {
    StartsWithWord(s, "select") || StartsWithWord(s, "with")
  }

  function Inner(value: string, pair: (nat, nat)): string {
    if pair.0 + 1 <= pair.1 <= |value| then Strip(value[pair.0 + 1..pair.1]) else ""
  }

  function Collect(found: ((nat, nat)) -> seq<string>, pairs: seq<(nat, nat)>): seq<string> {
    if pairs == [] then [] else found(pairs[0]) + Collect(found, pairs[1..])
  }

  function SubqueryOf(value: string): ((nat, nat)) -> seq<string> {
    (pair: (nat, nat)) => SubqueryIn(value, pair)
  }

  function SubqueryIn(value: string, pair: (nat, nat)): seq<string> {
    if IsSubquery(Inner(value, pair)) then [Inner(value, pair)] else []
  }

  function NestedSelects(value: string): seq<string> {
    Collect(SubqueryOf(value), PairsFrom(value, 0, []))
  }

  lemma {:induction false} Collected(found: ((nat, nat)) -> seq<string>, pairs: seq<(nat, nat)>, q: string)
    ensures q in Collect(found, pairs) <==> exists p :: p in pairs && q in found(p)
  {
    if pairs != [] {
      Collected(found, pairs[1..], q);
      assert pairs == [pairs[0]] + pairs[1..];
    }
  }

  /** The subqueries are exactly the stripped contents of matched parentheses that start like one. */
  lemma NestedAreMatched(value: string, q: string)
    ensures q in NestedSelects(value) <==>
            IsSubquery(q) && exists s: nat, e: nat :: Matched(value, s, e) && q == Inner(value, (s, e))
  {
    var pairs := PairsFrom(value, 0, []);
    Collected(SubqueryOf(value), pairs, q);
    PairsAreMatched(value, 0, []);
    if q in NestedSelects(value) {
      var p :| p in pairs && q in SubqueryOf(value)(p);
      assert Matched(value, p.0, p.1) && q == Inner(value, (p.0, p.1));
    }
    if IsSubquery(q) && exists s: nat, e: nat :: Matched(value, s, e) && q == Inner(value, (s, e)) {
      var s: nat, e: nat :| Matched(value, s, e) && q == Inner(value, (s, e));
      assert (s, e) in pairs && q in SubqueryOf(value)((s, e));
    }
  }

  /** A subquery is shorter than the text it stands in. */
  lemma NestedIsShorter(value: string, q: string)
    requires q in NestedSelects(value)
    ensures |q| + 2 <= |value|
  {
    NestedAreMatched(value, q);
    var s: nat, e: nat :| Matched(value, s, e) && q == Inner(value, (s, e));
  }

  lemma Associative(a: seq<string>, b: seq<string>, c: seq<string>)
    ensures a + (b + c) == a + b + c
  {
  }

  lemma {:induction false} CollectConcat(found: ((nat, nat)) -> seq<string>, a: seq<(nat, nat)>, b: seq<(nat, nat)>)
    ensures Collect(found, a + b) == Collect(found, a) + Collect(found, b)
  {
    if a == [] {
      assert a + b == b;
    } else {
      CollectConcat(found, a[1..], b);
      assert (a + b)[1..] == a[1..] + b && (a + b)[0] == a[0];
      Associative(found(a[0]), Collect(found, a[1..]), Collect(found, b));
    }
  }

  /** What is still to be found splits into what this character completes and the rest. */
  lemma CollectStep(value: string, i: nat, stack: seq<nat>, nested: seq<string>)
    requires i < |value|
    ensures nested + Collect(SubqueryOf(value), PairsFrom(value, i, stack)) ==
            nested + Collect(SubqueryOf(value), PairAt(value, i, stack)) +
            Collect(SubqueryOf(value), PairsFrom(value, i + 1, NextStack(value, i, stack)))
  {
    var here, later := PairAt(value, i, stack), PairsFrom(value, i + 1, NextStack(value, i, stack));
    CollectConcat(SubqueryOf(value), here, later);
    Associative(nested, Collect(SubqueryOf(value), here), Collect(SubqueryOf(value), later));
  }

  /** One turn of the loop: the new stack, and the subquery a closing parenthesis completes. */
  method ReadParenthesis(value: string, i: nat, stack: seq<nat>, inIdentifier: bool)
    returns (next: seq<nat>, found: seq<string>, nowIn: bool)
    requires i < |value| && inIdentifier == StateAt(value, i).inIdentifier && forall k :: 0 <= k < |stack| ==> stack[k] < i
    ensures next == NextStack(value, i, stack) && found == Collect(SubqueryOf(value), PairAt(value, i, stack))
    ensures nowIn == StateAt(value, i + 1).inIdentifier
    ensures forall k :: 0 <= k < |next| ==> next[k] < i + 1
  {
    next, found, nowIn := stack, [], inIdentifier;
    if value[i] == IDENT {
      nowIn := !inIdentifier;
      return;
    }
    if inIdentifier {
      return;
    }
    if value[i] == '(' {
      next := stack + [i];
    } else if value[i] == ')' && stack != [] {
      var start := stack[|stack| - 1];
      next := stack[..|stack| - 1];
      var inner := Strip(value[start + 1..i]);
      assert inner == Inner(value, (start, i));
      assert PairAt(value, i, stack)[1..] == [];
      if IsSubquery(inner) {
        found := [inner];
      }
    }
  }

  /** One pass over the text with a stack of open parentheses. */
  method ScanNested(value: string, ghost all: seq<string>) returns (nested: seq<string>)
    requires all == Collect(SubqueryOf(value), PairsFrom(value, 0, []))
    ensures nested == all
  {
    nested := [];
    var stack: seq<nat> := [];
    var inIdentifier := false;
    for i := 0 to |value|
      invariant inIdentifier == StateAt(value, i).inIdentifier
      invariant forall k :: 0 <= k < |stack| ==> stack[k] < i
      invariant all == nested + Collect(SubqueryOf(value), PairsFrom(value, i, stack))
    {
      CollectStep(value, i, stack, nested);
      var found;
      stack, found, inIdentifier := ReadParenthesis(value, i, stack, inIdentifier);
      nested := nested + found;
    }
  }

  method FindNestedSelects(value: string) returns (nested: seq<string>)
    ensures nested == NestedSelects(value)
    ensures forall q :: q in nested ==> |q| + 2 <= |value|
  {
    nested := ScanNested(value, NestedSelects(value));
    forall q | q in nested ensures |q| + 2 <= |value| {
      NestedIsShorter(value, q);
    }
  }

  // --- characters, words and keywords, told by listing them -------------------------------------------------

  const LETTERS: string := "abcdefghijklmnopqrstuvwxyz"
  const CAPITALS: string := "ABCDEFGHIJKLMNOPQRSTUVWXYZ"
  const NUMERALS: string := "0123456789"

  lemma ListedChars(i: nat)
    ensures |LETTERS| == |CAPITALS| == 26 && |NUMERALS| == 10
    ensures i < 26 ==> LETTERS[i] == (97 + i) as char && CAPITALS[i] == (65 + i) as char
    ensures i < 10 ==> NUMERALS[i] == (48 + i) as char
  {
  }

  /** A word is made of letters, numerals and underscores. */
  lemma WordChars(c: char)
    ensures WordChar(c) <==> c in LETTERS || c in CAPITALS || c in NUMERALS || c == '_'
  {
    forall i: nat {
      ListedChars(i);
    }
    if 'a' <= c <= 'z' {
      assert LETTERS[c as int - 97] == c;
    }
    if 'A' <= c <= 'Z' {
      assert CAPITALS[c as int - 65] == c;
    }
    if '0' <= c <= '9' {
      assert NUMERALS[c as int - 48] == c;
    }
  }

  /** The text in front of and behind a keyword that stands alone. */
  ghost predicate Alone(value: string, before: string, keyword: string, after: string) {
    && value == before + keyword + after
    && (before == "" || !WordChar(before[|before| - 1])) && (after == "" || !WordChar(after[0]))
  }

  /** A keyword stands where the text is split around it, with no word character next to it. */
  lemma KeywordStandsAlone(value: string, index: nat, keyword: string)
    ensures KeywordAt(value, index, keyword) <==> exists before, after :: |before| == index && Alone(value, before, keyword, after)
  {
    if KeywordAt(value, index, keyword) {
      var before, after := value[..index], value[index + |keyword|..];
      assert value == before + value[index..index + |keyword|] + after;
      assert Alone(value, before, keyword, after);
    }
    if before, after :| |before| == index && Alone(value, before, keyword, after) {
      assert value[index..index + |keyword|] == keyword;
      assert index > 0 ==> value[index - 1] == before[|before| - 1];
      assert index + |keyword| < |value| ==> value[index + |keyword|] == after[0];
    }
  }

  /** The keywords that end a clause. */
  lemma EndKeywords(value: string, j: nat)
    ensures EndKeywordAt(value, j) <==>
      || KeywordAt(value, j, "where") || KeywordAt(value, j, "group by") || KeywordAt(value, j, "order by") || KeywordAt(value, j, "having")
      || KeywordAt(value, j, "limit") || KeywordAt(value, j, "offset") || KeywordAt(value, j, "union") || KeywordAt(value, j, "except")
      || KeywordAt(value, j, "intersect")
  {
    assert END_KEYWORDS[0] == "where" && END_KEYWORDS[1] == "group by" && END_KEYWORDS[2] == "order by" && END_KEYWORDS[3] == "having";
    assert END_KEYWORDS[4] == "limit" && END_KEYWORDS[5] == "offset" && END_KEYWORDS[6] == "union" && END_KEYWORDS[7] == "except";
    assert END_KEYWORDS[8] == "intersect" && |END_KEYWORDS| == 9;
  }

  /** A quotation mark opens or closes an identifier; parentheses count outside of one, and never below none. */
  lemma OneCharacter(st: State, c: char)
    ensures Advance(st, c).inIdentifier <==> (st.inIdentifier <==> c != '"')
    ensures Advance(st, c).depth - st.depth == if st.inIdentifier then 0 else if c == '(' then 1 else if c == ')' && st.depth > 0 then -1 else 0
  {
  }

  /** The white space of ASCII text. */
  lemma SpaceIs(c: char)
    ensures IsSpace(c) <==> c == ' ' || c in "\t\n\U{B}\U{C}\r\U{1C}\U{1D}\U{1E}\U{1F}"
  {
  }

  /** Stripping cuts spaces off both ends and nothing else. */
  lemma StripCutsSpaces(s: string) returns (before: string, after: string)
    ensures s == before + Strip(s) + after && (forall c :: c in before || c in after ==> IsSpace(c))
    ensures Strip(s) != "" ==> !IsSpace(Strip(s)[0]) && !IsSpace(Strip(s)[|Strip(s)| - 1])
  {
    before := LeftCut(s);
    after := RightCut(StripLeft(s));
    assert s == before + (Strip(s) + after);
    if Strip(s) != "" {
      assert Strip(s)[0] == StripLeft(s)[0];
    }
  }

  lemma {:induction false} LeftCut(s: string) returns (cut: string)
    ensures s == cut + StripLeft(s) && forall c :: c in cut ==> IsSpace(c)
    decreases |s|
  {
    cut := "";
    if s != "" && IsSpace(s[0]) {
      cut := LeftCut(s[1..]);
      cut := [s[0]] + cut;
    }
  }

  lemma {:induction false} RightCut(s: string) returns (cut: string)
    ensures s == StripRight(s) + cut && forall c :: c in cut ==> IsSpace(c)
    decreases |s|
  {
    cut := "";
    if s != "" && IsSpace(s[|s| - 1]) {
      cut := RightCut(s[..|s| - 1]);
      cut := cut + [s[|s| - 1]];
    }
  }

  /** A subquery starts with one of two words. */
  lemma SubqueryWords(s: string)
    ensures IsSubquery(s) <==> exists after :: Alone(s, "", "select", after) || Alone(s, "", "with", after)
  {
    if StartsWithWord(s, "select") {
      assert s == "" + "select" + s[6..];
      assert Alone(s, "", "select", s[6..]);
    }
    if StartsWithWord(s, "with") {
      assert s == "" + "with" + s[4..];
      assert Alone(s, "", "with", s[4..]);
    }
    if after :| Alone(s, "", "select", after) || Alone(s, "", "with", after) {
      var word := if Alone(s, "", "select", after) then "select" else "with";
      assert s == word + after;
      assert s[..|word|] == word && s[|word|..] == after;
    }
  }

  // --- the scanner's state, told by counting ---------------------------------------------------------------------

  /** How many quotation marks stand in front of position `i`. */
  ghost function Quotes(value: string, i: nat): set<nat> {
    set k: nat | k < i && k < |value| && value[k] == '"'
  }

  /** Inside a quoted identifier after an odd number of quotation marks. */
  lemma {:induction false} QuotedAfterOdd(value: string, i: nat)
    requires i <= |value|
    ensures StateAt(value, i).inIdentifier <==> |Quotes(value, i)| % 2 == 1
  {
    if i == 0 {
      assert Quotes(value, i) == {};
    } else {
      QuotedAfterOdd(value, i - 1);
      OneCharacter(StateAt(value, i - 1), value[i - 1]);
      if value[i - 1] == '"' {
        assert Quotes(value, i) == Quotes(value, i - 1) + {i - 1};
      } else {
        assert Quotes(value, i) == Quotes(value, i - 1);
      }
    }
  }

  /** A parenthesis counts where an even number of quotation marks stands in front of it. */
  lemma ParenthesesCount(value: string, i: nat)
    requires i < |value|
    ensures OpensAt(value, i) <==> value[i] == '(' && |Quotes(value, i)| % 2 == 0
    ensures ClosesAt(value, i) <==> value[i] == ')' && |Quotes(value, i)| % 2 == 0
  {
    QuotedAfterOdd(value, i);
  }

  /** The depth is how far the parentheses have risen since they were lowest. */
  lemma {:induction false} DepthIsHeight(value: string, i: nat) returns (lowest: nat)
    requires i <= |value|
    ensures lowest <= i && StateAt(value, i).depth == Height(value, lowest, i)
    ensures forall s: nat :: s <= i ==> Height(value, s, i) <= StateAt(value, i).depth
    decreases i
  {
    if i == 0 {
      lowest := 0;
    } else {
      lowest := DepthIsHeight(value, i - 1);
      OneCharacter(StateAt(value, i - 1), value[i - 1]);
      if ClosesAt(value, i - 1) && StateAt(value, i - 1).depth == 0 {
        lowest := i;
      }
      forall s: nat | s <= i ensures Height(value, s, i) <= StateAt(value, i).depth {
        assert s < i ==> Height(value, s, i - 1) <= StateAt(value, i - 1).depth;
      }
    }
  }

  /** Top level: outside quoted identifiers, with nothing opened since that is not closed again. */
  lemma TopLevelIs(value: string, i: nat)
    requires i <= |value|
    ensures StateAt(value, i).Top() <==> |Quotes(value, i)| % 2 == 0 && forall s: nat :: s <= i ==> Height(value, s, i) <= 0
  {
    QuotedAfterOdd(value, i);
    var lowest := DepthIsHeight(value, i);
  }
}
