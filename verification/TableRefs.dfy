/**
 Collecting the table references of a query through its FROM clauses and subqueries. What
 the regular expressions recognise in one text or one FROM item is left to two functions;
 the recursion over the query is the code's own.
 */
module TableRefs {
  import opened SqlBlanking
  import opened QueryShape

  /** The relations a text names behind JOIN, and the relation one FROM item starts with. */
  datatype Patterns = Patterns(joined: string -> set<string>, item: string -> set<string>)

  function LowerChar(c: char): char {
    if 'A' <= c <= 'Z' then (c as int + 32) as char else c
  }

  function Lower(s: string): (r: string)
    ensures |r| == |s|
  {
    seq(|s|, i requires 0 <= i < |s| => LowerChar(s[i]))
  }

  const UPPER: string := "ABCDEFGHIJKLMNOPQRSTUVWXYZ"
  const LOWER: string := "abcdefghijklmnopqrstuvwxyz"

  lemma Letter(i: nat)
    requires i < |UPPER|
    ensures |UPPER| == |LOWER| == 26 && UPPER[i] == (65 + i) as char && LOWER[i] == (97 + i) as char
  {
  }

  /** Capital letters become the small ones, and every other character stays. */
  lemma LowerIs(s: string, k: nat)
    requires k < |s|
    ensures forall i: nat :: i < |UPPER| && UPPER[i] == s[k] ==> i < |LOWER| && Lower(s)[k] == LOWER[i]
    ensures s[k] !in UPPER ==> Lower(s)[k] == s[k]
  {
    forall i: nat | i < |UPPER| ensures i < |LOWER| && UPPER[i] == (65 + i) as char && LOWER[i] == (97 + i) as char {
      Letter(i);
    }
    if 'A' <= s[k] <= 'Z' {
      assert UPPER[s[k] as int - 65] == s[k];
    }
  }

  ghost predicate Shorter(texts: seq<string>, bound: nat) {
    forall t :: t in texts ==> |t| < bound
  }

  lemma {:induction false} PartsAreShorter(s: string, st: State, k: nat)
    requires k < |SplitFrom(s, st)|
    ensures |SplitFrom(s, st)[k]| <= |s|
    decreases |s|
  {
    if s != "" {
      if s[0] == ',' && st.Top() {
        if k > 0 { PartsAreShorter(s[1..], st, k - 1); }
      } else {
        PartsAreShorter(s[1..], Advance(st, s[0]), k);
      }
    }
  }

  lemma SplitIsShorter(clause: string, bound: nat)
    requires |clause| < bound
    ensures Shorter(Split(clause), bound)
  {
    forall t | t in Split(clause) ensures |t| < bound {
      var k: nat :| k < |Split(clause)| && Split(clause)[k] == t;
      PartsAreShorter(clause, START, k);
    }
  }

  lemma ShapesAreShorter(lowered: string)
    ensures Shorter(FromClauses(lowered), |lowered|) && Shorter(NestedSelects(lowered), |lowered|)
  {
    forall t | t in FromClauses(lowered) ensures |t| < |lowered| {
      var k: nat :| k < |FromClauses(lowered)| && FromClauses(lowered)[k] == t;
      ClausesSit(lowered, 0, START);
      assert SitsAt(lowered, t, FromStarts(lowered)[k]);
    }
    forall q | q in NestedSelects(lowered) ensures |q| < |lowered| {
      NestedIsShorter(lowered, q);
    }
  }

  // --- the references of a query -----------------------------------------------------------------

  /** Every recursive call is on a strictly shorter text, so the collection ends. */
  function Refs(sql: string, p: Patterns): set<string>
    decreases |sql|, 3, 0
  {
    var lowered := Lower(Blank(sql, Code));
    ShapesAreShorter(lowered);
    p.joined(lowered) + ClauseRefs(FromClauses(lowered), |sql|, p) + NestedRefs(NestedSelects(lowered), lowered, |sql|, p)
  }

  function ClauseRefs(clauses: seq<string>, bound: nat, p: Patterns): set<string>
    requires Shorter(clauses, bound)
    decreases bound, 2, |clauses|
  {
    if clauses == [] then {}
    else
      SplitIsShorter(clauses[0], bound);
      ItemRefs(Split(clauses[0]), bound, p) + ClauseRefs(clauses[1..], bound, p)
  }

  function ItemRefs(items: seq<string>, bound: nat, p: Patterns): set<string>
    requires Shorter(items, bound)
    decreases bound, 1, |items|
  {
    if items == [] then {} else ItemRef(items[0], bound, p) + ItemRefs(items[1..], bound, p)
  }

  function ItemRef(text: string, bound: nat, p: Patterns): set<string>
    requires |text| < bound
    decreases bound, 0, 0
  {
    var item := Strip(text);
    if item == "" then {} else if item[0] == '(' then Refs(item[1..], p) else p.item(item)
  }

  function NestedRefs(nested: seq<string>, lowered: string, bound: nat, p: Patterns): set<string>
    requires Shorter(nested, bound)
    decreases bound, 1, |nested|
  {
    if nested == [] then {}
    else (if nested[0] != lowered then Refs(nested[0], p) else {}) + NestedRefs(nested[1..], lowered, bound, p)
  }

  /** Comments, literals and their contents never change the references found. */
  lemma OnlyCodeIsRead(sql: string, other: string, p: Patterns)
    requires Blank(sql, Code) == Blank(other, Code)
    ensures Refs(sql, p) == Refs(other, p)
  {
  }

  lemma BlankedHasSameRefs(sql: string, p: Patterns)
    ensures Refs(Blank(sql, Code), p) == Refs(sql, p)
  {
    BlankIsClean(sql, Code);
    CleanIsFixed(Blank(sql, Code));
    OnlyCodeIsRead(Blank(sql, Code), sql, p);
  }

  // --- which references a query has -----------------------------------------------------------------

  function Shape(sql: string): string {
    Lower(Blank(sql, Code))
  }

  /** A non-empty item of a top-level FROM clause. */
  ghost predicate FromItem(shape: string, item: string) {
    item != "" && exists clause, part :: PartOf(shape, clause, part) && item == Strip(part)
  }

  ghost predicate PartOf(shape: string, clause: string, part: string) {
    clause in FromClauses(shape) && part in Split(clause)
  }

  /** A text that is read as a query of its own: behind the parenthesis that opens a FROM item, or a subquery. */
  ghost predicate Opens(sql: string, inner: string) {
    || FromItem(Shape(sql), "(" + inner)
    || (inner in NestedSelects(Shape(sql)) && inner != Shape(sql))
  }

  /** A query reads itself and whatever the texts it opens read. */
  ghost predicate Reads(sql: string, text: string)
    decreases |sql|
  {
    text == sql || exists inner :: |inner| < |sql| && Opens(sql, inner) && Reads(inner, text)
  }

  /** A reference the patterns recognise in the text itself: behind a JOIN, or as a FROM item. */
  ghost predicate Names(text: string, p: Patterns, ref: string) {
    ref in p.joined(Shape(text)) || exists item :: FromItem(Shape(text), item) && item[0] != '(' && ref in p.item(item)
  }

  /** Some text of the list has the property. */
  ghost predicate Some(texts: seq<string>, has: string -> bool) {
    exists t :: t in texts && has(t)
  }

  lemma SomeOfMore(texts: seq<string>, has: string -> bool)
    requires texts != []
    ensures Some(texts, has) <==> has(texts[0]) || Some(texts[1..], has)
  {
    assert texts == [texts[0]] + texts[1..];
    if Some(texts[1..], has) {
      var t :| t in texts[1..] && has(t);
      assert t in texts;
    }
    if Some(texts, has) {
      var t :| t in texts && has(t);
      assert t == texts[0] || t in texts[1..];
    }
    assert texts[0] in texts;
  }

  ghost function InItem(bound: nat, p: Patterns, ref: string): string -> bool {
    (t: string) => |t| < bound && ref in ItemRef(t, bound, p)
  }

  ghost function InClause(bound: nat, p: Patterns, ref: string): string -> bool {
    (c: string) => Shorter(Split(c), bound) && ref in ItemRefs(Split(c), bound, p)
  }

  ghost function InSubquery(shape: string, p: Patterns, ref: string): string -> bool {
    (q: string) => q != shape && ref in Refs(q, p)
  }

  lemma {:induction false} InItems(items: seq<string>, bound: nat, p: Patterns, ref: string)
    requires Shorter(items, bound)
    ensures ref in ItemRefs(items, bound, p) <==> Some(items, InItem(bound, p, ref))
  {
    if items != [] {
      InItems(items[1..], bound, p, ref);
      SomeOfMore(items, InItem(bound, p, ref));
    }
  }

  lemma {:induction false} InClauses(clauses: seq<string>, bound: nat, p: Patterns, ref: string)
    requires Shorter(clauses, bound)
    ensures ref in ClauseRefs(clauses, bound, p) <==> Some(clauses, InClause(bound, p, ref))
  {
    if clauses != [] {
      SplitIsShorter(clauses[0], bound);
      InClauses(clauses[1..], bound, p, ref);
      SomeOfMore(clauses, InClause(bound, p, ref));
    }
  }

  lemma {:induction false} InNested(nested: seq<string>, shape: string, bound: nat, p: Patterns, ref: string)
    requires Shorter(nested, bound)
    ensures ref in NestedRefs(nested, shape, bound, p) <==> Some(nested, InSubquery(shape, p, ref))
  {
    if nested != [] {
      InNested(nested[1..], shape, bound, p, ref);
      SomeOfMore(nested, InSubquery(shape, p, ref));
    }
  }

  lemma StripIsShorter(s: string)
    ensures |Strip(s)| <= |s|
  {
  }

  lemma ItemIsShorter(shape: string, item: string)
    requires FromItem(shape, item)
    ensures |item| < |shape|
  {
    var clause, part :| PartOf(shape, clause, part) && item == Strip(part);
    ShapesAreShorter(shape);
    SplitIsShorter(clause, |shape|);
    StripIsShorter(part);
  }

  lemma OpensShorter(sql: string, inner: string)
    requires Opens(sql, inner)
    ensures |inner| < |sql|
  {
    ShapesAreShorter(Shape(sql));
    if FromItem(Shape(sql), "(" + inner) {
      ItemIsShorter(Shape(sql), "(" + inner);
    }
  }

  /** What a FROM item contributes: its own name, or all that a parenthesised text contributes. */
  ghost predicate Contributes(item: string, p: Patterns, ref: string) {
    item != "" && (if item[0] == '(' then ref in Refs(item[1..], p) else ref in p.item(item))
  }

  lemma PartContributes(part: string, bound: nat, p: Patterns, ref: string)
    requires |part| < bound
    ensures ref in ItemRef(part, bound, p) <==> Contributes(Strip(part), p, ref)
  {
  }

  lemma InClauseParts(clause: string, bound: nat, p: Patterns, ref: string)
    requires |clause| < bound
    ensures InClause(bound, p, ref)(clause) <==> exists part :: part in Split(clause) && Contributes(Strip(part), p, ref)
  {
    SplitIsShorter(clause, bound);
    InItems(Split(clause), bound, p, ref);
    forall part | part in Split(clause) ensures InItem(bound, p, ref)(part) <==> Contributes(Strip(part), p, ref) {
      PartContributes(part, bound, p, ref);
    }
  }

  /** A reference is found in the clauses exactly when some item contributes it. */
  lemma ClausesContribute(shape: string, bound: nat, p: Patterns, ref: string)
    requires Shorter(FromClauses(shape), bound)
    ensures ref in ClauseRefs(FromClauses(shape), bound, p) <==> exists item :: FromItem(shape, item) && Contributes(item, p, ref)
  {
    InClauses(FromClauses(shape), bound, p, ref);
    forall clause | clause in FromClauses(shape)
      ensures InClause(bound, p, ref)(clause) <==> exists part :: part in Split(clause) && Contributes(Strip(part), p, ref)
    {
      InClauseParts(clause, bound, p, ref);
    }
    if ref in ClauseRefs(FromClauses(shape), bound, p) {
      var clause :| clause in FromClauses(shape) && InClause(bound, p, ref)(clause);
      var part :| part in Split(clause) && Contributes(Strip(part), p, ref);
      assert PartOf(shape, clause, part);
      assert FromItem(shape, Strip(part));
    }
    if item :| FromItem(shape, item) && Contributes(item, p, ref) {
      var clause, part :| PartOf(shape, clause, part) && item == Strip(part);
    }
  }

  /** An item that contributes names the reference itself or opens a text that has it, and conversely. */
  lemma ItemsContribute(sql: string, shape: string, p: Patterns, ref: string)
    requires shape == Shape(sql)
    ensures (exists item :: FromItem(shape, item) && Contributes(item, p, ref)) <==>
      || (exists item :: FromItem(shape, item) && item[0] != '(' && ref in p.item(item))
      || (exists inner :: FromItem(shape, "(" + inner) && ref in Refs(inner, p))
  {
    if item :| FromItem(shape, item) && Contributes(item, p, ref) {
      if item[0] == '(' {
        assert item == "(" + item[1..];
      }
    }
    if item :| FromItem(shape, item) && item[0] != '(' && ref in p.item(item) {
      assert Contributes(item, p, ref);
    }
    if inner :| FromItem(shape, "(" + inner) && ref in Refs(inner, p) {
      assert ("(" + inner)[1..] == inner;
      assert Contributes("(" + inner, p, ref);
    }
  }

  lemma SubqueriesContribute(shape: string, bound: nat, p: Patterns, ref: string)
    requires Shorter(NestedSelects(shape), bound)
    ensures ref in NestedRefs(NestedSelects(shape), shape, bound, p) <==>
            exists q :: q in NestedSelects(shape) && q != shape && ref in Refs(q, p)
  {
    InNested(NestedSelects(shape), shape, bound, p, ref);
    if ref in NestedRefs(NestedSelects(shape), shape, bound, p) {
      var q :| q in NestedSelects(shape) && InSubquery(shape, p, ref)(q);
    }
    if q :| q in NestedSelects(shape) && q != shape && ref in Refs(q, p) {
      assert InSubquery(shape, p, ref)(q);
    }
  }

  /** Where a reference is found: behind a JOIN, in a FROM clause or in a subquery. */
  lemma ThreePlaces(sql: string, shape: string, p: Patterns, ref: string)
    requires shape == Shape(sql) && Shorter(FromClauses(shape), |sql|) && Shorter(NestedSelects(shape), |sql|)
    ensures ref in Refs(sql, p) <==>
      || ref in p.joined(shape) || ref in ClauseRefs(FromClauses(shape), |sql|, p)
      || ref in NestedRefs(NestedSelects(shape), shape, |sql|, p)
  {
  }

  /** One level of the collection. */
  lemma RefsStep(sql: string, p: Patterns, ref: string)
    ensures ref in Refs(sql, p) <==> Names(sql, p, ref) || exists inner :: Opens(sql, inner) && ref in Refs(inner, p)
  {
    var shape := Shape(sql);
    ShapesAreShorter(shape);
    ClausesContribute(shape, |sql|, p, ref);
    ItemsContribute(sql, shape, p, ref);
    SubqueriesContribute(shape, |sql|, p, ref);
    ThreePlaces(sql, shape, p, ref);
    if inner :| FromItem(shape, "(" + inner) && ref in Refs(inner, p) {
      assert Opens(sql, inner);
    }
    if q :| q in NestedSelects(shape) && q != shape && ref in Refs(q, p) {
      assert Opens(sql, q);
    }
  }

  /** The references of a query are exactly those named in a text it reads. */
  lemma {:induction false} RefsAreNamed(sql: string, p: Patterns, ref: string)
    ensures ref in Refs(sql, p) <==> exists text :: Reads(sql, text) && Names(text, p, ref)
    decreases |sql|
  {
    RefsStep(sql, p, ref);
    forall inner | Opens(sql, inner)
      ensures |inner| < |sql| && (ref in Refs(inner, p) <==> exists text :: Reads(inner, text) && Names(text, p, ref))
    {
      OpensShorter(sql, inner);
      RefsAreNamed(inner, p, ref);
    }
    if ref in Refs(sql, p) && !Names(sql, p, ref) {
      var inner :| Opens(sql, inner) && ref in Refs(inner, p);
      var text :| Reads(inner, text) && Names(text, p, ref);
      assert Reads(sql, text);
    }
    if Names(sql, p, ref) {
      assert Reads(sql, sql);
    }
  }

  // --- the loops ------------------------------------------------------------------------------------------

  /** The code's loops, recursing on the parts found. */
  method ExtractTableRefs(sql: string, p: Patterns) returns (refs: set<string>)
    ensures refs == Refs(sql, p)
    ensures forall ref :: ref in refs <==> exists text :: Reads(sql, text) && Names(text, p, ref)
    decreases |sql|, 3
  {
    var blanked := Stringless(sql);
    var lowered := Lower(blanked);
    ShapesAreShorter(lowered);
    var clauses := TopLevelFromClauses(lowered);
    var fromRefs := ExtractClauses(clauses, |sql|, p);
    var nested := FindNestedSelects(lowered);
    var nestedRefs := ExtractNested(nested, lowered, |sql|, p);
    refs := p.joined(lowered) + fromRefs + nestedRefs;
    forall ref ensures ref in refs <==> exists text :: Reads(sql, text) && Names(text, p, ref) {
      RefsAreNamed(sql, p, ref);
    }
  }

  method ExtractClauses(clauses: seq<string>, bound: nat, p: Patterns) returns (refs: set<string>)
    requires Shorter(clauses, bound)
    ensures refs == ClauseRefs(clauses, bound, p)
    decreases bound, 2
  {
    refs := {};
    for k := 0 to |clauses|
      invariant refs + ClauseRefs(clauses[k..], bound, p) == ClauseRefs(clauses, bound, p)
    {
      assert clauses[k] in clauses;
      assert clauses[k..][0] == clauses[k] && clauses[k..][1..] == clauses[k + 1..];
      var found := ExtractFromClause(clauses[k], bound, p);
      refs := refs + found;
    }
    assert clauses[|clauses|..] == [];
  }

  method ExtractNested(nested: seq<string>, lowered: string, bound: nat, p: Patterns) returns (refs: set<string>)
    requires Shorter(nested, bound)
    ensures refs == NestedRefs(nested, lowered, bound, p)
    decreases bound, 2
  {
    refs := {};
    for k := 0 to |nested|
      invariant refs + NestedRefs(nested[k..], lowered, bound, p) == NestedRefs(nested, lowered, bound, p)
    {
      assert nested[k] in nested;
      assert nested[k..][0] == nested[k] && nested[k..][1..] == nested[k + 1..];
      if nested[k] != lowered {
        var found := ExtractTableRefs(nested[k], p);
        refs := refs + found;
      }
    }
    assert nested[|nested|..] == [];
  }

  /** The items of one FROM clause. */
  method ExtractFromClause(clause: string, bound: nat, p: Patterns) returns (refs: set<string>)
    requires |clause| < bound
    ensures Shorter(Split(clause), bound) && refs == ItemRefs(Split(clause), bound, p)
    decreases bound, 1
  {
    SplitIsShorter(clause, bound);
    var items := SplitTopLevelCommas(clause);
    refs := {};
    for k := 0 to |items|
      invariant refs + ItemRefs(items[k..], bound, p) == ItemRefs(items, bound, p)
    {
      assert items[k] in items;
      assert items[k..][0] == items[k] && items[k..][1..] == items[k + 1..];
      var found := ExtractItem(items[k], bound, p);
      refs := refs + found;
    }
    assert items[|items|..] == [];
  }

  method ExtractItem(text: string, bound: nat, p: Patterns) returns (refs: set<string>)
    requires |text| < bound
    ensures refs == ItemRef(text, bound, p)
    decreases bound, 0
  {
    var item := Strip(text);
    if item == "" {
      return {};
    }
    if item[0] == '(' {
      refs := ExtractTableRefs(item[1..], p);
    } else {
      refs := p.item(item);
    }
  }
}
