/**
 Grouping embedding inputs under an item budget and a character budget. The greedy loop
 is proved to use the fewest batches any contiguous grouping within the budgets can use.
 */
module EmbeddingBatches {
  import opened Wrappers

  /** An input is the length of its text, or nothing when the text is not a string. */
  datatype Input = Input(id: int, chars: Option<nat>)

  datatype BatchError = ItemBudgetNotPositive | CharBudgetTooSmall | TextNotString | InputTooLong

  function Chars(item: Input): nat {
    if item.chars.Some? then item.chars.value else 0
  }

  function Size(items: seq<Input>): nat {
    if items == [] then 0 else Size(items[..|items| - 1]) + Chars(items[|items| - 1])
  }

  function Concat(batches: seq<seq<Input>>): seq<Input> {
    if batches == [] then [] else Concat(batches[..|batches| - 1]) + batches[|batches| - 1]
  }

  ghost predicate Fits(batch: seq<Input>, maxItems: int, maxChars: int) {
    0 < |batch| <= maxItems && Size(batch) <= maxChars
  }

  /** A contiguous grouping of the inputs within both budgets. */
  ghost predicate Grouping(batches: seq<seq<Input>>, inputs: seq<Input>, maxItems: int, maxChars: int) {
    && Concat(batches) == inputs
    && forall k :: 0 <= k < |batches| ==> Fits(batches[k], maxItems, maxChars)
  }

  /** A batch was closed only because the next input did not fit. */
  ghost predicate ClosedWhenFull(batches: seq<seq<Input>>, maxItems: int, maxChars: int) {
    forall k, l :: 0 <= k && l == k + 1 < |batches| ==>
      batches[l] != [] && !Fits(batches[k] + [batches[l][0]], maxItems, maxChars)
  }

  ghost predicate Batchable(inputs: seq<Input>, maxChars: int) {
    forall i :: 0 <= i < |inputs| ==> inputs[i].chars.Some? && inputs[i].chars.value <= maxChars
  }

  /** The batches closed so far together with the open one. */
  function Whole(batches: seq<seq<Input>>, current: seq<Input>): seq<seq<Input>> {
    if current == [] then batches else batches + [current]
  }

  /** The grouping the loop has built for the inputs read so far. */
  ghost predicate Greedy(batches: seq<seq<Input>>, inputs: seq<Input>, maxItems: int, maxChars: int) {
    Grouping(batches, inputs, maxItems, maxChars) && ClosedWhenFull(batches, maxItems, maxChars)
  }

  lemma SizeOfMore(items: seq<Input>, item: Input)
    ensures Size(items + [item]) == Size(items) + Chars(item)
  {
    assert (items + [item])[..|items|] == items;
  }

  /** The size of a batch adds up the lengths of its texts. */
  lemma {:induction false} SizeAdds(a: seq<Input>, b: seq<Input>)
    ensures Size([]) == 0 && forall item: Input :: item.chars.Some? ==> Size([item]) == item.chars.value
    ensures Size(a + b) == Size(a) + Size(b)
    decreases |b|
  {
    forall item: Input | item.chars.Some? ensures Size([item]) == item.chars.value {
      assert [item][..0] == [];
    }
    if b == [] {
      assert a + b == a;
    } else {
      assert (a + b)[..|a + b| - 1] == a + b[..|b| - 1];
      SizeAdds(a, b[..|b| - 1]);
    }
  }

  lemma ConcatMore(batches: seq<seq<Input>>, batch: seq<Input>)
    ensures Concat(batches + [batch]) == Concat(batches) + batch
  {
    assert (batches + [batch])[..|batches|] == batches;
  }

  /** The next input opens a new batch because the last one has no room for it. */
  lemma OpenNext(whole: seq<seq<Input>>, inputs: seq<Input>, item: Input, maxItems: int, maxChars: int)
    requires Greedy(whole, inputs, maxItems, maxChars)
    requires 1 <= maxItems && Chars(item) <= maxChars
    requires whole != [] ==> !Fits(whole[|whole| - 1] + [item], maxItems, maxChars)
    ensures Greedy(whole + [[item]], inputs + [item], maxItems, maxChars)
  {
    ConcatMore(whole, [item]);
    SizeOfMore([], item);
    assert [] + [item] == [item];
    var now := whole + [[item]];
    forall k, l | 0 <= k && l == k + 1 < |now|
      ensures now[l] != [] && !Fits(now[k] + [now[l][0]], maxItems, maxChars)
    {
      if l < |whole| {
        assert whole[l] != [] && !Fits(whole[k] + [whole[l][0]], maxItems, maxChars);
      }
    }
  }

  /** The next input joins the open batch. */
  lemma Grow(batches: seq<seq<Input>>, current: seq<Input>, inputs: seq<Input>, item: Input, maxItems: int, maxChars: int)
    requires current != [] && Greedy(batches + [current], inputs, maxItems, maxChars)
    requires Fits(current + [item], maxItems, maxChars)
    ensures Greedy(batches + [current + [item]], inputs + [item], maxItems, maxChars)
  {
    ConcatMore(batches, current);
    ConcatMore(batches, current + [item]);
    var now, was := batches + [current + [item]], batches + [current];
    forall k, l | 0 <= k && l == k + 1 < |now|
      ensures now[l] != [] && !Fits(now[k] + [now[l][0]], maxItems, maxChars)
    {
      assert now[k] == was[k] && now[l][0] == was[l][0];
    }
  }

  /** One turn of the loop keeps the grouping greedy. */
  lemma Turn(batches: seq<seq<Input>>, current: seq<Input>, inputs: seq<Input>, item: Input, maxItems: int, maxChars: int)
    requires Greedy(Whole(batches, current), inputs, maxItems, maxChars)
    requires 1 <= maxItems && Chars(item) <= maxChars && (current == [] ==> batches == [])
    ensures if current != [] && (|current| >= maxItems || Size(current) + Chars(item) > maxChars)
            then Greedy(batches + [current] + [[item]], inputs + [item], maxItems, maxChars)
            else Greedy(batches + [current + [item]], inputs + [item], maxItems, maxChars)
  {
    SizeOfMore(current, item);
    if current == [] {
      OpenNext([], inputs, item, maxItems, maxChars);
      assert [] + [[item]] == batches + [current + [item]];
    } else if |current| >= maxItems || Size(current) + Chars(item) > maxChars {
      OpenNext(batches + [current], inputs, item, maxItems, maxChars);
    } else {
      Grow(batches, current, inputs, item, maxItems, maxChars);
    }
  }

  method Batch(inputs: seq<Input>, maxItems: int, maxChars: int) returns (r: Result<seq<seq<Input>>, BatchError>)
    ensures r.Ok? <==> maxItems >= 1 && maxChars >= 512 && Batchable(inputs, maxChars)
    ensures r.Ok? ==> Greedy(r.value, inputs, maxItems, maxChars)
    ensures r.Ok? ==> forall other :: Grouping(other, inputs, maxItems, maxChars) ==> |r.value| <= |other|
    ensures r == Err(ItemBudgetNotPositive) <==> maxItems < 1
    ensures r == Err(CharBudgetTooSmall) <==> maxItems >= 1 && maxChars < 512
  {
    if maxItems < 1 {
      return Err(ItemBudgetNotPositive);
    }
    if maxChars < 512 {
      return Err(CharBudgetTooSmall);
    }
    var batches: seq<seq<Input>> := [];
    var current: seq<Input> := [];
    var currentChars := 0;
    for i := 0 to |inputs|
      invariant Batchable(inputs[..i], maxChars)
      invariant Greedy(Whole(batches, current), inputs[..i], maxItems, maxChars)
      invariant current == [] ==> batches == []
      invariant currentChars == Size(current)
    {
      var item := inputs[i];
      if item.chars.None? {
        return Err(TextNotString);
      }
      var textChars := item.chars.value;
      if textChars > maxChars {
        return Err(InputTooLong);
      }
      assert inputs[..i + 1] == inputs[..i] + [item];
      Turn(batches, current, inputs[..i], item, maxItems, maxChars);
      if current != [] && (|current| >= maxItems || currentChars + textChars > maxChars) {
        batches := batches + [current];
        current := [];
        currentChars := 0;
      }
      SizeOfMore(current, item);
      assert [] + [item] == [item];
      current := current + [item];
      currentChars := currentChars + textChars;
    }
    assert inputs[..|inputs|] == inputs;
    if current != [] {
      batches := batches + [current];
    }
    forall other | Grouping(other, inputs, maxItems, maxChars) ensures |batches| <= |other| {
      GreedyIsMinimal(batches, other, inputs, maxItems, maxChars);
    }
    return Ok(batches);
  }

  // --- why no other grouping is shorter ---------------------------------------------------

  lemma {:induction false} SizeOfConcat(a: seq<Input>, b: seq<Input>)
    ensures Size(a + b) == Size(a) + Size(b)
  {
    if b == [] {
      assert a + b == a;
    } else {
      SizeOfConcat(a, b[..|b| - 1]);
      assert (a + b)[..|a + b| - 1] == a + b[..|b| - 1];
    }
  }

  /** Where the k-th batch ends in the list of inputs. */
  ghost function End(batches: seq<seq<Input>>, k: nat): nat
    requires k <= |batches|
  {
    |Concat(batches[..k])|
  }

  lemma {:induction false} BatchIsSlice(batches: seq<seq<Input>>, k: nat)
    requires k < |batches|
    ensures End(batches, k + 1) == End(batches, k) + |batches[k]| <= |Concat(batches)|
    ensures batches[k] == Concat(batches)[End(batches, k)..End(batches, k + 1)]
    decreases |batches|
  {
    assert batches[..k + 1][..k] == batches[..k];
    if k == |batches| - 1 {
      assert batches[..k + 1] == batches;
    } else {
      var init := batches[..|batches| - 1];
      assert init[..k] == batches[..k] && init[..k + 1] == batches[..k + 1];
      BatchIsSlice(init, k);
    }
  }

  lemma SliceFits(inputs: seq<Input>, a: nat, b: nat, c: nat, d: nat, maxItems: int, maxChars: int)
    requires a <= b < c <= d <= |inputs| && Fits(inputs[a..d], maxItems, maxChars)
    ensures Fits(inputs[b..c], maxItems, maxChars)
  {
    assert inputs[a..d] == inputs[a..b] + inputs[b..c] + inputs[c..d];
    SizeOfConcat(inputs[a..b] + inputs[b..c], inputs[c..d]);
    SizeOfConcat(inputs[a..b], inputs[b..c]);
  }

  /** Greedy stays ahead: after k batches no grouping has consumed more inputs. */
  lemma {:induction false} StaysAhead(
      greedy: seq<seq<Input>>, other: seq<seq<Input>>, inputs: seq<Input>, maxItems: int, maxChars: int, k: nat)
    requires Greedy(greedy, inputs, maxItems, maxChars)
    requires Grouping(other, inputs, maxItems, maxChars)
    requires k <= |greedy| && k <= |other|
    ensures End(other, k) <= End(greedy, k)
  {
    if k > 0 {
      StaysAhead(greedy, other, inputs, maxItems, maxChars, k - 1);
      BatchIsSlice(greedy, k - 1);
      BatchIsSlice(other, k - 1);
      if k == |greedy| {
        assert greedy[..k] == greedy;
      } else {
        NotPastTheClosingItem(greedy, inputs, End(other, k - 1), End(other, k), maxItems, maxChars, k);
      }
    }
  }

  lemma SliceAndNext(inputs: seq<Input>, a: nat, b: nat, c: nat)
    requires a <= b < c <= |inputs|
    ensures inputs[a..b + 1] == inputs[a..b] + [inputs[b..c][0]]
  {
  }

  /** A closed batch and the item that closed it, as a slice that no longer fits. */
  lemma ClosingSlice(greedy: seq<seq<Input>>, inputs: seq<Input>, maxItems: int, maxChars: int, k: nat)
    requires Greedy(greedy, inputs, maxItems, maxChars) && 0 < k < |greedy|
    ensures End(greedy, k - 1) <= End(greedy, k) < |inputs| && !Fits(inputs[End(greedy, k - 1)..End(greedy, k) + 1], maxItems, maxChars)
  {
    BatchIsSlice(greedy, k - 1);
    BatchIsSlice(greedy, k);
    assert greedy[k] != [] && !Fits(greedy[k - 1] + [greedy[k][0]], maxItems, maxChars);
    SliceAndNext(inputs, End(greedy, k - 1), End(greedy, k), End(greedy, k + 1));
  }

  /** A slice that starts no later than a closed batch and fits the budgets ends no later. */
  lemma NotPastTheClosingItem(
      greedy: seq<seq<Input>>, inputs: seq<Input>, a: nat, d: nat, maxItems: int, maxChars: int, k: nat)
    requires Greedy(greedy, inputs, maxItems, maxChars)
    requires 0 < k < |greedy| && a <= End(greedy, k - 1) && a <= d <= |inputs|
    requires Fits(inputs[a..d], maxItems, maxChars)
    ensures d <= End(greedy, k)
  {
    var s, e := End(greedy, k - 1), End(greedy, k);
    ClosingSlice(greedy, inputs, maxItems, maxChars, k);
    if d > e {
      SliceFits(inputs, a, s, e + 1, d, maxItems, maxChars);
    }
  }

  lemma GreedyIsMinimal(greedy: seq<seq<Input>>, other: seq<seq<Input>>, inputs: seq<Input>, maxItems: int, maxChars: int)
    requires Greedy(greedy, inputs, maxItems, maxChars)
    requires Grouping(other, inputs, maxItems, maxChars)
    ensures |greedy| <= |other|
  {
    if |other| < |greedy| {
      StaysAhead(greedy, other, inputs, maxItems, maxChars, |other|);
      assert other[..|other|] == other;
      BatchIsSlice(greedy, |other|);
    }
  }

  /** There is exactly one grouping closed only when full, so the batches are determined. */
  lemma {:induction false} GreedyIsUnique(
      a: seq<seq<Input>>, b: seq<seq<Input>>, inputs: seq<Input>, maxItems: int, maxChars: int)
    requires Greedy(a, inputs, maxItems, maxChars)
    requires Greedy(b, inputs, maxItems, maxChars)
    ensures a == b
  {
    GreedyIsMinimal(a, b, inputs, maxItems, maxChars);
    GreedyIsMinimal(b, a, inputs, maxItems, maxChars);
    forall k | 0 <= k < |a| ensures a[k] == b[k] {
      StaysAhead(a, b, inputs, maxItems, maxChars, k);
      StaysAhead(b, a, inputs, maxItems, maxChars, k);
      StaysAhead(a, b, inputs, maxItems, maxChars, k + 1);
      StaysAhead(b, a, inputs, maxItems, maxChars, k + 1);
      BatchIsSlice(a, k);
      BatchIsSlice(b, k);
    }
  }
}
