/** The package's own usage scenarios, stated for every completion order
    except in `GatherPairsInInputOrder`, which fixes the input order. The
    scenarios are:
    - four animal names gathered through a batch function that prefixes each
      name with "my ", with batch sizes larger than, equal to and smaller than
      the input;
    - a negative batch size;
    - a batch function that always fails. */
module Scenarios {
  import opened Outcomes
  import opened Sequences
  import opened Executor
  import opened Partitioner

  const Animals: seq<string> := ["bird", "cat", "dog", "fish"]

  /** The results the scenarios expect, in sorted order. */
  const Prefixed: seq<string> := ["my bird", "my cat", "my dog", "my fish"]

  function Prefix(s: string): string
  {
    "my " + s
  }

  /** The batch function of the scenarios: prefix every name of the batch. */
  function PrefixAll(batch: seq<string>): Outcome<string, string>
  {
    Ok(MapSeq(Prefix, batch))
  }

  /** Prefixing the animals gives the expected results. */
  lemma PrefixedAnimals()
    ensures MapSeq(Prefix, Animals) == Prefixed
  {
    var m := MapSeq(Prefix, Animals);
    assert m[0] == Prefix("bird") == "my bird";
    assert m[1] == Prefix("cat") == "my cat";
    assert m[2] == Prefix("dog") == "my dog";
    assert m[3] == Prefix("fish") == "my fish";
  }

  /** A batch size larger than the input gives one batch holding all of it. */
  lemma OneBatchWhenLarger()
    ensures Batches(Animals, 5) == [Animals]
  {
    assert CeilDiv(4, 5) == 1;
    assert Batches(Animals, 5)[0] == Animals[0..4] == Animals;
  }

  /** A batch size equal to the input gives one batch holding all of it. */
  lemma OneBatchWhenEqual()
    ensures Batches(Animals, 4) == [Animals]
  {
    assert CeilDiv(4, 4) == 1;
    assert Batches(Animals, 4)[0] == Animals[0..4] == Animals;
  }

  /** A batch size of two cuts the animals into two pairs. */
  lemma TwoPairs()
    ensures Batches(Animals, 2) == [["bird", "cat"], ["dog", "fish"]]
  {
    assert CeilDiv(4, 2) == 2;
    assert Offset(1, 2) == 2;
    assert Batches(Animals, 2)[0] == ["bird", "cat"];
    assert Batches(Animals, 2)[1] == ["dog", "fish"];
  }

  /** Batch sizes 5, 4 and 2 all gather the four prefixed names, whatever
      the order in which the batches complete; the results agree with the
      expected ones once both are sorted, i.e. as multisets. */
  lemma GatherPrefixed(batchSize: int, order: seq<nat>)
    requires batchSize == 5 || batchSize == 4 || batchSize == 2
    requires IsPermutation(order, CeilDiv(|Animals|, batchSize))
    ensures ScattergatherWithInputParams(Animals, batchSize, PrefixAll, order).Ok?
    ensures multiset(ScattergatherWithInputParams(Animals, batchSize, PrefixAll, order).values) == multiset(Prefixed)
  {
    PerItemMapGathersAll(Animals, batchSize, PrefixAll, Prefix, order);
    PrefixedAnimals();
  }

  /** When the two pairs complete in input order, the results come back in
      input order too. */
  lemma GatherPairsInInputOrder()
    ensures IsPermutation([0, 1], CeilDiv(|Animals|, 2))
    ensures ScattergatherWithInputParams(Animals, 2, PrefixAll, [0, 1]) == Ok(Prefixed)
  {
    assert CeilDiv(4, 2) == 2;
    assert Indices(2) == [0, 1];
    PerItemMapInInputOrder(Animals, 2, PrefixAll, Prefix, [0, 1]);
    PrefixedAnimals();
  }

  /** A batch size of -1 is rejected with the sentinel error and its text. */
  lemma NegativeBatchSize(fn: seq<string> -> Outcome<string, string>, order: seq<nat>)
    ensures ScattergatherWithInputParams(Animals, -1, fn, order) == Err(InvalidBatchSize)
    ensures Message(ScattergatherWithInputParams(Animals, -1, fn, order).error, e => e)
         == "batch size must be great than zero"
  {
  }

  /** A batch function that fails with `want` on every batch. */
  function FailWith(want: string, batch: seq<string>): Outcome<string, string>
  {
    Err(want)
  }

  /** A batch function that always fails with `want` makes the call fail
      with exactly `want`, whichever batch fails first. */
  lemma AlwaysFailing(want: string, order: seq<nat>)
    requires IsPermutation(order, CeilDiv(|Animals|, 2))
    ensures ScattergatherWithInputParams(Animals, 2, batch => FailWith(want, batch), order)
         == Err(UnitError(want))
  {
  }
}
