/** Model of median.py: MovingMedian, a streaming median estimate kept in two
    fields, the current estimate and a step size that only ever shrinks. */
module Median {

  /** sys.maxint on a 64-bit CPython 2 build: the initial step size. */
  const MaxInt: real := 9223372036854775807.0

  function Abs(x: real): real { if x < 0.0 then -x else x }

  /** The estimator's two fields as a value: the estimate and the step size
      (the field __index of the source). */
  datatype Estimate = Estimate(median: real, step: real)

  /** The state before any item has been added. */
  function Initial(): (e: Estimate)
    ensures e.median == 0.0 && e.step == MaxInt && e.step > 0.0
  {
    Estimate(0.0, MaxInt)
  }

  /** What one call of add does to the two fields. */
  function Next(e: Estimate, item: real): (r: Estimate)
    requires e.step > 0.0
    // the step size never grows and stays strictly positive
    ensures 0.0 < r.step <= e.step
    // it shrinks exactly when the item is nearer than one step (and not at the estimate),
    // and then it becomes that distance
    ensures r.step < e.step <==> 0.0 < Abs(item - e.median) < e.step
    ensures r.step < e.step ==> r.step == Abs(item - e.median)
    // the estimate moves by exactly one (new) step, upwards only for a larger item
    ensures item > e.median ==> r.median == e.median + r.step
    ensures item <= e.median ==> r.median == e.median - r.step
    // an item nearer than one step, but not at the estimate, is landed on exactly
    ensures 0.0 < Abs(item - e.median) < e.step ==> r.median == item
  {
    var diff := Abs(item - e.median);
    var step := if diff < e.step && diff != 0.0 then diff else e.step;
    Estimate(if item > e.median then e.median + step else e.median - step, step)
  }

  /** The state after a whole stream of items has been added, in order. */
  function Feed(e: Estimate, items: seq<real>): (r: Estimate)
    requires e.step > 0.0
    ensures 0.0 < r.step <= e.step
    decreases |items|
  {
    if items == [] then e else Feed(Next(e, items[0]), items[1..])
  }

  /** Feeding two streams one after the other is feeding their concatenation. */
  lemma {:induction false} FeedAppend(e: Estimate, xs: seq<real>, ys: seq<real>)
    requires e.step > 0.0
    ensures Feed(e, xs + ys) == Feed(Feed(e, xs), ys)
    decreases |xs|
  {
    if xs == [] {
      assert xs + ys == ys;
    } else {
      assert (xs + ys)[0] == xs[0];
      assert (xs + ys)[1..] == xs[1..] + ys;
      FeedAppend(Next(e, xs[0]), xs[1..], ys);
    }
  }

  /** Once the step size has shrunk below the initial one, it stays there:
      no stream of items brings it back. */
  lemma {:induction false} StepNeverRecovers(xs: seq<real>, ys: seq<real>)
    requires Feed(Initial(), xs).step < MaxInt
    ensures Feed(Initial(), xs + ys).step < MaxInt
  {
    FeedAppend(Initial(), xs, ys);
  }

  class MovingMedian {
    var median: real
    var index: real

    ghost predicate Valid()
      reads this
    {
      index > 0.0
    }

    ghost function State(): Estimate
      reads this
    {
      Estimate(median, index)
    }

    constructor ()
      ensures Valid()
      ensures median == 0.0 && index == MaxInt
      ensures State() == Initial()
    {
      median := 0.0;
      index := MaxInt;
    }

    /** Takes one item into the estimate and returns the step size now stored. */
    method Add(item: real) returns (step: real)
      requires Valid()
      modifies this
      ensures Valid()
      ensures State() == Next(old(State()), item)
      ensures step == index
      ensures index <= old(index)
      ensures item > old(median) ==> median == old(median) + index
      ensures item <= old(median) ==> median == old(median) - index
      ensures 0.0 < Abs(item - old(median)) < old(index) ==> median == item
    {
      if Abs(item - median) < index {
        if Abs(item - median) != 0.0 {
          index := Abs(item - median);
        }
      }
      if item > median {
        median := median + index;
      } else {
        median := median - index;
      }
      step := index;
    }
  }
}
