/** The runtime routines every generated program carries: `generateRange`,
    which orients a range's step towards its end, and `applyFunction`, which
    advances a mutable range (a stream cell) by applying a function to
    successive points of its timestep range.  The function applied is a
    parameter: whatever the generated program defines. */
module Runtime {
  import opened Util

  /** What `generateRange` returns. */
  datatype TimestepRange = TimestepRange(start: int, end: int, step: int)

  /** What a user function may return: one value, or an array, which the
      runtime stores as its elements joined by spaces. */
  datatype Value = Scalar(text: string) | Array(items: seq<string>)

  function Stored(v: Value): string {
    match v
    case Scalar(t) => t
    case Array(items) => Join(items, " ")
  }

  /** `generateRange`: keeps start and end, and flips the step's sign exactly
      when the range runs downwards, so a positive step points from start
      towards end. */
  function GenerateRange(start: int, end: int, step: int): (r: TimestepRange)
    ensures r.start == start && r.end == end
    ensures r.step == step || r.step == -step
    ensures step > 0 ==> (r.step > 0 <==> start <= end)
    ensures step < 0 ==> (r.step < 0 <==> start <= end)
  {
    TimestepRange(start, end, if end < start then -step else step)
  }

  /** The k-th point of a range. */
  function Point(r: TimestepRange, k: int): int { r.start + r.step * k }

  lemma PointNext(r: TimestepRange, k: int)
    ensures Point(r, k + 1) == Point(r, k) + r.step
  {
    assert r.step * (k + 1) == r.step * k + r.step;
  }

  /** Whether a point has not yet passed the end, in the direction of the step. */
  predicate InRange(r: TimestepRange, x: int) {
    if r.step > 0 then x <= r.end else x >= r.end
  }

  /** The values the loop of `applyFunction` appends, starting at the k-th
      point with the given iteration budget. */
  function Run(f: int -> Value, r: TimestepRange, k: int, iterations: int): (vs: seq<string>)
    ensures |vs| <= if iterations > 0 then iterations else 0
    decreases iterations
  {
    if iterations > 0 && InRange(r, Point(r, k)) then [Stored(f(Point(r, k)))] + Run(f, r, k + 1, iterations - 1)
    else []
  }

  /** One turn of the loop: the value at the current point, then the rest. */
  lemma RunStep(f: int -> Value, r: TimestepRange, k: int, iterations: int)
    requires iterations > 0 && InRange(r, Point(r, k))
    ensures Run(f, r, k, iterations) == [Stored(f(Point(r, k)))] + Run(f, r, k + 1, iterations - 1)
  {
  }

  /** The loop appends nothing once the budget is spent or the end is passed. */
  lemma RunDone(f: int -> Value, r: TimestepRange, k: int, iterations: int)
    requires !(iterations > 0 && InRange(r, Point(r, k)))
    ensures Run(f, r, k, iterations) == []
  {
  }

  /** All values one `applyFunction` call appends: on an empty cell first the
      value at the current point, unconditionally, then the loop's values. */
  function Appended(f: int -> Value, r: TimestepRange, size: int, index: int, iterations: int): seq<string> {
    if size == 0 then [Stored(f(Point(r, index + 1)))] + Run(f, r, index + 2, iterations)
    else Run(f, r, index + 1, iterations)
  }

  /** A mutable range: its timestep range, the values computed so far, the
      index of the current value and the number of values. */
  class MutableRange {
    var timestepRange: TimestepRange
    var values: seq<string>
    var index: int
    var size: int

    /** `initializeMutableRange`: an empty cell over the given range. */
    constructor(timestepRange: TimestepRange)
      ensures this.timestepRange == timestepRange
      ensures values == [] && index == -1 && size == 0
      ensures Valid()
    {
      this.timestepRange := timestepRange;
      values := [];
      index := -1;
      size := 0;
    }

    /** The current value is the last one, and the size counts the values. */
    predicate Valid()
      reads this
    {
      index == size - 1 && size == |values|
    }

    /** `applyFunction(gen, iterations, f)`: on an empty cell computes the
        value at the current point first, then steps while the budget lasts and
        the end is not passed. */
    method ApplyFunction(iterations: int, f: int -> Value)
      modifies this
      ensures timestepRange == old(timestepRange)
      ensures values == old(values) + Appended(f, timestepRange, old(size), old(index), iterations)
      ensures size - old(size) == index - old(index) == |values| - |old(values)|
      ensures old(Valid()) ==> Valid()
    {
      var currentVal := timestepRange.start + timestepRange.step * (index + 1);
      if size == 0 {
        size := size + 1;
        index := index + 1;
        var result := f(currentVal);
        values := values + [Stored(result)];
        PointNext(timestepRange, index);
        currentVal := currentVal + timestepRange.step;
      }
      Step(currentVal, iterations, f);
    }

    /** The stepping loop of `applyFunction`, from the current point on. */
    method Step(currentVal: int, iterations: int, f: int -> Value)
      requires currentVal == Point(timestepRange, index + 1)
      modifies this
      ensures timestepRange == old(timestepRange)
      ensures values == old(values) + Run(f, timestepRange, old(index) + 1, iterations)
      ensures size - old(size) == index - old(index) == |values| - |old(values)|
    {
      ghost var r := timestepRange;
      ghost var k := index + 1;
      ghost var produced: seq<string> := [];
      var currentVal := currentVal;
      var remaining := iterations;
      while InRange(timestepRange, currentVal) && remaining > 0
        invariant timestepRange == r
        invariant currentVal == Point(r, index + 1)
        invariant values == old(values) + produced
        invariant produced + Run(f, r, index + 1, remaining) == Run(f, r, k, iterations)
        invariant size - old(size) == index - old(index) == |produced|
        decreases remaining
      {
        RunStep(f, r, index + 1, remaining);
        size := size + 1;
        index := index + 1;
        var result := f(currentVal);
        values := values + [Stored(result)];
        ConcatStep(produced, Stored(result), Run(f, r, index + 1, remaining - 1));
        produced := produced + [Stored(result)];
        PointNext(r, index);
        currentVal := currentVal + timestepRange.step;
        remaining := remaining - 1;
      }
      RunDone(f, r, index + 1, remaining);
      assert produced + [] == produced;
    }
  }

  lemma ConcatStep(produced: seq<string>, x: string, rest: seq<string>)
    ensures (produced + [x]) + rest == produced + ([x] + rest)
  {
  }

  // ---------------------------------------------------------------------------
  // Properties of the loop

  /** The j-th value appended is f at the (k+j)-th point, and that point had
      not passed the end. */
  lemma {:induction false} RunValues(f: int -> Value, r: TimestepRange, k: int, iterations: int, j: nat)
    requires j < |Run(f, r, k, iterations)|
    ensures InRange(r, Point(r, k + j))
    ensures Run(f, r, k, iterations)[j] == Stored(f(Point(r, k + j)))
    decreases iterations
  {
    if j > 0 {
      RunValues(f, r, k + 1, iterations - 1, j - 1);
    }
  }

  /** The loop stops only when the budget is spent or the next point has
      passed the end. */
  lemma {:induction false} RunStops(f: int -> Value, r: TimestepRange, k: int, iterations: int)
    ensures var n := |Run(f, r, k, iterations)|;
      n == (if iterations > 0 then iterations else 0) || !InRange(r, Point(r, k + n))
    decreases iterations
  {
    if iterations > 0 && InRange(r, Point(r, k)) {
      RunStops(f, r, k + 1, iterations - 1);
    }
  }

  /** Over a range built by `generateRange` with a positive step, every point
      the loop visits from the start onwards lies between start and end. */
  lemma GeneratedRangeStaysBetween(f: int -> Value, start: int, end: int, step: int, k: nat, iterations: int, j: nat)
    requires step > 0
    requires j < |Run(f, GenerateRange(start, end, step), k, iterations)|
    ensures var x := Point(GenerateRange(start, end, step), k + j);
      if start <= end then start <= x <= end else end <= x <= start
  {
    var r := GenerateRange(start, end, step);
    RunValues(f, r, k, iterations, j);
    var x := Point(r, k + j);
    if start <= end {
      assert r.step == step;
      assert x == start + step * (k + j);
    } else {
      assert r.step == -step;
      assert x == start - step * (k + j);
    }
  }

  /** A call on a valid cell appends at most the budget plus the priming value,
      and the current value is the last one appended. */
  lemma AppendedBound(f: int -> Value, r: TimestepRange, size: int, index: int, iterations: int)
    ensures |Appended(f, r, size, index, iterations)| <= (if iterations > 0 then iterations else 0) + (if size == 0 then 1 else 0)
  {
  }

  /** On an empty cell the first value appended is f at the range's start. */
  lemma PrimingUsesStart(f: int -> Value, r: TimestepRange, iterations: int)
    ensures Appended(f, r, 0, -1, iterations)[0] == Stored(f(r.start))
  {
  }
}
