/** Sequence helpers after Python and NumPy (art/util.js): `sign`, `ord`,
    the `range` generator, `linspace`, `zip` and `clamp`. JavaScript numbers
    are modelled as exact reals; a generator becomes a method that returns
    the whole sequence of values it would yield, in order. */
module Util {
  import opened Wrappers

  /** `Math.sign` on a (non-NaN) number. */
  function Sign(x: real): int
  {
    if x < 0.0 then -1 else if x == 0.0 then 0 else 1
  }

  /** |x| on integers. */
  function Abs(n: int): nat
  {
    if n < 0 then -n else n
  }

  /** The least integer not below q. */
  function Ceil(q: real): int
  {
    -((-q).Floor)
  }

  lemma CeilBounds(q: real)
    ensures (Ceil(q) - 1) as real < q <= Ceil(q) as real
  {
  }

  /** For an integer i, i < q exactly when i < Ceil(q). */
  lemma BelowCeil(i: int, q: real)
    ensures (i as real) < q <==> i < Ceil(q)
  {
    CeilBounds(q);
  }

  /** `ord(a, b, c)`: true when a, b, c are in strictly monotone order, or all equal. */
  function Ord(a: real, b: real, c: real): (r: bool)
    ensures r <==> (a < b && b < c) || (a > b && b > c) || (a == b && b == c)
  {
    Sign(a - b) == Sign(b - c)
  }

  /** The (start, end, step) triple `range` settles on once its optional
      arguments are filled in: `range(n)` counts from 0 towards n in steps of
      sign(n), and `range(start, end)` steps by sign(end - start), or by 1
      when the two are equal. */
  function RangeArgs(start: real, end: Option<real>, step: Option<real>): (real, real, real)
  {
    match end
    case None => (0.0, start, Sign(start) as real)
    case Some(e) =>
      match step
      case None => (start, e, if Sign(e - start) == 0 then 1.0 else Sign(e - start) as real)
      case Some(s) => (start, e, s)
  }

  /** How many values `range` yields for a filled-in (start, end, step): none
      when start equals end or when the step does not point from start
      towards end, otherwise the ceiling of (end - start) / step. */
  function RangeLength(start: real, end: real, step: real): (n: nat)
    ensures n > 0 ==> start != end && step != 0.0
  {
    if start == end || Sign(end - start) != Sign(step) then 0
    else
      var n := Ceil((end - start) / step);
      CeilBounds((end - start) / step);
      if n < 0 then 0 else n
  }

  lemma PosDivCompare(x: real, d: real, step: real)
    requires step > 0.0
    ensures x * step < d <==> x < d / step
  {
    var q := d / step;
    assert q * step == d;
    if x < q {
      assert (q - x) * step > 0.0;
    } else {
      assert (x - q) * step >= 0.0;
    }
  }

  lemma NegDivCompare(x: real, d: real, step: real)
    requires step < 0.0
    ensures x * step > d <==> x < d / step
  {
    PosDivCompare(x, -d, -step);
    assert -d / -step == d / step;
    assert x * (-step) == -(x * step);
  }

  /** Past the first value, the generator's loop test `ord(start, start + i*step, end)`
      holds exactly while fewer than RangeLength values have been yielded. */
  lemma {:induction false} LoopTestCounts(start: real, end: real, step: real, i: int)
    requires start != end && Sign(end - start) == Sign(step)
    requires i >= 1
    ensures Ord(start, start + (i as real) * step, end) <==> i < RangeLength(start, end, step)
  {
    var q := (end - start) / step;
    var x := i as real;
    CeilBounds(q);
    BelowCeil(i, q);
    if step > 0.0 {
      assert q > 0.0;
      PosDivCompare(x, end - start, step);
      assert x * step > 0.0;
    } else {
      assert q > 0.0;
      NegDivCompare(x, end - start, step);
      assert x * step < 0.0;
    }
  }

  /** `range(start, end, step)` with the optional arguments given as Options
      (util.js:17-33). The k-th value yielded is start + k*step, for exactly
      RangeLength of the filled-in arguments values. */
  method Range(start0: real, end0: Option<real>, step0: Option<real>) returns (r: seq<real>)
    ensures var (start, end, step) := RangeArgs(start0, end0, step0);
      |r| == RangeLength(start, end, step) &&
      forall k :: 0 <= k < |r| ==> r[k] == start + (k as real) * step
  {
    var start, end, step := start0, 0.0, 0.0;
    if end0.None? {
      start, end, step := 0.0, start0, Sign(start0) as real;
    } else if step0.None? {
      end := end0.value;
      step := if Sign(end - start) == 0 then 1.0 else Sign(end - start) as real;
    } else {
      end, step := end0.value, step0.value;
      if Sign(end - start) != Sign(step) {
        return [];
      }
    }
    assert (start, end, step) == RangeArgs(start0, end0, step0);
    if start == end {
      return [];
    }
    r := Yield(start, end, step);
  }

  /** The do-while loop of `range` (util.js:27-32), entered once the
      arguments are known to describe a non-empty range. */
  method Yield(start: real, end: real, step: real) returns (r: seq<real>)
    requires start != end && Sign(end - start) == Sign(step)
    ensures |r| == RangeLength(start, end, step)
    ensures forall k :: 0 <= k < |r| ==> r[k] == start + (k as real) * step
  {
    ghost var n := RangeLength(start, end, step);
    LoopTestCounts(start, end, step, 1);
    r := [start];
    var i := 1;
    var more := Ord(start, start + (i as real) * step, end);
    while more
      invariant 1 <= i <= n
      invariant |r| == i
      invariant forall k :: 0 <= k < i ==> r[k] == start + (k as real) * step
      invariant more <==> i < n
      decreases n - i
    {
      r := r + [start + (i as real) * step];
      i := i + 1;
      LoopTestCounts(start, end, step, i);
      more := Ord(start, start + (i as real) * step, end);
    }
  }

  /** The end of a range is exclusive and the values stop at the first one
      that reaches it: every value yielded lies in [start, end) for a
      positive step and in (end, start] for a negative one, and the next
      value after the last would be at or past end. */
  lemma {:induction false} RangeExclusiveEnd(start: real, end: real, step: real, k: nat)
    requires 0 < RangeLength(start, end, step)
    requires k <= RangeLength(start, end, step)
    ensures var v := start + (k as real) * step;
      if k < RangeLength(start, end, step) then
        (step > 0.0 ==> start <= v < end) && (step < 0.0 ==> end < v <= start)
      else
        (step > 0.0 ==> end <= v) && (step < 0.0 ==> v <= end)
  {
    var v := start + (k as real) * step;
    if k == 0 {
      assert v == start;
    } else {
      LoopTestCounts(start, end, step, k);
      if step > 0.0 {
        assert (k as real) * step > 0.0;
      } else {
        assert (k as real) * step < 0.0;
      }
    }
  }

  /** `range(n)` with n > 0 counts 0, 1, ..., Ceil(n) - 1; `range(0)` is empty
      (util.js:18-19, 25). */
  lemma SingleArgumentRange(n: real)
    ensures n > 0.0 ==> RangeArgs(n, None, None) == (0.0, n, 1.0) && RangeLength(0.0, n, 1.0) == Ceil(n)
    ensures n == 0.0 ==> RangeLength(0.0, n, 0.0) == 0
  {
    if n > 0.0 {
      CeilBounds(n);
      assert (n - 0.0) / 1.0 == n;
    }
  }

  /** `range(start, end)` steps by +1 or -1 towards end (util.js:20-21), and
      for an integer distance yields exactly |end - start| values. */
  lemma {:induction false} TwoArgumentRange(start: real, end: real)
    ensures var (s, e, step) := RangeArgs(start, Some(end), None);
      s == start && e == end &&
      (start < end ==> step == 1.0) && (end < start ==> step == -1.0)
    ensures (end - start).Floor as real == end - start ==>
      var (s, e, step) := RangeArgs(start, Some(end), None);
      RangeLength(s, e, step) == Abs((end - start).Floor)
  {
    var (s, e, step) := RangeArgs(start, Some(end), None);
    var d := (end - start).Floor;
    if d as real == end - start && start != end {
      assert (end - start) / step == Abs(d) as real;
      assert Ceil(Abs(d) as real) == Abs(d);
    }
  }

  /** The divisor `linspace` uses for its step: num - 1 with the endpoint
      included, num without. */
  function LinspaceDivisor(num: real, endpoint: bool): real
  {
    if endpoint then num - 1.0 else num
  }

  /** The spacing of `linspace` (util.js:38). Where the divisor is 0 the
      generated range is empty (num == 0) or the call is excluded (num == 1
      with endpoint), so the value there is never used. */
  function LinspaceStep(start: real, stop: real, num: real, endpoint: bool): real
  {
    var d := LinspaceDivisor(num, endpoint);
    if d == 0.0 then 0.0 else (stop - start) / d
  }

  /** Value k of `linspace`: start plus k steps in the direction of num. */
  function LinspaceValue(start: real, stop: real, num: real, endpoint: bool, k: nat): real
  {
    start + (k as real) * (Sign(num) as real) * LinspaceStep(start, stop, num, endpoint)
  }

  /** `linspace(start, stop, num = 50, endpoint = true)` (util.js:37-42): one
      value per index `range(num)` yields, so ceil(|num|) values (num may be
      fractional, and counts down from 0 when negative), evenly spaced from
      start. For a whole num, with endpoint and num >= 2 the last value is
      stop, and without endpoint the last value is one step short of stop. */
  method Linspace(start: real, stop: real, num: real := 50.0, endpoint: bool := true) returns (r: seq<real>)
    requires !(endpoint && num == 1.0)
    ensures |r| == Ceil(if num < 0.0 then -num else num)
    ensures forall k :: 0 <= k < |r| ==> r[k] == LinspaceValue(start, stop, num, endpoint, k)
    ensures num != 0.0 ==> |r| > 0 && r[0] == start
    ensures num.Floor as real == num ==> |r| == Abs(num.Floor)
    ensures endpoint && num.Floor as real == num && num >= 2.0 ==> r[|r| - 1] == stop
    ensures !endpoint && num.Floor as real == num && num >= 1.0 ==>
      r[|r| - 1] + LinspaceStep(start, stop, num, endpoint) == stop
  {
    var step := LinspaceStep(start, stop, num, endpoint);
    var indices := Range(num, None, None);
    NumRangeLength(num);
    r := [];
    for j := 0 to |indices|
      invariant |r| == j
      invariant forall k :: 0 <= k < j ==> r[k] == LinspaceValue(start, stop, num, endpoint, k)
    {
      assert indices[j] == (j as real) * (Sign(num) as real);
      r := r + [start + indices[j] * step];
    }
    LinspaceEnds(start, stop, num, endpoint);
  }

  /** `linspace(start, stop)` with the default arguments: 50 values from
      start to stop, both included. */
  method LinspaceDefaults(start: real, stop: real) returns (r: seq<real>)
    ensures |r| == 50 && r[0] == start && r[49] == stop
    ensures forall k :: 0 <= k < 50 ==> r[k] == start + (k as real) * ((stop - start) / 49.0)
  {
    r := Linspace(start, stop);
    assert (50.0).Floor == 50;
  }

  /** The first value of `linspace` is start; for a whole num, the last is
      stop with the endpoint and one step short of stop without it. */
  lemma LinspaceEnds(start: real, stop: real, num: real, endpoint: bool)
    ensures LinspaceValue(start, stop, num, endpoint, 0) == start
    ensures endpoint && num.Floor as real == num && num >= 2.0 ==>
      LinspaceValue(start, stop, num, endpoint, Abs(num.Floor) - 1) == stop
    ensures !endpoint && num.Floor as real == num && num >= 1.0 ==>
      LinspaceValue(start, stop, num, endpoint, Abs(num.Floor) - 1) + LinspaceStep(start, stop, num, endpoint) == stop
  {
    LinspaceLast(start, stop, num, endpoint);
    if num.Floor as real == num && num >= 1.0 {
      assert ((Abs(num.Floor) - 1) as real) == num - 1.0;
      assert Sign(num) as real == 1.0;
    }
  }

  /** `range(num)` for an integer num yields |num| values, the k-th being k * sign(num). */
  lemma IntegerRangeLength(num: int)
    ensures RangeArgs(num as real, None, None) == (0.0, num as real, Sign(num as real) as real)
    ensures RangeLength(0.0, num as real, Sign(num as real) as real) == Abs(num)
  {
    if num > 0 {
      assert (num as real - 0.0) / 1.0 == num as real;
    } else if num < 0 {
      assert (num as real - 0.0) / -1.0 == (-num) as real;
    }
  }

  /** `range(num)` yields ceil(|num|) values, the k-th being k * sign(num);
      for a whole num that is |num| values. */
  lemma NumRangeLength(num: real)
    ensures RangeArgs(num, None, None) == (0.0, num, Sign(num) as real)
    ensures RangeLength(0.0, num, Sign(num) as real) == Ceil(if num < 0.0 then -num else num)
    ensures num.Floor as real == num ==> Ceil(if num < 0.0 then -num else num) == Abs(num.Floor)
    ensures num != 0.0 ==> Ceil(if num < 0.0 then -num else num) > 0
  {
    var m := if num < 0.0 then -num else num;
    CeilBounds(m);
    if num > 0.0 {
      assert (num - 0.0) / 1.0 == num;
    } else if num < 0.0 {
      assert (num - 0.0) / -1.0 == -num;
    }
    if num.Floor as real == num {
      if num < 0.0 {
        assert m == (-num.Floor) as real;
      } else {
        assert m == num.Floor as real;
      }
    }
  }

  /** With the endpoint, value num - 1 of `linspace` is stop; without it,
      value num - 1 is one step short of stop. */
  lemma LinspaceLast(start: real, stop: real, num: real, endpoint: bool)
    ensures endpoint && num >= 2.0 ==>
      start + (num - 1.0) * LinspaceStep(start, stop, num, endpoint) == stop
    ensures !endpoint && num >= 1.0 ==>
      start + (num - 1.0) * LinspaceStep(start, stop, num, endpoint)
        + LinspaceStep(start, stop, num, endpoint) == stop
  {
    var step := LinspaceStep(start, stop, num, endpoint);
    if endpoint && num >= 2.0 {
      assert step * (num - 1.0) == stop - start;
    }
    if !endpoint && num >= 1.0 {
      assert step * num == stop - start;
    }
  }

  /** Entry i of `arrs` at position `i`, or None (JavaScript's `undefined`) past its end. */
  function At<T>(s: seq<T>, i: nat): Option<T>
  {
    if i < |s| then Some(s[i]) else None
  }

  /** The `reduce` inside `zip` (util.js:46): starting from `acc`, append the
      i-th element of each array of `arrs`, in order. */
  function ZipRow<T>(acc: seq<Option<T>>, arrs: seq<seq<T>>, i: nat): (row: seq<Option<T>>)
    ensures |row| == |acc| + |arrs|
    ensures row[..|acc|] == acc
    ensures forall j :: 0 <= j < |arrs| ==> row[|acc| + j] == At(arrs[j], i)
    decreases |arrs|
  {
    if arrs == [] then acc
    else ZipRow(acc + [At(arrs[0], i)], arrs[1..], i)
  }

  /** `zip(arr, ...arrs)` (util.js:45-47): one row per element of arr, holding
      that element followed by the element at the same position of each other
      array (None where that array is shorter). */
  function Zip<T>(arr: seq<T>, arrs: seq<seq<T>>): (rows: seq<seq<Option<T>>>)
    ensures |rows| == |arr|
    ensures forall i :: 0 <= i < |arr| ==>
      |rows[i]| == 1 + |arrs| && rows[i][0] == Some(arr[i]) &&
      forall j :: 0 <= j < |arrs| ==> rows[i][j + 1] == At(arrs[j], i)
  {
    seq(|arr|, i requires 0 <= i < |arr| => ZipRow([Some(arr[i])], arrs, i))
  }

  /** Column c of a table of rows. */
  function Column<T>(rows: seq<seq<T>>, c: nat): seq<T>
    requires forall i :: 0 <= i < |rows| ==> c < |rows[i]|
  {
    seq(|rows|, i requires 0 <= i < |rows| => rows[i][c])
  }

  function Lift<T>(s: seq<T>): seq<Option<T>>
  {
    seq(|s|, i requires 0 <= i < |s| => Some(s[i]))
  }

  /** Zipping arrays of equal length and reading the columns back gives the
      arrays themselves: column 0 is arr and column j + 1 is arrs[j]. */
  lemma UnzipZip<T>(arr: seq<T>, arrs: seq<seq<T>>, j: nat)
    requires forall k :: 0 <= k < |arrs| ==> |arrs[k]| == |arr|
    requires j < |arrs|
    ensures Column(Zip(arr, arrs), 0) == Lift(arr)
    ensures Column(Zip(arr, arrs), j + 1) == Lift(arrs[j])
  {
  }

  /** `clamp(x, bot, top)` (util.js:50). */
  function Clamp(x: real, bot: real, top: real): (r: real)
    ensures r == x || r == bot || r == top
    ensures bot <= top ==> bot <= r <= top
    ensures bot <= x <= top ==> r == x
    ensures x < bot ==> r == bot
    ensures bot <= x && top < x ==> r == top
  {
    if x < bot then bot else if x > top then top else x
  }

  /** Clamping is idempotent and, for an ordered interval, monotone. */
  lemma ClampIdempotentMonotone(x: real, y: real, bot: real, top: real)
    requires bot <= top
    ensures Clamp(Clamp(x, bot, top), bot, top) == Clamp(x, bot, top)
    ensures x <= y ==> Clamp(x, bot, top) <= Clamp(y, bot, top)
  {
  }
}
