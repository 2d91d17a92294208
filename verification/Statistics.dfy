/** Running statistics of row lengths, updated one value at a time without keeping the values. */
module Statistics {
  import opened Roundoff

  ghost function Added(values: seq<nat>, n: nat): real
    requires n <= |values|
  {
    if n == 0 then 0.0 else Added(values, n - 1) + values[n - 1] as real
  }

  /** Squared distances from a centre. */
  ghost function Deviations(values: seq<nat>, centre: real, n: nat): real
    requires n <= |values|
  {
    if n == 0 then 0.0 else Deviations(values, centre, n - 1) + Square(values[n - 1] as real - centre)
  }

  ghost function Square(x: real): real {
    Times(x, x)
  }

  ghost function Zeros(values: seq<nat>, n: nat): nat
    requires n <= |values|
  {
    if n == 0 then 0 else Zeros(values, n - 1) + if values[n - 1] == 0 then 1 else 0
  }

  lemma {:induction false} PrefixSame(values: seq<nat>, value: nat, centre: real, n: nat)
    requires n <= |values|
    ensures Added(values + [value], n) == Added(values, n) && Zeros(values + [value], n) == Zeros(values, n)
    ensures Deviations(values + [value], centre, n) == Deviations(values, centre, n)
  {
    hide Square;
    if n > 0 {
      PrefixSame(values, value, centre, n - 1);
    }
  }

  lemma SquareOfDifference(x: real, d: real)
    ensures Square(x - d) == Square(x) - Times(2.0 * d, x) + Square(d)
  {
  }

  /** Moving the centre by d changes the sum of squares by a linear and a quadratic term. */
  lemma {:induction false} MoveCentre(values: seq<nat>, centre: real, d: real, n: nat)
    requires n <= |values|
    ensures Deviations(values, centre + d, n) ==
            Deviations(values, centre, n) - Times(2.0 * d, Added(values, n) - Times(n as real, centre)) + Times(n as real, Square(d))
  {
    hide Times, Square;
    if n > 0 {
      MoveCentre(values, centre, d, n - 1);
      var v, m, s := values[n - 1] as real, (n - 1) as real, Added(values, n - 1);
      SquareOfDifference(v - centre, d);
      assert v - (centre + d) == (v - centre) - d;
      TimesSum(m, 1.0, centre);
      TimesSum(m, 1.0, Square(d));
      TimesOne(centre);
      TimesOne(Square(d));
      TimesSum(s - Times(m, centre), v - centre, 2.0 * d);
      assert s + v - Times(m + 1.0, centre) == s - Times(m, centre) + (v - centre);
    } else {
      TimesOne(centre);
      TimesOne(Square(d));
      TimesOne(2.0 * d);
    }
  }

  /** The step of the running sum of squares: the old and the new distance of the new value, multiplied. */
  lemma NewDistance(delta: real, n: real)
    requires n >= 0.0
    ensures var step := delta / (n + 1.0);
            Times(n, Square(step)) + Square(delta - step) == Times(delta, delta - step) && Times(step, n + 1.0) == delta
  {
    var step := delta / (n + 1.0);
    assert step * (n + 1.0) == delta;
    assert delta - step == n * step;
    assert Square(delta - step) == (n * step) * (n * step) == n * (n * Square(step));
    assert delta * (delta - step) == (step * (n + 1.0)) * (n * step) == n * ((n + 1.0) * Square(step));
    assert (n + 1.0) * Square(step) == n * Square(step) + Square(step);
  }

  /** The least and the greatest value. */
  ghost predicate Extremes(values: seq<nat>, minimum: int, maximum: int) {
    && (forall k :: 0 <= k < |values| ==> minimum <= values[k] <= maximum)
    && (|values| > 0 ==> minimum in values && maximum in values)
  }

  lemma ExtremesNext(values: seq<nat>, minimum: int, maximum: int, value: nat)
    requires Extremes(values, minimum, maximum) && (values == [] ==> maximum == 0)
    ensures Extremes(values + [value], if values == [] || value < minimum then value else minimum,
                     if maximum < value then value else maximum)
  {
    assert (values + [value])[|values|] == value;
  }

  class Statistics {
    var count: nat
    var zeros: nat
    var minimum: int
    var maximum: int
    var mean: real
    var m2: real
    ghost var values: seq<nat>

    /** The fields describe the values added so far. */
    ghost predicate Valid()
      reads this
    {
      && count == |values| && zeros == Zeros(values, count)
      && Extremes(values, minimum, maximum)
      && (count == 0 ==> maximum == 0 && mean == 0.0)
      && Times(mean, count as real) == Added(values, count) && m2 == Deviations(values, mean, count)
    }

    constructor ()
      ensures Valid() && values == []
    {
      count, zeros, minimum, maximum, mean, m2 := 0, 0, 0, 0, 0.0, 0.0;
      values := [];
    }

    method Add(value: nat)
      requires Valid()
      modifies this
      ensures Valid() && values == old(values) + [value]
    {
      hide Times, Deviations, Added, Zeros, Extremes;
      ExtremesNext(values, minimum, maximum, value);
      var delta := value as real - mean;
      UpdatedMoments(values, value, mean, m2);
      minimum := if count == 0 || value < minimum then value else minimum;
      maximum := if maximum < value then value else maximum;
      zeros := zeros + if value == 0 then 1 else 0;
      count := count + 1;
      mean := mean + delta / count as real;
      m2 := m2 + Times(delta, value as real - mean);
      values := values + [value];
    }
  }

  /** The recurrences keep the exact mean and the exact sum of squared distances from it. */
  lemma UpdatedMoments(values: seq<nat>, value: nat, mean: real, m2: real)
    requires Times(mean, |values| as real) == Added(values, |values|) && m2 == Deviations(values, mean, |values|)
    ensures var n, delta := |values|, value as real - mean;
            var next := mean + delta / (n + 1) as real;
            && Times(next, (n + 1) as real) == Added(values + [value], n + 1)
            && m2 + Times(delta, value as real - next) == Deviations(values + [value], next, n + 1)
            && Zeros(values + [value], n + 1) == Zeros(values, n) + if value == 0 then 1 else 0
  {
    hide Square, Times;
    var n, delta := |values|, value as real - mean;
    var step := delta / (n + 1) as real;
    var next := mean + step;
    PrefixSame(values, value, next, n);
    MoveCentre(values, mean, step, n);
    NewDistance(delta, n as real);
    TimesCommutes(n as real, mean);
    TimesOne(2.0 * step);
    TimesSum(mean, step, (n + 1) as real);
    TimesSum(n as real, 1.0, mean);
    TimesOne(mean);
    assert value as real - next == delta - step;
  }
}
