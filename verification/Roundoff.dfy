/** Roundoff of a dot product summed in any order, under the standard model of an operation:
    |fl(x) - x| <= u |x| + eta. */
module Roundoff {

  function Abs(x: real): real {
    if x < 0.0 then -x else x
  }

  // ----- products of reals, by name so that longer arguments can leave them closed

  function Times(x: real, y: real): real {
    x * y
  }

  lemma TimesLe(a: real, b: real, c: real)
    requires a <= b && 0.0 <= c
    ensures Times(a, c) <= Times(b, c) && Times(c, a) <= Times(c, b)
  {
    assert 0.0 <= (b - a) * c;
    assert (b - a) * c == b * c - a * c;
  }

  lemma TimesSum(a: real, b: real, c: real)
    ensures Times(a + b, c) == Times(a, c) + Times(b, c)
    ensures Times(c, a + b) == Times(c, a) + Times(c, b)
  {
  }

  lemma TimesDifference(a: real, b: real, c: real)
    ensures Times(a - b, c) == Times(a, c) - Times(b, c)
    ensures Times(c, a - b) == Times(c, a) - Times(c, b)
  {
  }

  lemma TimesOne(a: real)
    ensures Times(1.0, a) == a == Times(a, 1.0) && Times(0.0, a) == 0.0 == Times(a, 0.0)
  {
  }

  lemma TimesCommutes(a: real, b: real)
    ensures Times(a, b) == Times(b, a)
  {
  }

  lemma TimesAssociates(a: real, b: real, c: real)
    ensures Times(Times(a, b), c) == Times(a, Times(b, c))
  {
    assert a * b * c == a * (b * c);
  }

  lemma TimesNonnegative(a: real, b: real)
    requires 0.0 <= a && 0.0 <= b
    ensures 0.0 <= Times(a, b)
  {
  }

  lemma TimesStrict(a: real, b: real, c: real)
    requires 0.0 < c
    ensures b < a ==> Times(b, c) < Times(a, c)
  {
    if b < a {
      assert 0.0 < (a - b) * c;
      assert (a - b) * c == a * c - b * c;
    }
  }

  /** A summation of products in any order.  A product carries its exact and its computed value,
      a sum its computed value; Zero is an accumulator that was never added to. */
  datatype Tree = Zero | Product(exact: real, computed: real) | Sum(left: Tree, right: Tree, computed: real)

  function Computed(t: Tree): real {
    match t
    case Zero => 0.0
    case Product(_, c) => c
    case Sum(_, _, c) => c
  }

  function Leaves(t: Tree): seq<real> {
    match t
    case Zero => []
    case Product(x, _) => [x]
    case Sum(l, r, _) => Leaves(l) + Leaves(r)
  }

  ghost predicate Close(computed: real, exact: real, u: real, eta: real) {
    Abs(computed - exact) <= Times(u, Abs(exact)) + eta
  }

  /** Every operation errs by at most u |x| + eta; adding nothing is exact. */
  ghost predicate Rounded(t: Tree, u: real, eta: real) {
    match t
    case Zero => true
    case Product(x, c) => Close(c, x, u, eta)
    case Sum(l, r, c) =>
      && Rounded(l, u, eta) && Rounded(r, u, eta)
      && (if Leaves(l) == [] then c == Computed(r) else if Leaves(r) == [] then c == Computed(l)
          else Close(c, Computed(l) + Computed(r), u, eta))
  }

  // ----- sums of products

  function SumBefore(xs: seq<real>, n: nat): real
    requires n <= |xs|
  {
    if n == 0 then 0.0 else SumBefore(xs, n - 1) + xs[n - 1]
  }

  function Total(xs: seq<real>): real {
    SumBefore(xs, |xs|)
  }

  function AbsBefore(xs: seq<real>, n: nat): (ys: seq<real>)
    requires n <= |xs|
    ensures |ys| == n && forall k :: 0 <= k < n ==> ys[k] == Abs(xs[k])
  {
    if n == 0 then [] else AbsBefore(xs, n - 1) + [Abs(xs[n - 1])]
  }

  /** Magnitudes of the products. */
  function Magnitudes(xs: seq<real>): seq<real> {
    AbsBefore(xs, |xs|)
  }

  lemma {:induction false} SumOfConcat(xs: seq<real>, ys: seq<real>, n: nat)
    requires n <= |ys|
    ensures SumBefore(xs + ys, |xs| + n) == Total(xs) + SumBefore(ys, n)
  {
    if n == 0 {
      SumOfPrefix(xs, ys, |xs|);
    } else {
      SumOfConcat(xs, ys, n - 1);
    }
  }

  lemma {:induction false} SumOfPrefix(xs: seq<real>, ys: seq<real>, n: nat)
    requires n <= |xs|
    ensures SumBefore(xs + ys, n) == SumBefore(xs, n)
  {
    if n > 0 {
      SumOfPrefix(xs, ys, n - 1);
    }
  }

  lemma TotalOfConcat(xs: seq<real>, ys: seq<real>)
    ensures Total(xs + ys) == Total(xs) + Total(ys)
    ensures Magnitudes(xs + ys) == Magnitudes(xs) + Magnitudes(ys)
    ensures Total(Magnitudes(xs + ys)) == Total(Magnitudes(xs)) + Total(Magnitudes(ys))
  {
    SumOfConcat(xs, ys, |ys|);
    SumOfConcat(Magnitudes(xs), Magnitudes(ys), |ys|);
  }

  lemma TotalOfOne(x: real)
    ensures Total([x]) == x && Total(Magnitudes([x])) == Abs(x)
  {
    assert Magnitudes([x]) == [Abs(x)];
    assert SumBefore([x], 0) == 0.0 && SumBefore([Abs(x)], 0) == 0.0;
  }

  lemma RemoveOne(ys: seq<real>, k: nat)
    requires k < |ys|
    ensures Total(ys) == Total(ys[..k] + ys[k + 1..]) + ys[k]
    ensures multiset(ys[..k] + ys[k + 1..]) == multiset(ys) - multiset{ys[k]}
  {
    var front, back := ys[..k], ys[k + 1..];
    assert ys == front + [ys[k]] + back;
    TotalOfConcat(front + [ys[k]], back);
    TotalOfConcat(front, [ys[k]]);
    TotalOfConcat(front, back);
    TotalOfOne(ys[k]);
  }

  /** Exact sums do not depend on the order. */
  lemma {:induction false} SumIgnoresOrder(xs: seq<real>, ys: seq<real>)
    requires multiset(xs) == multiset(ys)
    ensures Total(xs) == Total(ys)
    decreases |xs|
  {
    if xs == [] {
      assert |multiset(ys)| == 0;
    } else {
      var n := |xs| - 1;
      assert xs[n] in multiset(xs);
      var k := Position(ys, xs[n]);
      RemoveOne(xs, n);
      RemoveOne(ys, k);
      SumIgnoresOrder(xs[..n] + xs[n + 1..], ys[..k] + ys[k + 1..]);
    }
  }

  lemma Position(ys: seq<real>, x: real) returns (k: nat)
    requires x in multiset(ys)
    ensures k < |ys| && ys[k] == x
  {
    assert x in ys;
    k :| 0 <= k < |ys| && ys[k] == x;
  }

  lemma {:induction false} TotalAtMostMagnitude(xs: seq<real>, n: nat)
    requires n <= |xs|
    ensures Abs(SumBefore(xs, n)) <= SumBefore(Magnitudes(xs), n)
  {
    if n > 0 {
      TotalAtMostMagnitude(xs, n - 1);
    }
  }

  // ----- multiples, and powers of 1 + u

  function Multiple(x: real, n: nat): real {
    if n == 0 then 0.0 else Multiple(x, n - 1) + x
  }

  lemma {:induction false} MultipleAdds(x: real, a: nat, b: nat)
    ensures Multiple(x, a + b) == Multiple(x, a) + Multiple(x, b)
  {
    if b > 0 {
      MultipleAdds(x, a, b - 1);
    }
  }

  lemma {:induction false} MultipleMonotone(x: real, a: nat, b: nat)
    requires 0.0 <= x && a <= b
    ensures 0.0 <= Multiple(x, a) <= Multiple(x, b)
    decreases b
  {
    if a < b {
      MultipleMonotone(x, a, b - 1);
    } else if b > 0 {
      MultipleMonotone(x, a - 1, b - 1);
    }
  }

  function Growth(u: real, n: nat): real {
    if n == 0 then 1.0 else Times(Growth(u, n - 1), 1.0 + u)
  }

  lemma GrowthOnce(u: real, g: real)
    requires 0.0 <= u && 1.0 <= g
    ensures g <= Times(g, 1.0 + u)
  {
    hide Times;
    TimesSum(1.0, u, g);
    TimesOne(g);
    TimesNonnegative(g, u);
  }

  lemma {:induction false} GrowthMonotone(u: real, m: nat, n: nat)
    requires 0.0 <= u && m <= n
    ensures 1.0 <= Growth(u, m) <= Growth(u, n)
    decreases n
  {
    hide Times;
    if m < n {
      GrowthMonotone(u, m, n - 1);
      GrowthOnce(u, Growth(u, n - 1));
    } else if n > 0 {
      GrowthMonotone(u, m - 1, n - 1);
      GrowthOnce(u, Growth(u, n - 1));
    }
  }

  /** (1 + u)^n <= 1 / (1 - n u), with the denominator multiplied out. */
  lemma {:induction false} GrowthBound(u: real, n: nat)
    requires 0.0 <= u && Multiple(u, n) < 1.0
    ensures Times(Growth(u, n), 1.0 - Multiple(u, n)) <= 1.0
  {
    hide Times;
    if n == 0 {
      TimesOne(1.0);
    } else {
      MultipleMonotone(u, n - 1, n);
      GrowthBound(u, n - 1);
      GrowthMonotone(u, 0, n - 1);
      GrowthStep(u, Multiple(u, n - 1), Growth(u, n - 1));
    }
  }

  lemma GrowthStep(u: real, k: real, g: real)
    requires 0.0 <= u && 0.0 <= k && 0.0 <= g && Times(g, 1.0 - k) <= 1.0
    ensures Times(Times(g, 1.0 + u), 1.0 - (k + u)) <= 1.0
  {
    hide Times;
    var q := Times(1.0 + u, 1.0 - (k + u));
    Shrinks(u, k);
    TimesLe(q, 1.0 - k, g);
    TimesAssociates(g, 1.0 + u, 1.0 - (k + u));
  }

  lemma Shrinks(u: real, k: real)
    requires 0.0 <= u && 0.0 <= k
    ensures Times(1.0 + u, 1.0 - (k + u)) <= 1.0 - k
  {
    assert 0.0 <= u * (k + u);
    assert (1.0 + u) * (1.0 - (k + u)) == 1.0 - k - u * (k + u);
  }

  // ----- the error of a tree

  /** Roundings in a tree: one per product, one per addition of two nonempty sums. */
  function Operations(t: Tree): nat {
    match t
    case Zero => 0
    case Product(_, _) => 1
    case Sum(l, r, _) => Operations(l) + Operations(r) + (if Leaves(l) == [] || Leaves(r) == [] then 0 else 1)
  }

  /** m products take 2 m - 1 roundings, in whatever order they are added. */
  lemma {:induction false} OperationCount(t: Tree)
    ensures Operations(t) == if Leaves(t) == [] then 0 else 2 * |Leaves(t)| - 1
  {
    match t
    case Zero =>
    case Product(_, _) =>
    case Sum(l, r, _) =>
      OperationCount(l);
      OperationCount(r);
  }

  lemma TwoErrors(r: real, x: real, x': real, y: real, y': real)
    ensures Abs(r - (x' + y')) <= Abs(r - (x + y)) + Abs(x - x') + Abs(y - y')
    ensures Abs(x + y) <= Abs(x - x') + Abs(y - y') + Abs(x') + Abs(y')
  {
  }

  /** e bounds the errors of the two summands, m the magnitudes of their exact values. */
  lemma SumError(x: real, x': real, y: real, y': real, r: real, u: real, eta: real, e: real, m: real)
    requires 0.0 <= u && Abs(x - x') + Abs(y - y') <= e && Abs(x') + Abs(y') <= m && Close(r, x + y, u, eta)
    ensures Abs(r - (x' + y')) <= e + Times(u, e) + Times(u, m) + eta
  {
    hide Times, Abs;
    TwoErrors(r, x, x', y, y');
    TimesLe(Abs(x + y), e + m, u);
    TimesSum(e, m, u);
  }

  /** (g - 1) s + g m: the error allowed on products of total magnitude s. */
  function Allow(g: real, m: real, s: real): real {
    Times(g, s) - s + Times(g, m)
  }

  /** The error allowed after n roundings. */
  function Allowed(u: real, eta: real, n: nat, s: real): real {
    Allow(Growth(u, n), Multiple(eta, n), s)
  }

  lemma AllowMonotone(g: real, g': real, m: real, s: real)
    requires g <= g' && 0.0 <= m && 0.0 <= s
    ensures Allow(g, m, s) <= Allow(g', m, s)
  {
    hide Times;
    TimesLe(g, g', s);
    TimesLe(g, g', m);
  }

  lemma AllowAdds(g: real, m: real, m': real, s: real, s': real)
    ensures Allow(g, m, s) + Allow(g, m', s') == Allow(g, m + m', s + s')
  {
    hide Times;
    TimesSum(s, s', g);
    TimesSum(m, m', g);
  }

  /** One more rounding on partial sums whose errors e bounds. */
  lemma AllowStep(u: real, eta: real, g: real, m: real, s: real, e: real)
    requires 0.0 <= u && 0.0 <= eta && 1.0 <= g && e <= Allow(g, m, s)
    ensures e + Times(u, e) + Times(u, s) + eta <= Allow(Times(g, 1.0 + u), m + eta, s)
  {
    hide Times;
    var h := Times(g, 1.0 + u);
    GrowthOnce(u, g);
    TimesLe(1.0, h, eta);
    TimesOne(eta);
    ScaledTerm(u, g, s);
    ScaledTerm(u, g, m);
    TimesLe(e, Times(g, s) - s + Times(g, m), u);
    TimesSum(Times(g, s) - s, Times(g, m), u);
    TimesDifference(Times(g, s), s, u);
    TimesSum(m, eta, h);
  }

  lemma ScaledTerm(u: real, g: real, x: real)
    ensures Times(Times(g, 1.0 + u), x) == Times(g, x) + Times(u, Times(g, x))
  {
    hide Times;
    TimesSum(1.0, u, g);
    TimesOne(g);
    TimesSum(g, Times(g, u), x);
    TimesCommutes(g, u);
    TimesAssociates(u, g, x);
  }

  lemma MagnitudeNonnegative(xs: seq<real>)
    ensures 0.0 <= Total(Magnitudes(xs)) && Abs(Total(xs)) <= Total(Magnitudes(xs))
  {
    TotalAtMostMagnitude(xs, |xs|);
  }

  /** Whatever the order of the additions, the computed sum of m products errs by at most
      ((1 + u)^n - 1) sum |x| + n eta (1 + u)^n, where n = 2 m - 1. */
  lemma {:induction false} TreeError(t: Tree, u: real, eta: real)
    requires 0.0 <= u && 0.0 <= eta && Rounded(t, u, eta)
    ensures Abs(Computed(t) - Total(Leaves(t))) <= Allowed(u, eta, Operations(t), Total(Magnitudes(Leaves(t))))
    ensures Leaves(t) == [] ==> Computed(t) == 0.0
  {
    hide Times, Allowed, Close, Abs, Total, Magnitudes;
    match t
    case Zero =>
      NoError(u, eta);
    case Product(x, c) =>
      TotalOfOne(x);
      ProductError(x, c, u, eta);
    case Sum(l, r, c) =>
      TreeError(l, u, eta);
      TreeError(r, u, eta);
      if Leaves(l) == [] {
        OneSided(t, l, r, u, eta);
      } else if Leaves(r) == [] {
        OneSided(t, r, l, u, eta);
      } else {
        SumTreeError(l, r, c, u, eta);
        TotalOfConcat(Leaves(l), Leaves(r));
      }
  }

  /** Adding nothing to a sum changes neither its value nor its products. */
  lemma OneSided(t: Tree, none: Tree, rest: Tree, u: real, eta: real)
    requires t.Sum? && (t == Sum(none, rest, Computed(rest)) || t == Sum(rest, none, Computed(rest))) && Leaves(none) == []
    requires Abs(Computed(rest) - Total(Leaves(rest))) <= Allowed(u, eta, Operations(rest), Total(Magnitudes(Leaves(rest))))
    ensures Leaves(t) == Leaves(rest)
    ensures Abs(Computed(t) - Total(Leaves(t))) <= Allowed(u, eta, Operations(t), Total(Magnitudes(Leaves(t))))
  {
    hide Allowed, Abs, Total, Magnitudes, Leaves, Operations, Computed;
    SameShape(t, none, rest);
  }

  lemma SameShape(t: Tree, none: Tree, rest: Tree)
    requires t.Sum? && (t == Sum(none, rest, Computed(rest)) || t == Sum(rest, none, Computed(rest))) && Leaves(none) == []
    ensures Leaves(t) == Leaves(rest) && Operations(t) == Operations(rest) && Computed(t) == Computed(rest)
  {
    OperationCount(none);
    assert [] + Leaves(rest) == Leaves(rest) + [] == Leaves(rest);
  }

  lemma NoError(u: real, eta: real)
    ensures Abs(0.0 - Total([])) <= Allowed(u, eta, 0, Total(Magnitudes([])))
  {
  }

  lemma ProductError(x: real, c: real, u: real, eta: real)
    requires 0.0 <= u && 0.0 <= eta && Close(c, x, u, eta)
    ensures Abs(c - x) <= Allowed(u, eta, 1, Abs(x))
  {
    hide Times, Abs;
    var s := Abs(x);
    assert Growth(u, 0) == 1.0 && Multiple(eta, 0) == 0.0;
    TimesOne(1.0 + u);
    TimesSum(1.0, u, s);
    TimesOne(s);
    TimesLe(1.0, 1.0 + u, eta);
    TimesOne(eta);
  }

  lemma SumTreeError(l: Tree, r: Tree, c: real, u: real, eta: real)
    requires 0.0 <= u && 0.0 <= eta && Close(c, Computed(l) + Computed(r), u, eta)
    requires Abs(Computed(l) - Total(Leaves(l))) <= Allowed(u, eta, Operations(l), Total(Magnitudes(Leaves(l))))
    requires Abs(Computed(r) - Total(Leaves(r))) <= Allowed(u, eta, Operations(r), Total(Magnitudes(Leaves(r))))
    ensures Abs(c - (Total(Leaves(l)) + Total(Leaves(r)))) <=
            Allowed(u, eta, Operations(l) + Operations(r) + 1, Total(Magnitudes(Leaves(l))) + Total(Magnitudes(Leaves(r))))
  {
    hide Times, Allowed, Close, Abs, Total, Computed, Operations;
    MagnitudeNonnegative(Leaves(l));
    MagnitudeNonnegative(Leaves(r));
    CombineErrors(Computed(l), Total(Leaves(l)), Computed(r), Total(Leaves(r)), c, u, eta, Operations(l), Operations(r),
                  Total(Magnitudes(Leaves(l))), Total(Magnitudes(Leaves(r))));
  }

  lemma CombineErrors(x: real, x': real, y: real, y': real, c: real, u: real, eta: real, a: nat, b: nat, s: real, t: real)
    requires 0.0 <= u && 0.0 <= eta && Close(c, x + y, u, eta)
    requires Abs(x') <= s && Abs(y') <= t && 0.0 <= s && 0.0 <= t
    requires Abs(x - x') <= Allowed(u, eta, a, s) && Abs(y - y') <= Allowed(u, eta, b, t)
    ensures Abs(c - (x' + y')) <= Allowed(u, eta, a + b + 1, s + t)
  {
    hide Times, Allow, Close, Abs;
    GrowthMonotone(u, a, a + b);
    GrowthMonotone(u, b, a + b);
    MultipleMonotone(eta, 0, a);
    MultipleMonotone(eta, 0, b);
    MultipleAdds(eta, a, b);
    CombineAllowed(x, x', y, y', c, u, eta, Growth(u, a), Growth(u, b), Growth(u, a + b),
                   Multiple(eta, a), Multiple(eta, b), s, t);
  }

  lemma CombineAllowed(x: real, x': real, y: real, y': real, c: real, u: real, eta: real,
                       ga: real, gb: real, g: real, ma: real, mb: real, s: real, t: real)
    requires 0.0 <= u && 0.0 <= eta && Close(c, x + y, u, eta)
    requires Abs(x') <= s && Abs(y') <= t && 0.0 <= s && 0.0 <= t
    requires ga <= g && gb <= g && 1.0 <= g && 0.0 <= ma && 0.0 <= mb
    requires Abs(x - x') <= Allow(ga, ma, s) && Abs(y - y') <= Allow(gb, mb, t)
    ensures Abs(c - (x' + y')) <= Allow(Times(g, 1.0 + u), ma + mb + eta, s + t)
  {
    hide Times, Allow, Close, Abs;
    var e := Abs(x - x') + Abs(y - y');
    AllowMonotone(ga, g, ma, s);
    AllowMonotone(gb, g, mb, t);
    AllowAdds(g, ma, mb, s, t);
    AllowStep(u, eta, g, ma + mb, s + t, e);
    SumError(x, x', y, y', c, u, eta, e, s + t);
  }
}
