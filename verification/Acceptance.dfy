/** The componentwise acceptance bound: computed with outward rounding, it covers every order in
    which a correct program may have added the products of a cell. */
module Acceptance {
  import opened Roundoff

  /** nextafter upwards and towards zero, applied to a rounded value. */
  datatype Directed = Directed(up: real -> real, down: real -> real) {

    /** All that is used of them: they never end on the wrong side of the exact value. */
    ghost predicate Sound() {
      && (forall x: real :: up(x) >= x)
      && (forall x: real :: 0.0 < x ==> 0.0 < down(x) <= x)
    }

    function AddUp(a: real, b: real): real {
      if a == 0.0 then b else if b == 0.0 then a else up(a + b)
    }

    function MultiplyUp(a: real, b: real): real {
      if a == 0.0 || b == 0.0 then 0.0 else up(Times(a, b))
    }

    function DivideUp(a: real, b: real): real
      requires b != 0.0
    {
      if a == 0.0 then 0.0 else up(a / b)
    }
  }

  datatype Format = Format(epsilon: real, denormMin: real) {
    function Unit(): real {
      epsilon / 2.0
    }

    ghost predicate Valid() {
      0.0 <= epsilon && 0.0 <= denormMin
    }
  }

  datatype NumericCell = NumericCell(serial: real, reference: real, magnitude: real, terms: nat)

  /** FailClosed is the pair (1, infinity). */
  datatype ErrorModel = ErrorModel(gamma: real, underflow: real) | FailClosed

  datatype Bound = Finite(value: real) | Infinite

  function ErrorModelOf(d: Directed, f: Format, terms: nat): ErrorModel
    requires forall x: real :: 0.0 < x ==> 0.0 < d.down(x)
  {
    var operations := d.MultiplyUp(2.0, terms as real);
    var scaled := d.MultiplyUp(operations, f.Unit());
    if !(scaled < 0.5) then FailClosed else
      var denominator := d.down(1.0 - scaled);
      ErrorModel(d.DivideUp(scaled, denominator), d.DivideUp(d.MultiplyUp(operations, f.denormMin), denominator))
  }

  /** The bound once both models and the corrected magnitude are at hand. */
  function Combine(d: Directed, c: ErrorModel, r: ErrorModel, magnitude: real): real
    requires c.ErrorModel? && r.ErrorModel? && r.gamma < 1.0
    requires forall x: real :: 0.0 < x ==> 0.0 < d.down(x)
  {
    var scale := d.DivideUp(d.AddUp(magnitude, r.underflow), d.down(1.0 - r.gamma));
    d.AddUp(d.MultiplyUp(d.AddUp(c.gamma, r.gamma), scale), d.AddUp(c.underflow, r.underflow))
  }

  function CoordinateBound(d: Directed, candidate: Format, reference: Format, cell: NumericCell): Bound
    requires forall x: real :: 0.0 < x ==> 0.0 < d.down(x)
  {
    if cell.terms == 0 then Finite(0.0) else
      var c, r := ErrorModelOf(d, candidate, cell.terms), ErrorModelOf(d, reference, cell.terms);
      if c.FailClosed? || r.FailClosed? || !(c.gamma < 1.0 && r.gamma < 1.0) then Infinite
      else Finite(Combine(d, c, r, cell.magnitude))
  }

  // ----- outward rounding

  lemma UpwardOps(d: Directed, a: real, b: real)
    requires d.Sound()
    ensures a + b <= d.AddUp(a, b) && Times(a, b) <= d.MultiplyUp(a, b)
  {
    hide Times;
    TimesOne(a);
    TimesOne(b);
  }

  /** q = a / b rounded up satisfies a <= q b. */
  lemma UpwardQuotient(d: Directed, a: real, b: real)
    requires d.Sound() && 0.0 < b
    ensures a <= Times(d.DivideUp(a, b), b)
  {
    TimesLe(a / b, d.DivideUp(a, b), b);
  }

  lemma {:induction false} MultipleIs(x: real, n: nat)
    ensures Multiple(x, n) == Times(n as real, x)
  {
    hide Times;
    if n == 0 {
      TimesOne(x);
    } else {
      MultipleIs(x, n - 1);
      TimesSum((n - 1) as real, 1.0, x);
      TimesOne(x);
      assert n as real == (n - 1) as real + 1.0;
    }
  }

  /** n + 1 operations of at most 2 m are within the rounded product 2 m x. */
  lemma OperationsCover(d: Directed, x: real, n: nat, terms: nat)
    requires d.Sound() && 0.0 <= x && n + 1 <= 2 * terms
    ensures Multiple(x, n) + x <= d.MultiplyUp(d.MultiplyUp(2.0, terms as real), x)
  {
    hide Times, Directed.MultiplyUp;
    var operations := d.MultiplyUp(2.0, terms as real);
    UpwardOps(d, 2.0, terms as real);
    Doubled(terms as real);
    MultipleIs(x, n + 1);
    TimesLe((n + 1) as real, operations, x);
    UpwardOps(d, operations, x);
  }

  lemma Doubled(m: real)
    ensures Times(2.0, m) == m + m
  {
  }

  /** x is at most q if x times a denominator is, as the denominator in use is smaller still. */
  lemma Quotient(x: real, k: real, limit: real, den: real, q: real)
    requires 0.0 <= x && 0.0 < den <= 1.0 - k && Times(x, 1.0 - k) <= limit <= Times(q, den)
    ensures x <= q
  {
    hide Times;
    TimesLe(den, 1.0 - k, x);
    TimesStrict(x, q, den);
  }

  /** The relative part: (1 + w) (G - 1) <= gamma when w n <= 1 / 2. */
  lemma GammaCovers(g: real, k: real, u: real, w: real, scaled: real, den: real, gamma: real)
    requires 1.0 <= g && Times(g, 1.0 - k) <= 1.0 && 0.0 <= w && Times(w, k) <= u
    requires k + u <= scaled && 0.0 < den <= 1.0 - scaled && scaled <= Times(gamma, den) && 0.0 <= u
    ensures Times(1.0 + w, g - 1.0) <= gamma
  {
    hide Times;
    TimesNonnegative(1.0 + w, g - 1.0);
    Relative(g, k, w);
    Quotient(Times(1.0 + w, g - 1.0), k, scaled, den, gamma);
  }

  lemma Relative(g: real, k: real, w: real)
    requires Times(g, 1.0 - k) <= 1.0 && 0.0 <= w
    ensures Times(Times(1.0 + w, g - 1.0), 1.0 - k) <= k + Times(w, k)
  {
    hide Times;
    var y := Times(g, 1.0 - k) - (1.0 - k);
    TimesDifference(g, 1.0, 1.0 - k);
    TimesOne(1.0 - k);
    TimesAssociates(1.0 + w, g - 1.0, 1.0 - k);
    TimesLe(y, k, 1.0 + w);
    TimesSum(1.0, w, k);
    TimesOne(k);
  }

  /** The absolute part: (1 + w) G n eta + eta / 2 <= underflow. */
  lemma UnderflowCovers(g: real, k: real, m: real, eta: real, w: real, total: real, den: real, underflow: real)
    requires 1.0 <= g && Times(g, 1.0 - k) <= 1.0 && 0.0 <= k && 0.0 <= m && 0.0 <= eta && 0.0 <= w && Times(w, m) <= eta / 2.0
    requires m + eta <= total && 0.0 < den <= 1.0 - k && total <= Times(underflow, den)
    ensures Times(1.0 + w, Times(g, m)) + eta / 2.0 <= underflow
  {
    hide Times;
    TimesNonnegative(g, m);
    TimesNonnegative(1.0 + w, Times(g, m));
    Absolute(g, k, m, w);
    Halved(Times(1.0 + w, Times(g, m)), k, eta / 2.0, m + Times(w, m));
    Quotient(Times(1.0 + w, Times(g, m)) + eta / 2.0, k, total, den, underflow);
  }

  lemma Absolute(g: real, k: real, m: real, w: real)
    requires Times(g, 1.0 - k) <= 1.0 && 0.0 <= m && 0.0 <= w
    ensures Times(Times(1.0 + w, Times(g, m)), 1.0 - k) <= m + Times(w, m)
  {
    hide Times;
    var p := Times(1.0 + w, m);
    TimesNonnegative(1.0 + w, m);
    TimesLe(Times(g, 1.0 - k), 1.0, p);
    TimesOne(p);
    Regroup(1.0 + w, g, m, 1.0 - k);
    TimesSum(1.0, w, m);
    TimesOne(m);
  }

  lemma Regroup(a: real, g: real, m: real, r: real)
    ensures Times(Times(a, Times(g, m)), r) == Times(Times(g, r), Times(a, m))
  {
    assert a * (g * m) * r == (g * r) * (a * m);
  }

  lemma Halved(x: real, k: real, half: real, limit: real)
    requires 0.0 <= k && 0.0 <= half && Times(x, 1.0 - k) <= limit
    ensures Times(x + half, 1.0 - k) <= limit + half
  {
    hide Times;
    TimesSum(x, half, 1.0 - k);
    TimesDifference(1.0, k, half);
    TimesOne(half);
    TimesNonnegative(half, k);
  }

  // ----- the bound covers every order

  lemma ScaledMultiple(w: real, x: real, n: nat)
    requires 0.0 <= x && 0.0 <= w && Times(w, n as real) <= 0.5
    ensures Times(w, Multiple(x, n)) <= x / 2.0 <= x
  {
    hide Times;
    MultipleIs(x, n);
    TimesAssociates(w, n as real, x);
    TimesLe(Times(w, n as real), 0.5, x);
    Half(x);
  }

  lemma Half(x: real)
    ensures Times(0.5, x) == x / 2.0
  {
  }

  /** Room for n roundings enlarged by a factor 1 + w, and for half a unit of underflow. */
  ghost predicate Covered(u: real, eta: real, gamma: real, underflow: real, n: nat, w: real) {
    && Times(1.0 + w, Growth(u, n) - 1.0) <= gamma
    && Times(1.0 + w, Times(Growth(u, n), Multiple(eta, n))) + eta / 2.0 <= underflow
  }

  /** A model for m products covers 2 m - 1 roundings. */
  ghost predicate Covers(model: ErrorModel, u: real, eta: real, terms: nat) {
    && model.ErrorModel? && 0.0 <= model.gamma
    && forall n: nat, w: real :: n + 1 <= 2 * terms && 0.0 <= w && Times(w, n as real) <= 0.5 ==>
         Covered(u, eta, model.gamma, model.underflow, n, w)
  }

  /** What the formulas of the error model guarantee, free of the formulas. */
  lemma ModelFacts(d: Directed, f: Format, terms: nat) returns (scaled: real, total: real, den: real)
    requires d.Sound() && f.Valid() && ErrorModelOf(d, f, terms).ErrorModel?
    ensures scaled < 0.5 && 0.0 < den <= 1.0 - scaled
    ensures scaled <= Times(ErrorModelOf(d, f, terms).gamma, den) && total <= Times(ErrorModelOf(d, f, terms).underflow, den)
    ensures scaled == d.MultiplyUp(d.MultiplyUp(2.0, terms as real), f.Unit())
    ensures total == d.MultiplyUp(d.MultiplyUp(2.0, terms as real), f.denormMin)
  {
    hide Times, Directed.MultiplyUp, Directed.DivideUp;
    var operations := d.MultiplyUp(2.0, terms as real);
    scaled, total := d.MultiplyUp(operations, f.Unit()), d.MultiplyUp(operations, f.denormMin);
    den := d.down(1.0 - scaled);
    UpwardQuotient(d, scaled, den);
    UpwardQuotient(d, total, den);
  }

  lemma GammaPart(u: real, n: nat, w: real, scaled: real, den: real, gamma: real)
    requires 0.0 <= u && 0.0 <= w && Times(w, n as real) <= 0.5 && Multiple(u, n) + u <= scaled < 0.5
    requires 0.0 < den <= 1.0 - scaled && scaled <= Times(gamma, den)
    ensures Times(1.0 + w, Growth(u, n) - 1.0) <= gamma
  {
    hide Times, Growth, Multiple;
    MultipleMonotone(u, 0, n);
    GrowthBound(u, n);
    GrowthMonotone(u, 0, n);
    ScaledMultiple(w, u, n);
    GammaCovers(Growth(u, n), Multiple(u, n), u, w, scaled, den, gamma);
  }

  lemma UnderflowPart(u: real, eta: real, n: nat, w: real, scaled: real, total: real, den: real, underflow: real)
    requires 0.0 <= u && 0.0 <= eta && 0.0 <= w && Times(w, n as real) <= 0.5 && Multiple(u, n) + u <= scaled < 0.5
    requires Multiple(eta, n) + eta <= total && 0.0 < den <= 1.0 - scaled && total <= Times(underflow, den)
    ensures Times(1.0 + w, Times(Growth(u, n), Multiple(eta, n))) + eta / 2.0 <= underflow
  {
    hide Times, Growth, Multiple;
    MultipleMonotone(u, 0, n);
    MultipleMonotone(eta, 0, n);
    GrowthBound(u, n);
    GrowthMonotone(u, 0, n);
    ScaledMultiple(w, eta, n);
    UnderflowCovers(Growth(u, n), Multiple(u, n), Multiple(eta, n), eta, w, total, den, underflow);
  }

  lemma ModelCovers(d: Directed, f: Format, terms: nat)
    requires d.Sound() && f.Valid() && terms > 0 && ErrorModelOf(d, f, terms).ErrorModel?
    ensures Covers(ErrorModelOf(d, f, terms), f.Unit(), f.denormMin, terms)
  {
    hide Times, Covers, ErrorModelOf;
    var scaled, total, den := ModelFacts(d, f, terms);
    CoversBy(d, f.Unit(), f.denormMin, terms, ErrorModelOf(d, f, terms), scaled, total, den);
  }

  lemma CoversBy(d: Directed, u: real, eta: real, terms: nat, model: ErrorModel, scaled: real, total: real, den: real)
    requires d.Sound() && 0.0 <= u && 0.0 <= eta && terms > 0 && model.ErrorModel?
    requires scaled < 0.5 && 0.0 < den <= 1.0 - scaled && scaled <= Times(model.gamma, den) && total <= Times(model.underflow, den)
    requires scaled == d.MultiplyUp(d.MultiplyUp(2.0, terms as real), u)
    requires total == d.MultiplyUp(d.MultiplyUp(2.0, terms as real), eta)
    ensures Covers(model, u, eta, terms)
  {
    hide Times, Growth, Multiple, Directed.MultiplyUp;
    forall n: nat, w: real | n + 1 <= 2 * terms && 0.0 <= w && Times(w, n as real) <= 0.5
      ensures Covered(u, eta, model.gamma, model.underflow, n, w)
    {
      OperationsCover(d, u, n, terms);
      OperationsCover(d, eta, n, terms);
      GammaPart(u, n, w, scaled, den, model.gamma);
      UnderflowPart(u, eta, n, w, scaled, total, den, model.underflow);
    }
    TimesOne(0.0);
    GrowthMonotone(u, 0, 0);
    TimesOne(Growth(u, 0) - 1.0);
    assert Covered(u, eta, model.gamma, model.underflow, 0, 0.0);
  }

  /** An error allowed on magnitude s, enlarged by 1 + w, is within gamma s + underflow. */
  lemma EnlargedError(e: real, g: real, m: real, s: real, w: real, eta: real, gamma: real, underflow: real)
    requires e <= Allow(g, m, s) && 0.0 <= s && 0.0 <= w
    requires Times(1.0 + w, g - 1.0) <= gamma && Times(1.0 + w, Times(g, m)) + eta / 2.0 <= underflow
    ensures Times(1.0 + w, e) + eta / 2.0 <= Times(gamma, s) + underflow
  {
    hide Times;
    TimesLe(e, Allow(g, m, s), 1.0 + w);
    TimesDifference(g, 1.0, s);
    TimesOne(s);
    TimesSum(Times(g - 1.0, s), Times(g, m), 1.0 + w);
    TimesAssociates(1.0 + w, g - 1.0, s);
    TimesLe(Times(1.0 + w, g - 1.0), gamma, s);
  }

  lemma TreeCovered(model: ErrorModel, u: real, eta: real, t: Tree, w: real)
    requires Leaves(t) != [] && Covers(model, u, eta, |Leaves(t)|) && 0.0 <= w && Times(w, (2 * |Leaves(t)|) as real) <= 0.5
    ensures Covered(u, eta, model.gamma, model.underflow, Operations(t), w)
  {
    hide Times, Growth, Multiple, Covered, Leaves;
    OperationCount(t);
    TimesLe(Operations(t) as real, (2 * |Leaves(t)|) as real, w);
  }

  /** A sum of m products in any order: its error, enlarged, is within the model. */
  lemma TreeWithinModel(model: ErrorModel, u: real, eta: real, t: Tree, w: real, s: real)
    requires 0.0 <= u && 0.0 <= eta && Rounded(t, u, eta) && Leaves(t) != [] && Covers(model, u, eta, |Leaves(t)|)
    requires 0.0 <= w && Times(w, (2 * |Leaves(t)|) as real) <= 0.5 && s == Total(Magnitudes(Leaves(t)))
    ensures Times(1.0 + w, Abs(Computed(t) - Total(Leaves(t)))) + eta / 2.0 <= Times(model.gamma, s) + model.underflow
  {
    hide Times, Growth, Multiple, Allow, Rounded, Leaves, Magnitudes, Total, Operations, Computed, Abs;
    TreeCovered(model, u, eta, t, w);
    TreeError(t, u, eta);
    MagnitudeNonnegative(Leaves(t));
    EnlargedError(Abs(Computed(t) - Total(Leaves(t))), Growth(u, Operations(t)), Multiple(eta, Operations(t)),
                  s, w, eta, model.gamma, model.underflow);
  }

  lemma MagnitudesAgain(xs: seq<real>)
    ensures Magnitudes(Magnitudes(xs)) == Magnitudes(xs)
  {
  }

  lemma {:induction false} MagnitudesIgnoreOrder(xs: seq<real>, ys: seq<real>)
    requires multiset(xs) == multiset(ys)
    ensures multiset(Magnitudes(xs)) == multiset(Magnitudes(ys))
    decreases |xs|
  {
    if xs == [] {
      assert |multiset(ys)| == 0;
    } else {
      var n := |xs| - 1;
      assert xs[n] in multiset(xs);
      var k := Position(ys, xs[n]);
      RemoveOne(xs, n);
      RemoveOne(ys, k);
      MagnitudesIgnoreOrder(xs[..n] + xs[n + 1..], ys[..k] + ys[k + 1..]);
      RemoveMagnitude(xs, n);
      RemoveMagnitude(ys, k);
    }
  }

  lemma RemoveMagnitude(ys: seq<real>, k: nat)
    requires k < |ys|
    ensures multiset(Magnitudes(ys)) == multiset(Magnitudes(ys[..k] + ys[k + 1..])) + multiset{Abs(ys[k])}
  {
    var zs := Magnitudes(ys);
    RemoveOne(zs, k);
    assert Magnitudes(ys[..k] + ys[k + 1..]) == zs[..k] + zs[k + 1..];
  }

  /** The computed magnitude, corrected, is at least the exact one. */
  lemma ScaleCovers(d: Directed, u: real, eta: real, model: ErrorModel, mag: Tree, s: real)
    requires d.Sound() && 0.0 <= u && 0.0 <= eta && Rounded(mag, u, eta) && Leaves(mag) != [] && Covers(model, u, eta, |Leaves(mag)|)
    requires s == Total(Leaves(mag)) == Total(Magnitudes(Leaves(mag))) && model.gamma < 1.0
    ensures 0.0 <= s <= d.DivideUp(d.AddUp(Computed(mag), model.underflow), d.down(1.0 - model.gamma))
  {
    hide Times, Growth, Multiple, Covered, Rounded, Leaves, Magnitudes, Total, Computed, Directed.AddUp, Directed.DivideUp;
    TimesOne((2 * |Leaves(mag)|) as real);
    TreeWithinModel(model, u, eta, mag, 0.0, s);
    TimesOne(Abs(Computed(mag) - s));
    MagnitudeNonnegative(Leaves(mag));
    CorrectedScale(d, Computed(mag), s, model.gamma, model.underflow);
  }

  lemma CorrectedScale(d: Directed, magnitude: real, s: real, gamma: real, underflow: real)
    requires d.Sound() && 0.0 <= s && gamma < 1.0 && s - magnitude <= Times(gamma, s) + underflow
    ensures s <= d.DivideUp(d.AddUp(magnitude, underflow), d.down(1.0 - gamma))
  {
    hide Times, Directed.AddUp, Directed.DivideUp;
    var sum, den := d.AddUp(magnitude, underflow), d.down(1.0 - gamma);
    UpwardOps(d, magnitude, underflow);
    UpwardQuotient(d, sum, den);
    TimesDifference(1.0, gamma, s);
    TimesOne(s);
    TimesCommutes(gamma, s);
    Quotient(s, gamma, sum, den, d.DivideUp(sum, den));
  }

  lemma FinalSum(d: Directed, gc: real, gr: real, scale: real, s: real, uc: real, ur: real)
    requires d.Sound() && 0.0 <= gc && 0.0 <= gr && 0.0 <= s <= scale
    ensures Times(gc, s) + Times(gr, s) + (uc + ur) <= d.AddUp(d.MultiplyUp(d.AddUp(gc, gr), scale), d.AddUp(uc, ur))
  {
    hide Times, Directed.AddUp, Directed.MultiplyUp;
    var g := d.AddUp(gc, gr);
    UpwardOps(d, gc, gr);
    UpwardOps(d, g, scale);
    UpwardOps(d, uc, ur);
    UpwardOps(d, d.MultiplyUp(g, scale), d.AddUp(uc, ur));
    TimesLe(gc + gr, g, s);
    TimesLe(s, scale, g);
    TimesSum(gc, gr, s);
  }

  /** A cell as the reference loop leaves it. */
  ghost predicate ReferenceCell(cell: NumericCell, ref: Tree, mag: Tree, products: seq<real>, f: Format) {
    && Rounded(ref, f.Unit(), f.denormMin) && Rounded(mag, f.Unit(), f.denormMin)
    && Leaves(ref) == products && Leaves(mag) == Magnitudes(products)
    && cell.reference == Computed(ref) && cell.magnitude == Computed(mag) && cell.terms == |products|
  }

  lemma CombinedBound(d: Directed, candidate: Format, reference: Format, c: ErrorModel, r: ErrorModel, cell: NumericCell,
                      cand: Tree, ref: Tree, mag: Tree, products: seq<real>, w: real)
    requires d.Sound() && candidate.Valid() && reference.Valid() && ReferenceCell(cell, ref, mag, products, reference)
    requires Rounded(cand, candidate.Unit(), candidate.denormMin) && multiset(Leaves(cand)) == multiset(products)
    requires products != [] && 0.0 <= w && Times(w, (2 * |products|) as real) <= 0.5
    requires Covers(c, candidate.Unit(), candidate.denormMin, |products|)
    requires Covers(r, reference.Unit(), reference.denormMin, |products|) && r.gamma < 1.0
    ensures Times(1.0 + w, Abs(Computed(cand) - cell.reference)) + (candidate.denormMin + reference.denormMin) / 2.0 <=
            Combine(d, c, r, cell.magnitude)
  {
    hide Times, Growth, Multiple, Covered, Combine, Rounded, Abs, Total, Directed.AddUp, Directed.MultiplyUp, Directed.DivideUp;
    var s := Total(Magnitudes(products));
    SameSums(Leaves(cand), products);
    MagnitudesAgain(products);
    TreeWithinModel(c, candidate.Unit(), candidate.denormMin, cand, w, s);
    TreeWithinModel(r, reference.Unit(), reference.denormMin, ref, w, s);
    ScaleCovers(d, reference.Unit(), reference.denormMin, r, mag, s);
    CombineReals(d, c, r, cell.magnitude, Computed(cand), cell.reference, Total(products), s, w,
                 candidate.denormMin, reference.denormMin);
  }

  lemma CombineReals(d: Directed, c: ErrorModel, r: ErrorModel, magnitude: real, x: real, y: real, exact: real, s: real, w: real,
                     ec: real, er: real)
    requires d.Sound() && c.ErrorModel? && r.ErrorModel? && 0.0 <= c.gamma && 0.0 <= r.gamma < 1.0 && 0.0 <= w
    requires Times(1.0 + w, Abs(x - exact)) + ec / 2.0 <= Times(c.gamma, s) + c.underflow
    requires Times(1.0 + w, Abs(y - exact)) + er / 2.0 <= Times(r.gamma, s) + r.underflow
    requires 0.0 <= s <= d.DivideUp(d.AddUp(magnitude, r.underflow), d.down(1.0 - r.gamma))
    ensures Times(1.0 + w, Abs(x - y)) + (ec + er) / 2.0 <= Combine(d, c, r, magnitude)
  {
    hide Times, Abs, Directed.AddUp, Directed.MultiplyUp, Directed.DivideUp;
    FinalSum(d, c.gamma, r.gamma, d.DivideUp(d.AddUp(magnitude, r.underflow), d.down(1.0 - r.gamma)), s, c.underflow, r.underflow);
    TwoSides(x, y, exact, w);
  }

  lemma SameSums(xs: seq<real>, ys: seq<real>)
    requires multiset(xs) == multiset(ys)
    ensures |xs| == |ys| && Total(xs) == Total(ys) && Total(Magnitudes(xs)) == Total(Magnitudes(ys))
  {
    assert |multiset(xs)| == |multiset(ys)|;
    SumIgnoresOrder(xs, ys);
    MagnitudesIgnoreOrder(xs, ys);
    SumIgnoresOrder(Magnitudes(xs), Magnitudes(ys));
  }

  /** Whatever the order in which the candidate added the products, its difference from the
      sequential reference, even enlarged by 1 + w, is within the coordinate bound. */
  lemma BoundCoversEveryOrder(d: Directed, candidate: Format, reference: Format, cell: NumericCell, cand: Tree, ref: Tree, mag: Tree,
                              products: seq<real>, w: real)
    requires d.Sound() && candidate.Valid() && reference.Valid() && ReferenceCell(cell, ref, mag, products, reference)
    requires Rounded(cand, candidate.Unit(), candidate.denormMin) && multiset(Leaves(cand)) == multiset(products)
    requires products != [] && 0.0 <= w && Times(w, (2 * |products|) as real) <= 0.5
    requires CoordinateBound(d, candidate, reference, cell).Finite?
    ensures Times(1.0 + w, Abs(Computed(cand) - cell.reference)) + (candidate.denormMin + reference.denormMin) / 2.0 <=
            CoordinateBound(d, candidate, reference, cell).value
  {
    hide Times, Covers, Combine, ErrorModelOf, Rounded, Abs, Leaves;
    ModelCovers(d, candidate, cell.terms);
    ModelCovers(d, reference, cell.terms);
    CombinedBound(d, candidate, reference, ErrorModelOf(d, candidate, cell.terms), ErrorModelOf(d, reference, cell.terms),
                  cell, cand, ref, mag, products, w);
  }

  lemma TwoSides(x: real, y: real, exact: real, w: real)
    requires 0.0 <= w
    ensures Times(1.0 + w, Abs(x - y)) <= Times(1.0 + w, Abs(x - exact)) + Times(1.0 + w, Abs(y - exact))
  {
    hide Times;
    TimesLe(Abs(x - y), Abs(x - exact) + Abs(y - exact), 1.0 + w);
    TimesSum(Abs(x - exact), Abs(y - exact), 1.0 + w);
  }

  /** No correctly computed entry is rejected because of its summation order: the measured
      difference errorUpper, whatever its own small rounding, is within the bound. */
  lemma CorrectEntryIsAccepted(d: Directed, candidate: Format, reference: Format, cell: NumericCell, cand: Tree, ref: Tree, mag: Tree,
                               products: seq<real>, w: real, errorUpper: real)
    requires d.Sound() && candidate.Valid() && reference.Valid() && ReferenceCell(cell, ref, mag, products, reference)
    requires Rounded(cand, candidate.Unit(), candidate.denormMin) && multiset(Leaves(cand)) == multiset(products)
    requires 0.0 <= w && Times(w, (2 * |products|) as real) <= 0.5
    requires if Computed(cand) == cell.reference then errorUpper == 0.0
             else errorUpper <= Times(1.0 + w, Abs(Computed(cand) - cell.reference)) + (candidate.denormMin + reference.denormMin) / 2.0
    requires CoordinateBound(d, candidate, reference, cell).Finite?
    ensures errorUpper <= CoordinateBound(d, candidate, reference, cell).value
  {
    hide Times, CoordinateBound, Rounded, Leaves, Abs;
    if products == [] {
      EmptyCell(d, candidate, reference, cell, cand, ref, mag);
    } else {
      BoundCoversEveryOrder(d, candidate, reference, cell, cand, ref, mag, products, w);
      AbsNonnegative(Computed(cand) - cell.reference, w);
    }
  }

  lemma AbsNonnegative(x: real, w: real)
    requires 0.0 <= w
    ensures 0.0 <= Times(1.0 + w, Abs(x))
  {
    hide Times;
    TimesNonnegative(1.0 + w, Abs(x));
  }

  /** Where no product contributes both values are zero, and so is the bound. */
  lemma EmptyCell(d: Directed, candidate: Format, reference: Format, cell: NumericCell, cand: Tree, ref: Tree, mag: Tree)
    requires d.Sound() && candidate.Valid() && reference.Valid() && ReferenceCell(cell, ref, mag, [], reference)
    requires Rounded(cand, candidate.Unit(), candidate.denormMin) && multiset(Leaves(cand)) == multiset([])
    ensures Computed(cand) == cell.reference == 0.0 && CoordinateBound(d, candidate, reference, cell) == Finite(0.0)
  {
    hide Times, Rounded;
    assert |multiset(Leaves(cand))| == 0;
    TreeError(cand, candidate.Unit(), candidate.denormMin);
    TreeError(ref, reference.Unit(), reference.denormMin);
  }

  // ----- the term counts for which the bound is finite

  /** Outward rounding that moves a value little: by a factor 1 + w and a tiny step. */
  ghost predicate Tight(d: Directed, w: real, step: real) {
    && 0.0 <= w && 0.0 <= step
    && forall x: real :: 0.0 < x ==> d.up(x) <= Times(1.0 + w, x) + step && Times(1.0 - w, x) - step <= d.down(x)
  }

  /** 2 m u, enlarged twice, stays below 3/8. */
  ghost predicate FewTerms(f: Format, terms: nat, w: real) {
    Times(1.0 + w, Times(1.0 + w, Times(2.0 * terms as real, f.Unit()))) <= 0.375
  }

  lemma ScaledIsSmall(w: real, step: real, u: real, twice: real, operations: real, scaled: real)
    requires 0.0 <= w <= 0.125 && 0.0 <= step <= 0.01 && 0.0 <= u <= 1.0 && 0.0 <= operations
    requires operations <= Times(1.0 + w, twice) + step && scaled <= Times(1.0 + w, Times(operations, u)) + step
    requires Times(1.0 + w, Times(1.0 + w, Times(twice, u))) <= 0.375
    ensures scaled <= 0.4
  {
    hide Times;
    TimesLe(operations, Times(1.0 + w, twice) + step, u);
    TimesSum(Times(1.0 + w, twice), step, u);
    TimesAssociates(1.0 + w, twice, u);
    TimesLe(u, 1.0, step);
    TimesOne(step);
    TimesLe(Times(operations, u), Times(1.0 + w, Times(twice, u)) + step, 1.0 + w);
    TimesSum(Times(1.0 + w, Times(twice, u)), step, 1.0 + w);
    TimesLe(1.0 + w, 1.125, step);
    TimesLe(step, 0.01, 1.125);
    Constant();
  }

  lemma Constant()
    ensures Times(1.125, 0.01) <= 0.0125 && Times(0.875, 0.6) == 0.525 && Times(1.125, 0.78) <= 0.88
  {
  }

  lemma GammaIsSmall(w: real, step: real, scaled: real, denominator: real, gamma: real)
    requires 0.0 <= w <= 0.125 && 0.0 <= step <= 0.01 && 0.0 <= scaled <= 0.4 && 0.0 < denominator
    requires Times(1.0 - w, 1.0 - scaled) - step <= denominator && gamma <= Times(1.0 + w, scaled / denominator) + step
    ensures gamma < 1.0
  {
    hide Times;
    TimesLe(0.875, 1.0 - w, 1.0 - scaled);
    TimesLe(0.6, 1.0 - scaled, 0.875);
    Constant();
    QuotientBelow(scaled, denominator);
    TimesLe(scaled / denominator, 0.78, 1.0 + w);
    TimesLe(1.0 + w, 1.125, 0.78);
  }

  lemma QuotientBelow(x: real, y: real)
    requires 0.0 <= x <= 0.4 && 0.515 <= y
    ensures x / y <= 0.78
  {
    var q := x / y;
    assert q * y == x;
  }

  /** Enough room below one half makes the error model of a format usable. */
  lemma ModelIsUsable(d: Directed, f: Format, terms: nat, w: real, step: real)
    requires d.Sound() && f.Valid() && Tight(d, w, step) && w <= 0.125 && step <= 0.01 && f.Unit() <= 1.0
    requires FewTerms(f, terms, w)
    ensures ErrorModelOf(d, f, terms).ErrorModel? && ErrorModelOf(d, f, terms).gamma < 1.0
  {
    hide Times;
    var twice, u := 2.0 * terms as real, f.Unit();
    var operations := d.MultiplyUp(2.0, terms as real);
    var scaled := d.MultiplyUp(operations, u);
    UpwardProduct(d, 2.0, terms as real, w, step);
    TwiceIs(terms as real);
    UpwardProduct(d, operations, u, w, step);
    ScaledIsSmall(w, step, u, twice, operations, scaled);
    var denominator := d.down(1.0 - scaled);
    if scaled == 0.0 {
      assert d.DivideUp(scaled, denominator) == 0.0;
    } else {
      PositiveQuotient(scaled, denominator);
      GammaIsSmall(w, step, scaled, denominator, d.DivideUp(scaled, denominator));
    }
  }

  lemma TwiceIs(x: real)
    ensures Times(2.0, x) == 2.0 * x
  {
  }

  lemma PositiveQuotient(x: real, y: real)
    requires 0.0 < x && 0.0 < y
    ensures 0.0 < x / y
  {
  }

  lemma UpwardProduct(d: Directed, a: real, b: real, w: real, step: real)
    requires d.Sound() && Tight(d, w, step) && 0.0 <= a && 0.0 <= b
    ensures 0.0 <= d.MultiplyUp(a, b) <= Times(1.0 + w, Times(a, b)) + step
  {
    hide Times;
    TimesNonnegative(a, b);
    TimesNonnegative(1.0 + w, Times(a, b));
    if a != 0.0 && b != 0.0 {
      PositiveProduct(a, b);
    }
  }

  lemma PositiveProduct(a: real, b: real)
    requires 0.0 < a && 0.0 < b
    ensures 0.0 < Times(a, b)
  {
  }

  /** The bound is finite, so a decision is possible, for every term count with room in both formats. */
  lemma BoundIsFinite(d: Directed, candidate: Format, reference: Format, cell: NumericCell, w: real, step: real)
    requires d.Sound() && candidate.Valid() && reference.Valid() && Tight(d, w, step) && w <= 0.125 && step <= 0.01
    requires candidate.Unit() <= 1.0 && reference.Unit() <= 1.0
    requires FewTerms(candidate, cell.terms, w) && FewTerms(reference, cell.terms, w)
    ensures CoordinateBound(d, candidate, reference, cell).Finite?
  {
    hide ErrorModelOf, Combine;
    ModelIsUsable(d, candidate, cell.terms, w, step);
    ModelIsUsable(d, reference, cell.terms, w, step);
  }

  // ----- the reference loop of one cell

  /** A rounding function of a format: small error, and exact on what it produced itself. */
  ghost predicate Rounds(fl: real -> real, f: Format) {
    && (forall x: real :: Close(fl(x), x, f.Unit(), f.denormMin))
    && (forall x: real :: fl(fl(x)) == fl(x) && fl(Abs(fl(x))) == Abs(fl(x)))
  }

  /** The tree of a running sum after one more rounded product. */
  lemma RunningSum(t: Tree, x: real, fl: real -> real, f: Format, p: real)
    requires f.Valid() && Rounds(fl, f) && Rounded(t, f.Unit(), f.denormMin) && Close(p, x, f.Unit(), f.denormMin) && fl(p) == p
    requires Leaves(t) == [] ==> Computed(t) == 0.0
    ensures var next := Sum(t, Product(x, p), fl(Computed(t) + p));
            Rounded(next, f.Unit(), f.denormMin) && Leaves(next) == Leaves(t) + [x]
  {
    hide Times, Abs;
  }

  lemma AbsIsClose(p: real, x: real, u: real, eta: real)
    requires Close(p, x, u, eta)
    ensures Close(Abs(p), Abs(x), u, eta)
  {
    hide Times;
    assert Abs(Abs(x)) == Abs(x);
  }
}
