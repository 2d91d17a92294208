/** The seeded permutation of rows and columns: rejection sampling over SplitMix64 words, then a
    Fisher-Yates shuffle in place. */
module Permutation {
  import opened Arithmetic
  import opened Csr
  import opened SplitMix

  // ----- rejection sampling

  /** The largest multiple of `bound` not above 2^64. */
  function Limit(bound: nat): (limit: nat)
    requires bound > 0
    ensures limit <= Words
  {
    Words - Words % bound
  }

  /** Draws until the period returns to state zero, whose word is accepted by every bound. */
  ghost function Left(state: int): nat {
    if state % Words == 0 then Words else StepsTo(state, 0)
  }

  lemma StepShortens(state: int, bound: nat)
    requires 0 < bound <= Words && Mix(Advanced(state, 1)) >= Limit(bound)
    ensures Left(Advanced(state, 1)) < Left(state)
  {
    hide Mix;
    MixOfZero();
    var next, k := Advanced(state, 1), StepsTo(state, 0);
    if state % Words != 0 {
      StepsReach(state, 0);
      AdvancedAgain(state, k);
      StepsUnique(next, k - 1);
    }
  }

  lemma AdvancedAgain(state: int, k: nat)
    requires k > 0
    ensures Advanced(Advanced(state, 1), k - 1) == Advanced(state, k)
  {
    var x := state + Gamma;
    assert Advanced(state, 1) + (k - 1) * Gamma == state + k * Gamma - Words * (x / Words);
    Residue(state + k * Gamma - Words * (x / Words), (state + k * Gamma) / Words - x / Words, Advanced(state, k));
  }

  /** The state whose word is the first accepted one after `state`. */
  function NextAccepted(state: int, bound: nat): (next: nat)
    requires 0 < bound <= Words
    decreases Left(state)
  {
    if Mix(Advanced(state, 1)) < Limit(bound) then Advanced(state, 1)
    else
      StepShortens(state, bound);
      NextAccepted(Advanced(state, 1), bound)
  }

  ghost predicate FirstAt(state: int, bound: nat, k: nat)
    requires bound > 0
  {
    && 0 < k && Mix(Advanced(state, k)) < Limit(bound)
    && forall i: nat :: 0 < i < k ==> Mix(Advanced(state, i)) >= Limit(bound)
  }

  /** The sampler stops within one period, at the first word below the limit. */
  lemma {:induction false} SamplingTerminates(state: int, bound: nat) returns (k: nat)
    requires 0 < bound <= Words
    ensures 0 < k <= Left(state) <= Words && FirstAt(state, bound, k)
    ensures NextAccepted(state, bound) == Advanced(state, k)
    decreases Left(state)
  {
    hide Mix, Limit, Advanced;
    k := 1;
    LeftPositive(state);
    if Mix(Advanced(state, 1)) >= Limit(bound) {
      StepShortens(state, bound);
      k := SamplingTerminates(Advanced(state, 1), bound);
      forall i: nat | 0 < i < k + 1 ensures i > 1 ==> Mix(Advanced(state, i)) >= Limit(bound) {
        AdvancedAgain(state, i);
      }
      AdvancedAgain(state, k + 1);
      k := k + 1;
    }
  }

  lemma LeftPositive(state: int)
    ensures 0 < Left(state) <= Words
  {
    if state % Words != 0 {
      StepsReach(state, 0);
    }
  }

  /** The inner loop. */
  method Draw(state0: int, bound: nat) returns (state: nat, z: nat)
    requires 0 < bound <= Words
    ensures state == NextAccepted(state0, bound) && z == Mix(state)
  {
    var current := state0;
    while true
      invariant NextAccepted(current, bound) == NextAccepted(state0, bound)
      decreases Left(current)
    {
      state := Advanced(current, 1);
      z := Mix(state);
      if z < Limit(bound) {
        break;
      }
      StepShortens(current, bound);
      current := state;
    }
  }

  // ----- every residue is drawn from equally many words

  lemma {:induction false} SameSize(xs: set<nat>, ys: set<nat>, f: nat -> nat, g: nat -> nat)
    requires forall x :: x in xs ==> f(x) in ys && g(f(x)) == x
    requires forall y :: y in ys ==> g(y) in xs && f(g(y)) == y
    ensures |xs| == |ys|
  {
    if xs != {} {
      var x :| x in xs;
      SameSize(xs - {x}, ys - {f(x)}, f, g);
    } else {
      assert forall y :: y in ys ==> g(y) in xs;
      assert ys == {};
    }
  }

  ghost function Upto(n: nat): (s: set<nat>)
    ensures |s| == n && forall k: nat :: k in s <==> k < n
  {
    if n == 0 then {} else Upto(n - 1) + {n - 1}
  }

  lemma LimitQuotient(bound: nat, w: nat)
    requires 0 < bound
    ensures w < Limit(bound) <==> w / bound < Words / bound
  {
    var q, s := Words / bound, w / bound;
    assert Limit(bound) == q * bound;
    assert w == s * bound + w % bound;
    MulMonotone(s + 1, q, bound);
    MulDistributes(s, 1, bound);
    MulMonotone(q, s, bound);
  }

  /** Words accepted with a given residue. */
  ghost function WordsOf(bound: nat, j: nat): set<nat>
    requires bound > 0
  {
    set w | w in Upto(Limit(bound)) && w % bound == j
  }

  ghost function WordAt(bound: nat, j: nat, t: nat): nat {
    t * bound + j
  }

  ghost function Quotient(w: nat, bound: nat): nat
    requires bound > 0
  {
    w / bound
  }

  lemma WordOfQuotient(bound: nat, j: nat, t: nat)
    requires j < bound && t < Quotient(Words, bound)
    ensures WordAt(bound, j, t) in WordsOf(bound, j) && Quotient(WordAt(bound, j, t), bound) == t
  {
    hide Limit;
    ModUnique(t * bound + j, t, j, bound);
    LimitQuotient(bound, t * bound + j);
  }

  lemma QuotientOfWord(bound: nat, j: nat, w: nat)
    requires j < bound && w in WordsOf(bound, j)
    ensures Quotient(w, bound) < Quotient(Words, bound) && WordAt(bound, j, Quotient(w, bound)) == w
  {
    LimitQuotient(bound, w);
    DivModIdentity(w, bound);
  }

  lemma WordsPerResidue(bound: nat, j: nat)
    requires j < bound
    ensures |WordsOf(bound, j)| == Quotient(Words, bound)
  {
    hide Upto, WordsOf, WordAt, Quotient;
    var quotients := Upto(Quotient(Words, bound));
    var f, g := (t: nat) => WordAt(bound, j, t), (w: nat) => Quotient(w, bound);
    forall t | t in quotients ensures f(t) in WordsOf(bound, j) && g(f(t)) == t {
      WordOfQuotient(bound, j, t);
    }
    forall w | w in WordsOf(bound, j) ensures g(w) in quotients && f(g(w)) == w {
      QuotientOfWord(bound, j, w);
    }
    SameSize(quotients, WordsOf(bound, j), f, g);
  }

  /** The draws of one period that are accepted with residue j. */
  ghost function DrawsOf(seed: int, bound: nat, j: nat): set<nat>
    requires bound > 0
  {
    set k: nat | k < Words && Mix(Advanced(seed, k)) < Limit(bound) && Mix(Advanced(seed, k)) % bound == j
  }

  /** Over one period every residue below the bound is accepted equally often, whatever the seed. */
  lemma EqualResidues(seed: int, bound: nat, j: nat)
    requires j < bound
    ensures |DrawsOf(seed, bound, j)| == Words / bound
  {
    hide Mix, Advanced, StepsTo, Limit, Unmix, Upto;
    var f, g := (k: nat) => Mix(Advanced(seed, k)), (w: nat) => StepsTo(seed, Unmix(w));
    forall k | k in DrawsOf(seed, bound, j) ensures f(k) in WordsOf(bound, j) && g(f(k)) == k {
      UnmixAfter(Advanced(seed, k));
      StepsUnique(seed, k);
    }
    forall w | w in WordsOf(bound, j) ensures g(w) in DrawsOf(seed, bound, j) && f(g(w)) == w {
      UnmixBefore(w);
      StepsReach(seed, Unmix(w));
    }
    SameSize(DrawsOf(seed, bound, j), WordsOf(bound, j), f, g);
    WordsPerResidue(bound, j);
  }

  // ----- Fisher-Yates as a function of its draws

  function Swap(values: seq<nat>, i: nat, j: nat): (r: seq<nat>)
    requires i < |values| && j < |values|
    ensures |r| == |values|
  {
    values[i := values[j]][j := values[i]]
  }

  /** The draw for position i picks one of the positions up to i. */
  ghost predicate DrawsFit(draws: seq<nat>) {
    forall i :: 0 <= i < |draws| ==> draws[i] <= i
  }

  /** Positions |draws| - 1 down to 1, each exchanged with the one drawn for it. */
  ghost function Shuffle(values: seq<nat>, draws: seq<nat>): (r: seq<nat>)
    requires |draws| <= |values| && DrawsFit(draws)
    ensures |r| == |values|
    decreases |draws|
  {
    var i := |draws| - 1;
    if i < 1 then values else Shuffle(Swap(values, i, draws[i]), draws[..i])
  }

  lemma {:induction false} ShuffleKeepsValues(values: seq<nat>, draws: seq<nat>)
    requires |draws| <= |values| && DrawsFit(draws)
    ensures multiset(Shuffle(values, draws)) == multiset(values)
    decreases |draws|
  {
    var i := |draws| - 1;
    if i >= 1 {
      SwapKeepsValues(values, i, draws[i]);
      ShuffleKeepsValues(Swap(values, i, draws[i]), draws[..i]);
    }
  }

  lemma SwapKeepsValues(values: seq<nat>, i: nat, j: nat)
    requires i < |values| && j < |values|
    ensures multiset(Swap(values, i, j)) == multiset(values)
  {
  }

  lemma {:induction false} ShuffleKeepsTail(values: seq<nat>, draws: seq<nat>, p: nat)
    requires |draws| <= p < |values| && DrawsFit(draws)
    ensures Shuffle(values, draws)[p] == values[p]
    decreases |draws|
  {
    var i := |draws| - 1;
    if i >= 1 {
      ShuffleKeepsTail(Swap(values, i, draws[i]), draws[..i], p);
    }
  }

  lemma DistinctAt(values: seq<nat>, x: nat, y: nat)
    requires Distinct(values) && x < |values| && y < |values| && values[x] == values[y]
    ensures x == y
  {
  }

  lemma SwapDistinct(values: seq<nat>, i: nat, j: nat)
    requires i < |values| && j < |values| && Distinct(values)
    ensures Distinct(Swap(values, i, j))
  {
  }

  /** The value left at the drawn position's partner. */
  lemma ShuffleFixes(values: seq<nat>, draws: seq<nat>)
    requires 1 < |draws| <= |values| && DrawsFit(draws)
    ensures Shuffle(values, draws)[|draws| - 1] == values[draws[|draws| - 1]]
  {
    var i := |draws| - 1;
    ShuffleKeepsTail(Swap(values, i, draws[i]), draws[..i], i);
  }

  /** Different draws give different permutations. */
  lemma {:induction false} ShuffleInjective(values: seq<nat>, draws: seq<nat>, others: seq<nat>)
    requires Distinct(values) && |draws| == |others| <= |values| && DrawsFit(draws) && DrawsFit(others)
    requires Shuffle(values, draws) == Shuffle(values, others)
    ensures draws == others
    decreases |draws|
  {
    hide Swap, Distinct;
    var i := |draws| - 1;
    if i >= 1 {
      ShuffleFixes(values, draws);
      ShuffleFixes(values, others);
      DistinctAt(values, draws[i], others[i]);
      SwapDistinct(values, i, draws[i]);
      ShuffleInjective(Swap(values, i, draws[i]), draws[..i], others[..i]);
      assert draws == draws[..i] + [draws[i]] && others == others[..i] + [others[i]];
    }
  }

  /** The draws that lead to a given arrangement. */
  ghost function DrawsFor(values: seq<nat>, target: seq<nat>, n: nat): (draws: seq<nat>)
    requires Rearranged(values, target, n)
    ensures |draws| == n && DrawsFit(draws)
    decreases n
  {
    if n == 0 then []
    else
      var j := PositionOf(values, target, n);
      SwapRearranged(values, target, n);
      DrawsFor(Swap(values, n - 1, j), target, n - 1) + [j]
  }

  /** The same first n values in another order, and equal beyond. */
  ghost predicate Rearranged(values: seq<nat>, target: seq<nat>, n: nat) {
    && n <= |values| == |target| && multiset(values[..n]) == multiset(target[..n])
    && values[n..] == target[n..]
  }

  ghost function PositionOf(values: seq<nat>, target: seq<nat>, n: nat): (j: nat)
    requires Rearranged(values, target, n) && n > 0
    ensures j < n && values[j] == target[n - 1]
  {
    assert target[..n][n - 1] in multiset(target[..n]);
    assert target[n - 1] in values[..n];
    var j :| 0 <= j < n && values[..n][j] == target[n - 1];
    j
  }

  lemma SwapRearranged(values: seq<nat>, target: seq<nat>, n: nat)
    requires Rearranged(values, target, n) && n > 0
    ensures Rearranged(Swap(values, n - 1, PositionOf(values, target, n)), target, n - 1)
  {
    var j := PositionOf(values, target, n);
    var swapped, last := Swap(values, n - 1, j), target[n - 1];
    SwapKeepsValues(values[..n], n - 1, j);
    assert swapped[..n] == Swap(values[..n], n - 1, j);
    WithoutLast(swapped, target, n, last);
    assert swapped[n - 1..] == [last] + values[n..] && target[n - 1..] == [last] + target[n..];
  }

  lemma WithoutLast(xs: seq<nat>, ys: seq<nat>, n: nat, last: nat)
    requires 0 < n <= |xs| && n <= |ys| && multiset(xs[..n]) == multiset(ys[..n]) && xs[n - 1] == last == ys[n - 1]
    ensures multiset(xs[..n - 1]) == multiset(ys[..n - 1])
  {
    assert xs[..n] == xs[..n - 1] + [last] && ys[..n] == ys[..n - 1] + [last];
    assert multiset(xs[..n - 1]) == multiset(xs[..n]) - multiset{last};
    assert multiset(ys[..n - 1]) == multiset(ys[..n]) - multiset{last};
  }

  /** Every arrangement of the values is reached by some draws. */
  lemma {:induction false} ShuffleSurjective(values: seq<nat>, target: seq<nat>, n: nat)
    requires Rearranged(values, target, n)
    ensures Shuffle(values, DrawsFor(values, target, n)) == target
    decreases n
  {
    if n > 1 {
      var j := PositionOf(values, target, n);
      SwapRearranged(values, target, n);
      ShuffleSurjective(Swap(values, n - 1, j), target, n - 1);
      var draws := DrawsFor(values, target, n);
      assert draws[..n - 1] == DrawsFor(Swap(values, n - 1, j), target, n - 1);
    } else if n == 1 {
      assert values == values[..1] + values[1..] && target == target[..1] + target[1..];
      assert values[..1] == [values[0]] && target[..1] == [target[0]];
    } else {
      assert values == values[0..] && target == target[0..];
    }
  }

  /** Draw sequences and arrangements of distinct values correspond one to one. */
  lemma ShuffleBijective(values: seq<nat>, target: seq<nat>, draws: seq<nat>)
    requires Distinct(values) && |draws| == |values| && DrawsFit(draws)
    requires |target| == |values| && multiset(target) == multiset(values)
    ensures Rearranged(values, target, |values|)
    ensures Shuffle(values, draws) == target <==> draws == DrawsFor(values, target, |values|)
  {
    assert values[..|values|] == values && target[..|values|] == target;
    ShuffleSurjective(values, target, |values|);
    if Shuffle(values, draws) == target {
      ShuffleInjective(values, draws, DrawsFor(values, target, |values|));
    }
  }

  // ----- the program

  function Pick(z: nat, bound: nat): (j: nat)
    requires bound > 0
    ensures j < bound
  {
    z % bound
  }

  /** Position n - 1 draws first. */
  ghost function Draws(state: int, n: nat): (draws: seq<nat>)
    requires n <= Words
    ensures |draws| == n && DrawsFit(draws)
    decreases n
  {
    hide Mix, NextAccepted;
    if n == 0 then []
    else if n == 1 then [0]
    else
      var next := NextAccepted(state, n);
      Draws(next, n - 1) + [Pick(Mix(next), n)]
  }

  ghost function Identity(n: nat): (values: seq<nat>)
    ensures |values| == n && forall i :: 0 <= i < n ==> values[i] == i
  {
    seq(n, i => i)
  }

  /** Old index to new index.  An unsigned 32-bit array cannot hold more values than 2^32. */
  method Permutation(n: nat, seed: int) returns (result: Result<array<nat>>)
    ensures result.Ok? <==> n <= 0x1_0000_0000
    ensures result.Ok? ==> fresh(result.value) && result.value[..] == Shuffle(Identity(n), Draws(seed, n))
  {
    hide Shuffle, Draws, Mix, NextAccepted, Pick;
    if n > 0x1_0000_0000 {
      return Error("unsigned int is greater than maximum");
    }
    var values := new nat[n](i => i);
    assert values[..] == Identity(n);
    var state, i := seed, n - 1;
    while i > 0
      invariant -1 <= i < n && (n > 0 ==> i >= 0)
      invariant fresh(values) && values.Length == n
      invariant Shuffle(values[..], Draws(state, i + 1)) == Shuffle(Identity(n), Draws(seed, n))
    {
      var next, z := Draw(state, i + 1);
      var j := Pick(z, i + 1);
      ghost var before := values[..];
      ShuffleStep(before, state, i);
      values[i], values[j] := values[j], values[i];
      assert values[..] == Swap(before, i, j);
      state, i := next, i - 1;
    }
    ShuffleDone(values[..], Draws(state, i + 1));
    result := Ok(values);
  }

  lemma ShuffleDone(values: seq<nat>, draws: seq<nat>)
    requires |draws| <= 1 && |draws| <= |values| && DrawsFit(draws)
    ensures Shuffle(values, draws) == values
  {
  }

  lemma ShuffleStep(values: seq<nat>, state: int, i: nat)
    requires 0 < i < |values| && i < Words
    ensures var next := NextAccepted(state, i + 1);
            Shuffle(values, Draws(state, i + 1)) == Shuffle(Swap(values, i, Pick(Mix(next), i + 1)), Draws(next, i))
  {
    hide Mix, Pick, Swap;
    var draws := Draws(state, i + 1);
    assert draws[..i] == Draws(NextAccepted(state, i + 1), i);
  }

  /** The result is a bijection of [0, n). */
  lemma PermutationIsABijection(n: nat, seed: int)
    requires n <= Words
    ensures var p := Shuffle(Identity(n), Draws(seed, n));
            && |p| == n && Distinct(p) && (forall i :: 0 <= i < n ==> p[i] < n)
            && forall v: nat :: v < n ==> v in p
  {
    hide Shuffle, Draws, Identity, Mix;
    var p := Shuffle(Identity(n), Draws(seed, n));
    ShuffleKeepsValues(Identity(n), Draws(seed, n));
    forall v: nat ensures multiset(p)[v] == if v < n then 1 else 0 {
      IdentityCounts(n, v);
    }
    forall x, y | 0 <= x < y < n ensures p[x] != p[y] {
      if p[x] == p[y] {
        TwoCounted(p, x, y);
      }
    }
    forall i | 0 <= i < n ensures p[i] < n {
      assert p[i] in multiset(p);
    }
    forall v: nat | v < n ensures v in p {
      assert v in multiset(p);
    }
  }

  lemma {:induction false} IdentityCounts(n: nat, v: nat)
    ensures multiset(Identity(n))[v] == if v < n then 1 else 0
  {
    if n > 0 {
      IdentityCounts(n - 1, v);
      assert Identity(n) == Identity(n - 1) + [n - 1];
    }
  }

  lemma TwoCounted(p: seq<nat>, x: nat, y: nat)
    requires x < y < |p| && p[x] == p[y]
    ensures multiset(p)[p[x]] >= 2
  {
    assert p == p[..y] + [p[y]] + p[y + 1..];
    assert p[..y][x] in multiset(p[..y]);
  }
}
