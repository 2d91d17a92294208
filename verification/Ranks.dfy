/** The family of ranks, and the plan's sources and targets in terms of coordinates. */
module Ranks {
  import opened Arithmetic
  import opened Grid

  datatype Config = Config(side: nat, nodeSize: nat, products: nat)

  datatype Rank = Rank(i: nat, j: nat, k: nat)

  predicate InGrid(cfg: Config, r: Rank) {
    r.i < cfg.side && r.j < cfg.side && r.k < cfg.nodeSize
  }

  /** f with one value replaced. */
  ghost function Set<K(!new), V(!new)>(f: K -> V, key: K, value: V): K -> V {
    k => if k == key then value else f(k)
  }

  /** Owner of the A tile (or B slice) rank r uses in a stage. */
  function Source(cfg: Config, r: Rank, forA: bool, stage: nat): Rank
    requires InGrid(cfg, r)
  {
    var inner := Inner(r.i, r.j, stage, cfg.side);
    if forA then Rank(r.i, inner, r.k) else Rank(inner, r.j, r.k)
  }

  /** The rank that uses r's A tile (or B slice) in a stage. */
  function Target(cfg: Config, r: Rank, forA: bool, stage: nat): Rank
    requires InGrid(cfg, r)
  {
    WrapIsModulo(r.j - r.i - stage, cfg.side);
    WrapIsModulo(r.i - r.j - stage, cfg.side);
    if forA then Rank(r.i, Wrap(r.j - r.i - stage, cfg.side), r.k) else Rank(Wrap(r.i - r.j - stage, cfg.side), r.j, r.k)
  }

  /** In every stage sources and targets are inverse permutations of the ranks. */
  lemma TargetInvertsSource(cfg: Config, r: Rank, o: Rank, forA: bool, stage: nat)
    requires InGrid(cfg, r) && InGrid(cfg, o)
    ensures InGrid(cfg, Source(cfg, r, forA, stage)) && InGrid(cfg, Target(cfg, o, forA, stage))
    ensures Source(cfg, r, forA, stage) == o <==> Target(cfg, o, forA, stage) == r
  {
    DivModIdentity(r.i + r.j + stage, cfg.side);
    WrapIsModulo(o.j - o.i - stage, cfg.side);
    WrapIsModulo(o.i - o.j - stage, cfg.side);
    ATargetInvertsASource(r.i, r.j, o.j, stage, cfg.side);
    BTargetInvertsBSource(r.i, r.j, o.i, stage, cfg.side);
  }

  /** Over the stages of a product a rank uses the tile of every rank in its row (column) exactly once. */
  lemma EachSourceOnce(cfg: Config, r: Rank, forA: bool, h: nat) returns (stage: nat)
    requires InGrid(cfg, r) && h < cfg.side
    ensures stage < cfg.side && Source(cfg, r, forA, stage) == if forA then Rank(r.i, h, r.k) else Rank(h, r.j, r.k)
    ensures forall t: nat :: t < cfg.side && Source(cfg, r, forA, t) == Source(cfg, r, forA, stage) ==> t == stage
  {
    stage := EachInnerOnce(r.i, r.j, h, cfg.side);
  }

  // ----- how far the ranks have come

  /** A place in a run; an earlier component outweighs a later one. */
  datatype Place = Place(major: nat, middle: nat, minor: nat)

  predicate NotAhead(x: Place, y: Place) {
    x.major < y.major ||
    (x.major == y.major && (x.middle < y.middle || (x.middle == y.middle && x.minor <= y.minor)))
  }

  lemma {:induction false} Least(place: Rank -> Place, ranks: set<Rank>, some: Rank) returns (c: Rank)
    requires some in ranks
    ensures c in ranks && forall r :: r in ranks ==> NotAhead(place(c), place(r))
    decreases |ranks|
  {
    var rest := ranks - {some};
    c := some;
    if rest != {} {
      var other :| other in rest;
      var least := Least(place, rest, other);
      c := if NotAhead(place(some), place(least)) then some else least;
      forall r | r in ranks ensures NotAhead(place(c), place(r)) {
        assert r != some ==> r in rest;
      }
    } else {
      forall r | r in ranks ensures r == some {
        assert r != some ==> r in rest;
      }
    }
  }

  /** Some rank is not ahead of any other. */
  lemma Laggard(cfg: Config, place: Rank -> Place, some: Rank) returns (c: Rank)
    requires InGrid(cfg, some)
    ensures InGrid(cfg, c) && forall r :: InGrid(cfg, r) ==> NotAhead(place(c), place(r))
  {
    var ranks := set i: nat, j: nat, k: nat | i < cfg.side && j < cfg.side && k < cfg.nodeSize :: Rank(i, j, k);
    forall r | InGrid(cfg, r) ensures r in ranks {
      assert r == Rank(r.i, r.j, r.k);
    }
    c := Least(place, ranks, some);
  }

  /** A rank leaves its n-th barrier only once every rank has entered its n-th barrier. */
  ghost predicate BarrierOpen(cfg: Config, entered: Rank -> nat, r: Rank) {
    forall y: Rank :: InGrid(cfg, y) ==> entered(y) >= entered(r)
  }

  // ----- rounds of a whole run

  /** Rounds in `products` whole products. */
  ghost function Rounds(side: nat, products: nat): nat {
    if products == 0 then 0 else Rounds(side, products - 1) + side
  }

  lemma {:induction false} RoundsMonotone(side: nat, p: nat, q: nat)
    requires p <= q
    ensures Rounds(side, p) <= Rounds(side, q)
  {
    if p < q {
      RoundsMonotone(side, p, q - 1);
    }
  }

  lemma RoundOrder(side: nat, p: nat, s: nat, q: nat, t: nat)
    requires s < side
    ensures p < q ==> Rounds(side, p) + s < Rounds(side, q) + t
  {
    if p < q {
      RoundsMonotone(side, p + 1, q);
    }
  }

  /** The number of a round determines its product and its stage. */
  lemma RoundDigits(side: nat, p: nat, s: nat, q: nat, t: nat)
    requires s < side && t < side && Rounds(side, p) + s == Rounds(side, q) + t
    ensures p == q && s == t
  {
    RoundOrder(side, p, s, q, t);
    RoundOrder(side, q, t, p, s);
  }
}
