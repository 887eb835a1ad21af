/** The trust graph as agents use it: endorsements come in, scores and paths go out. */
module TrustStore {
  import opened Wrappers
  import opened TrustGraph
  import opened TrustScore
  import opened TrustMeaning

  // ---------------------------------------------------------------- adding endorsements

  function Ensured(nodes: Nodes, fp: Fp): Nodes {
    if fp in nodes then nodes else nodes[fp := TrustNode([], [])]
  }

  function File(nodes: Nodes, e: Endorsement): Nodes
    requires e.endorser in nodes && e.endorsee in nodes
  {
    var given := nodes[e.endorser := nodes[e.endorser].(given := nodes[e.endorser].given + [e])];
    given[e.endorsee := given[e.endorsee].(received := given[e.endorsee].received + [e])]
  }

  function Added(nodes: Nodes, e: Endorsement): Nodes {
    File(Ensured(Ensured(nodes, e.endorser), e.endorsee), e)
  }

  /** Every endorsement is filed twice, under who gave it and under who received it. */
  ghost predicate TwoSided(nodes: Nodes) {
    && GivenByOwner(nodes)
    && ReceivedByOwner(nodes)
    && (forall e: Endorsement :: e.endorser in nodes && e.endorsee in nodes ==>
          multiset(nodes[e.endorser].given)[e] == multiset(nodes[e.endorsee].received)[e])
  }

  ghost predicate GivenByOwner(nodes: Nodes) {
    forall u <- nodes, e :: e in nodes[u].given ==> e.endorser == u && e.endorsee in nodes
  }

  ghost predicate ReceivedByOwner(nodes: Nodes) {
    forall v <- nodes, e :: e in nodes[v].received ==> e.endorsee == v && e.endorser in nodes
  }

  lemma AddKeepsTwoSided(nodes: Nodes, e: Endorsement)
    requires TwoSided(nodes)
    ensures TwoSided(Added(nodes, e))
  {
    hide TwoSided;
    EnsureKeepsTwoSided(nodes, e.endorser);
    EnsureKeepsTwoSided(Ensured(nodes, e.endorser), e.endorsee);
    FileKeepsTwoSided(Ensured(Ensured(nodes, e.endorser), e.endorsee), e);
  }

  lemma FileAt(nodes: Nodes, e: Endorsement, u: Fp)
    requires e.endorser in nodes && e.endorsee in nodes && u in nodes
    ensures u in File(nodes, e)
    ensures File(nodes, e)[u].given == nodes[u].given + (if u == e.endorser then [e] else [])
    ensures File(nodes, e)[u].received == nodes[u].received + (if u == e.endorsee then [e] else [])
  {}

  lemma FileKeepsTwoSided(nodes: Nodes, e: Endorsement)
    requires e.endorser in nodes && e.endorsee in nodes && TwoSided(nodes)
    ensures TwoSided(File(nodes, e))
  {
    var filed := File(nodes, e);
    assert filed.Keys == nodes.Keys;
    hide File;
    forall u, x | u in filed && x in filed[u].given ensures x.endorser == u && x.endorsee in filed {
      FileAt(nodes, e, u);
    }
    forall u, x | u in filed && x in filed[u].received ensures x.endorsee == u && x.endorser in filed {
      FileAt(nodes, e, u);
    }
    forall x: Endorsement | x.endorser in filed && x.endorsee in filed
      ensures multiset(filed[x.endorser].given)[x] == multiset(filed[x.endorsee].received)[x]
    {
      FileAt(nodes, e, x.endorser);
      FileAt(nodes, e, x.endorsee);
      Filed(nodes[x.endorser].given, nodes[x.endorsee].received, x, e, x.endorser == e.endorser, x.endorsee == e.endorsee);
    }
  }

  lemma Filed(g: seq<Endorsement>, r: seq<Endorsement>, x: Endorsement, e: Endorsement, mine: bool, toMe: bool)
    requires multiset(g)[x] == multiset(r)[x]
    requires x == e ==> mine && toMe
    ensures multiset(g + (if mine then [e] else []))[x] == multiset(r + (if toMe then [e] else []))[x]
  {
    assert multiset(g + [e]) == multiset(g) + multiset{e} && g + [] == g;
    assert multiset(r + [e]) == multiset(r) + multiset{e} && r + [] == r;
  }

  lemma EnsureKeepsTwoSided(nodes: Nodes, fp: Fp)
    requires TwoSided(nodes)
    ensures TwoSided(Ensured(nodes, fp))
  {
    var more := Ensured(nodes, fp);
    forall e: Endorsement | e.endorser in more && e.endorsee in more
      ensures multiset(more[e.endorser].given)[e] == multiset(more[e.endorsee].received)[e]
    {
      if e.endorser in nodes { assert more[e.endorser] == nodes[e.endorser]; }
      if e.endorsee in nodes { assert more[e.endorsee] == nodes[e.endorsee]; }
    }
  }

  /** An endorsement adds its own vouch, if it is of Tier 2, in the domain, not revoked, and not past the
      time it is valid until, if it has one; and nothing else. */
  lemma AddVouches(nodes: Nodes, e: Endorsement, domain: string, now: int, u: Fp, v: Fp)
    ensures Vouches(Added(nodes, e), domain, now, u, v)
       <==> || Vouches(nodes, domain, now, u, v)
            || (&& u == e.endorser && v == e.endorsee && e.tier == Tier2 && e.domain == domain
                && !e.revocation && (e.validUntil == 0 || now <= e.validUntil))
  {
    var added := Added(nodes, e);
    var before := if u in nodes then nodes[u].given else [];
    assert u in added ==> added[u].given == before + (if u == e.endorser then [e] else []);
    if Vouches(nodes, domain, now, u, v) {
      var x :| x in nodes[u].given && x.Carries(domain, now) && x.endorsee == v;
      assert x in added[u].given;
    }
    if e.Carries(domain, now) && u == e.endorser && v == e.endorsee {
      assert e in added[u].given;
    }
  }

  // ---------------------------------------------------------------- scores

  /** Endorsers whose endorsements carry, with what they give; nobody else has an entry. */
  ghost function AdjacencyOf(nodes: Nodes, domain: string, now: int): Graph {
    map u | u in nodes && EdgesOf(nodes[u].given, domain, now) != [] :: EdgesOf(nodes[u].given, domain, now)
  }

  lemma AdjacencyOfIs(nodes: Nodes, domain: string, now: int)
    ensures IsAdjacency(AdjacencyOf(nodes, domain, now), nodes, domain, now)
  {}

  ghost function FlowTo(nodes: Nodes, cfg: TrustConfig, domain: string, now: int, fp: Fp): Flow {
    Flow(AdjacencyOf(nodes, domain, now), cfg.damping, fp)
  }

  ghost function RawScore(nodes: Nodes, seeds: set<Fp>, cfg: TrustConfig, domain: string, now: int, fp: Fp): real {
    var f := FlowTo(nodes, cfg, domain, now, fp);
    WalkSum(f, AllWalks(f, seeds, cfg.maxHops))
  }

  function Degree(nodes: Nodes, fp: Fp): nat {
    if fp in nodes then |nodes[fp].received| + |nodes[fp].given| else 0
  }

  /** Every endorsement counts once for each of its two sides. */
  lemma DegreeCounts(nodes: Nodes, e: Endorsement, fp: Fp)
    ensures Degree(Added(nodes, e), fp)
         == Degree(nodes, fp) + (if fp == e.endorser then 1 else 0) + (if fp == e.endorsee then 1 else 0)
    ensures Degree(map[], fp) == 0
  {}

  function AtLeastOne(degree: nat): real {
    if degree == 0 then 1.0 else degree as real
  }

  /** Hub damping divides by this. */
  function Brake(cfg: TrustConfig, degree: nat): real {
    1.0 + cfg.alpha * AtLeastOne(degree)
  }

  function Boosted(base: real, degree: nat, beta: real): real {
    base * (1.0 + beta / (degree as real + 1.0))
  }

  function Clamp(x: real): real {
    if x < 0.0 then 0.0 else if x > 1.0 then 1.0 else x
  }

  /** Dividing by zero gives an infinity, which is clamped too, or for zero no number at all. */
  function Balanced(cfg: TrustConfig, base: real, degree: nat): Option<real> {
    var boosted, brake := Boosted(base, degree, cfg.beta), Brake(cfg, degree);
    if brake != 0.0 then Some(Clamp(boosted / brake))
    else if boosted > 0.0 then Some(1.0)
    else if boosted < 0.0 then Some(0.0)
    else None
  }

  lemma DampingPositive(cfg: TrustConfig, degree: nat)
    requires cfg.alpha >= 0.0
    ensures Brake(cfg, degree) > 0.0
  {
    assert cfg.alpha * AtLeastOne(degree) >= 0.0;
  }

  /** Balancing never turns some trust into none, nor none into some. */
  lemma BalancedSign(cfg: TrustConfig, base: real, degree: nat)
    requires cfg.alpha >= 0.0 && cfg.beta >= 0.0 && base >= 0.0
    ensures Balanced(cfg, base, degree).Some? && 0.0 <= Balanced(cfg, base, degree).value <= 1.0
    ensures Balanced(cfg, base, degree).value > 0.0 <==> base > 0.0
  {
    DampingPositive(cfg, degree);
    var d, b := Brake(cfg, degree), 1.0 + cfg.beta / (degree as real + 1.0);
    assert b >= 1.0;
    if base > 0.0 {
      ProductPositive(base, b);
      QuotientPositive(base * b, d);
    } else {
      assert base * b == 0.0;
    }
  }

  /** What a score must be, without dividing: with `d` endorsements received and given, what a full score
      takes is (1 + alpha * max(1, d)) * (d + 1), and what the raw score earns is raw * (d + 1 + beta). */
  ghost predicate Weighs(cfg: TrustConfig, raw: real, degree: nat, score: real) {
    var d := degree as real;
    var full, earned := (1.0 + cfg.alpha * (if degree <= 1 then 1.0 else d)) * (d + 1.0), raw * (d + 1.0 + cfg.beta);
    && (score == 0.0 <==> earned <= 0.0)
    && (score == 1.0 <==> full <= earned)
    && (0.0 < earned < full ==> score * full == earned)
  }

  /** The boosted score over the brake, before clamping. */
  function Quotient(cfg: TrustConfig, base: real, degree: nat): real
    requires Brake(cfg, degree) != 0.0
  {
    Boosted(base, degree, cfg.beta) / Brake(cfg, degree)
  }

  lemma QuotientEarns(cfg: TrustConfig, base: real, degree: nat)
    requires cfg.alpha >= 0.0
    ensures Brake(cfg, degree) > 0.0
    ensures var d := degree as real;
            Quotient(cfg, base, degree) * (Brake(cfg, degree) * (d + 1.0)) == base * (d + 1.0 + cfg.beta)
  {
    DampingPositive(cfg, degree);
    var d, brake := degree as real + 1.0, Brake(cfg, degree);
    var boosted := Boosted(base, degree, cfg.beta);
    DivMul(boosted, brake);
    DivMul(cfg.beta, d);
    var q := boosted / brake;
    assert q * (brake * d) == q * brake * d by { Assoc(q, brake, d); }
    assert boosted * d == base * ((1.0 + cfg.beta / d) * d) by { Assoc(base, 1.0 + cfg.beta / d, d); }
    assert (1.0 + cfg.beta / d) * d == d + cfg.beta / d * d;
  }

  lemma DivMul(a: real, b: real)
    requires b != 0.0
    ensures a / b * b == a
  {}

  lemma Assoc(a: real, b: real, c: real)
    ensures a * (b * c) == a * b * c
  {}

  /** Multiplying by something positive keeps the order. */
  lemma ScaleOrder(a: real, b: real, c: real)
    requires c > 0.0
    ensures a * c < b * c <==> a < b
    ensures a * c == b * c <==> a == b
  {
    if a < b { ProductPositive(b - a, c); }
    if b < a { ProductPositive(a - b, c); }
  }

  /** Balancing gives exactly the score that weighs what was earned. */
  lemma BalancedWeighs(cfg: TrustConfig, base: real, degree: nat)
    requires cfg.alpha >= 0.0 && cfg.beta >= 0.0
    ensures Balanced(cfg, base, degree).Some? && Weighs(cfg, base, degree, Balanced(cfg, base, degree).value)
  {
    QuotientEarns(cfg, base, degree);
    BrakeIs(cfg, degree);
    var d := degree as real;
    var q, brake := Quotient(cfg, base, degree), Brake(cfg, degree);
    assert Balanced(cfg, base, degree) == Some(Clamp(q));
    hide Brake, Boosted, Quotient, Balanced, Clamp;
    ProductPositive(brake, d + 1.0);
    ClampWeighs(q, brake * (d + 1.0), base * (d + 1.0 + cfg.beta));
  }

  lemma ClampWeighs(q: real, full: real, earned: real)
    requires full > 0.0 && q * full == earned
    ensures Clamp(q) == 0.0 <==> earned <= 0.0
    ensures Clamp(q) == 1.0 <==> full <= earned
    ensures 0.0 < earned < full ==> Clamp(q) * full == earned
  {
    SignOf(q, full);
    OneOf(q, full, earned);
    ClampCases(q, full, earned);
    hide Clamp;
  }

  lemma ClampCases(q: real, full: real, earned: real)
    requires (earned <= 0.0 <==> q <= 0.0) && (full <= earned <==> 1.0 <= q)
    ensures Clamp(q) == 0.0 <==> earned <= 0.0
    ensures Clamp(q) == 1.0 <==> full <= earned
    ensures 0.0 < earned < full ==> Clamp(q) == q
  {}

  lemma SignOf(q: real, full: real)
    requires full > 0.0
    ensures q * full <= 0.0 <==> q <= 0.0
  {
    if q > 0.0 { ProductPositive(q, full); } else { NonPositive(q, full); }
  }

  lemma OneOf(q: real, full: real, earned: real)
    requires full > 0.0 && q * full == earned
    ensures full <= earned <==> 1.0 <= q
  {
    var short := full - earned;
    assert (1.0 - q) * full == short;
    SignOf(1.0 - q, full);
  }

  lemma BrakeIs(cfg: TrustConfig, degree: nat)
    ensures Brake(cfg, degree) == 1.0 + cfg.alpha * (if degree <= 1 then 1.0 else degree as real)
  {
    assert AtLeastOne(degree) == if degree <= 1 then 1.0 else degree as real;
  }

  /** A larger degree never raises a score, and lowers one that is positive and below 1 exactly when the boost
      for few endorsements is on, or the brake is on and has begun to grip. */
  lemma DegreeLowers(cfg: TrustConfig, raw: real, low: nat, high: nat)
    requires cfg.alpha >= 0.0 && cfg.beta >= 0.0 && raw > 0.0 && low < high
    ensures Balanced(cfg, raw, low).Some? && Balanced(cfg, raw, high).Some?
    ensures var few, many := Balanced(cfg, raw, low).value, Balanced(cfg, raw, high).value;
            && many <= few
            && (few < 1.0 ==> (many < few <==> cfg.beta > 0.0 || (cfg.alpha > 0.0 && high >= 2)))
  {
    DampingPositive(cfg, low);
    DampingPositive(cfg, high);
    QuotientSplit(cfg, raw, low);
    QuotientSplit(cfg, raw, high);
    var f1, f2 := BoostFactor(cfg, low), BoostFactor(cfg, high);
    var g1, g2 := Brake(cfg, low), Brake(cfg, high);
    BoostFalls(cfg, low, high);
    BrakeRises(cfg, low, high);
    var q1, q2 := Quotient(cfg, raw, low), Quotient(cfg, raw, high);
    assert q2 <= q1 && (q2 < q1 <==> f2 < f1 || g1 < g2) && q2 > 0.0 by {
      hide Quotient, BoostFactor, Brake;
      Falls(raw, f1, f2, g1, g2, q1, q2);
    }
    assert Balanced(cfg, raw, low) == Some(Clamp(q1)) && Balanced(cfg, raw, high) == Some(Clamp(q2));
    hide Quotient, BoostFactor, Brake, Balanced;
  }

  function BoostFactor(cfg: TrustConfig, degree: nat): real {
    1.0 + cfg.beta / (degree as real + 1.0)
  }

  lemma QuotientSplit(cfg: TrustConfig, raw: real, degree: nat)
    requires Brake(cfg, degree) > 0.0
    ensures Quotient(cfg, raw, degree) * Brake(cfg, degree) == raw * BoostFactor(cfg, degree)
  {
    DivMul(Boosted(raw, degree, cfg.beta), Brake(cfg, degree));
  }

  lemma BoostFalls(cfg: TrustConfig, low: nat, high: nat)
    requires cfg.beta >= 0.0 && low < high
    ensures 1.0 <= BoostFactor(cfg, high) <= BoostFactor(cfg, low)
    ensures BoostFactor(cfg, high) < BoostFactor(cfg, low) <==> cfg.beta > 0.0
  {
    var a, b := low as real + 1.0, high as real + 1.0;
    var x, y := cfg.beta / a, cfg.beta / b;
    DivMul(cfg.beta, a);
    DivMul(cfg.beta, b);
    if cfg.beta > 0.0 {
      QuotientPositive(cfg.beta, a);
      QuotientPositive(cfg.beta, b);
      if y >= x {
        ScaleOrder(a, b, x);
        ScaleOrder(x, y, b);
      }
    } else {
      assert x == 0.0 && y == 0.0;
    }
  }

  lemma BrakeRises(cfg: TrustConfig, low: nat, high: nat)
    requires cfg.alpha >= 0.0 && low < high
    ensures 1.0 <= Brake(cfg, low) <= Brake(cfg, high)
    ensures Brake(cfg, low) < Brake(cfg, high) <==> cfg.alpha > 0.0 && high >= 2
  {
    var a, b := AtLeastOne(low), AtLeastOne(high);
    assert 1.0 <= a <= b && (a < b <==> high >= 2);
    if cfg.alpha > 0.0 {
      ProductPositive(a, cfg.alpha);
      ScaleOrder(a, b, cfg.alpha);
    }
  }

  lemma Falls(raw: real, f1: real, f2: real, g1: real, g2: real, q1: real, q2: real)
    requires raw > 0.0 && 1.0 <= f2 <= f1 && 1.0 <= g1 <= g2 && q1 * g1 == raw * f1 && q2 * g2 == raw * f2
    ensures q2 <= q1 && q2 > 0.0 && (q2 < q1 <==> f2 < f1 || g1 < g2)
  {
    ProductPositive(raw, f1);
    ProductPositive(raw, f2);
    if q1 <= 0.0 { NonPositive(q1, g1); }
    if q2 <= 0.0 { NonPositive(q2, g2); }
    ScaleOrder(f2, f1, raw);
    ScaleOrder(q1, q2, g2);
    ScaleOrder(g1, g2, q1);
  }

  lemma NonPositive(a: real, b: real)
    requires a <= 0.0 && b > 0.0
    ensures a * b <= 0.0
  {}

  lemma QuotientPositive(a: real, b: real)
    requires a > 0.0 && b > 0.0
    ensures a / b > 0.0
  {}

  ghost predicate Confident(nodes: Nodes) {
    forall u <- nodes, e :: e in nodes[u].given ==> e.confidence > 0.0
  }

  lemma ConfidentFlow(nodes: Nodes, cfg: TrustConfig, domain: string, now: int, fp: Fp)
    requires Confident(nodes) && cfg.damping > 0.0
    ensures Positive(FlowTo(nodes, cfg, domain, now, fp))
  {
    var g := AdjacencyOf(nodes, domain, now);
    forall u, i | 0 <= i < |Out(g, u)| ensures Out(g, u)[i].confidence > 0.0 {
      EdgesOfGiven(nodes[u].given, domain, now);
      var x := Out(g, u)[i];
      assert Edge(x.to, x.confidence) in EdgesOf(nodes[u].given, domain, now);
    }
  }

  /** The two searches agree: an agent that is no seed has a positive score exactly when some seed
      has a trust path to it within the hop limit. */
  lemma PositiveScoreIffPath(nodes: Nodes, seeds: set<Fp>, cfg: TrustConfig, domain: string, now: int, fp: Fp)
    requires fp !in seeds && Confident(nodes)
    requires cfg.damping > 0.0 && cfg.alpha >= 0.0 && cfg.beta >= 0.0
    ensures var score := Balanced(cfg, RawScore(nodes, seeds, cfg, domain, now, fp), Degree(nodes, fp));
            && score.Some? && 0.0 <= score.value <= 1.0
            && (score.value > 0.0 <==>
                  exists s, p :: s in seeds && IsTrustPath(nodes, domain, now, s, fp, p) && |p| - 1 <= cfg.maxHops)
  {
    hide *;
    var f := FlowTo(nodes, cfg, domain, now, fp);
    FlowIs(nodes, cfg, domain, now, fp);
    ConfidentFlow(nodes, cfg, domain, now, fp);
    RawPositiveIffPath(f, seeds, cfg.maxHops);
    RawIs(nodes, seeds, cfg, domain, now, fp);
    BalancedSign(cfg, RawScore(nodes, seeds, cfg, domain, now, fp), Degree(nodes, fp));
    AdjacencyOfIs(nodes, domain, now);
    forall s, p ensures Connects(f.g, s, fp, p) <==> IsTrustPath(nodes, domain, now, s, fp, p) {
      TrustPathConnects(f.g, nodes, domain, now, s, fp, p);
    }
  }

  lemma ClampTwice(cfg: TrustConfig, base: real, degree: nat)
    ensures var r := Balanced(cfg, base, degree); r.Some? ==> Clamp(r.value) == r.value
  {}

  lemma FlowIs(nodes: Nodes, cfg: TrustConfig, domain: string, now: int, fp: Fp)
    ensures FlowTo(nodes, cfg, domain, now, fp) == Flow(AdjacencyOf(nodes, domain, now), cfg.damping, fp)
  {}

  lemma RawIs(nodes: Nodes, seeds: set<Fp>, cfg: TrustConfig, domain: string, now: int, fp: Fp)
    ensures var f := FlowTo(nodes, cfg, domain, now, fp);
            RawScore(nodes, seeds, cfg, domain, now, fp) == WalkSum(f, AllWalks(f, seeds, cfg.maxHops))
  {}

  // ---------------------------------------------------------------- the graph object

  class Store {
    var nodes: Nodes
    const seeds: set<Fp>
    const cfg: TrustConfig

    constructor (seeds: set<Fp>, cfg: TrustConfig)
      ensures nodes == map[] && TwoSided(nodes)
      ensures this.seeds == seeds && this.cfg == cfg
    {
      nodes := map[];
      this.seeds, this.cfg := seeds, cfg;
    }

    method EnsureNode(fp: Fp)
      modifies this
      ensures nodes == Ensured(old(nodes), fp)
    {
      if fp !in nodes {
        nodes := nodes[fp := TrustNode([], [])];
      }
    }

    method AddEndorsement(e: Endorsement)
      requires TwoSided(nodes)
      modifies this
      ensures nodes == Added(old(nodes), e) && TwoSided(nodes)
    {
      AddKeepsTwoSided(nodes, e);
      EnsureNode(e.endorser);
      EnsureNode(e.endorsee);
      var giver := nodes[e.endorser];
      nodes := nodes[e.endorser := giver.(given := giver.given + [e])];
      var receiver := nodes[e.endorsee];
      nodes := nodes[e.endorsee := receiver.(received := receiver.received + [e])];
    }

    method Adjacency(domain: string, now: int) returns (g: Graph)
      ensures g == AdjacencyOf(nodes, domain, now)
    {
      g := map[];
      var rest := nodes.Keys;
      while rest != {}
        invariant rest <= nodes.Keys
        invariant g.Keys == (set u | u in nodes && u !in rest && EdgesOf(nodes[u].given, domain, now) != [])
        invariant forall u <- g :: g[u] == EdgesOf(nodes[u].given, domain, now)
      {
        var fp :| fp in rest;
        rest := rest - {fp};
        var given := nodes[fp].given;
        var edges: seq<Edge> := [];
        for i := 0 to |given|
          invariant edges == EdgesOf(given[..i], domain, now)
        {
          assert given[..i + 1][..i] == given[..i];
          var e := given[i];
          if e.tier == Tier2 && e.domain == domain && e.IsValid(now) {
            edges := edges + [Edge(e.endorsee, e.confidence)];
          }
        }
        assert given[..|given|] == given;
        if edges != [] {
          g := g[fp := edges];
        }
      }
    }

    /** A shortest trust path, or none exactly when there is no trust path. */
    method ShortestTrustPath(from: Fp, to: Fp, domain: string, now: int) returns (r: Option<seq<Fp>>)
      ensures r.Some? ==> IsTrustPath(nodes, domain, now, from, to, r.value)
      ensures r.Some? ==> forall p :: IsTrustPath(nodes, domain, now, from, to, p) ==> |r.value| <= |p|
      ensures r.None? ==> forall p :: !IsTrustPath(nodes, domain, now, from, to, p)
    {
      var g := Adjacency(domain, now);
      AdjacencyOfIs(nodes, domain, now);
      r := Search(g, from, to);
      forall p ensures Connects(g, from, to, p) <==> IsTrustPath(nodes, domain, now, from, to, p) {
        TrustPathConnects(g, nodes, domain, now, from, to, p);
      }
    }

    /** None stands for a score that is not a number. */
    method TrustScore(fp: Fp, domain: string, now: int) returns (score: Option<real>)
      ensures fp in seeds ==> score == Some(1.0)
      ensures fp !in seeds ==>
                score == Balanced(cfg, RawScore(nodes, seeds, cfg, domain, now, fp), Degree(nodes, fp))
      ensures fp !in seeds && cfg.alpha >= 0.0 && cfg.beta >= 0.0 ==>
                && score.Some?
                && Weighs(cfg, RawScore(nodes, seeds, cfg, domain, now, fp), Degree(nodes, fp), score.value)
    {
      hide Weighs, Brake, Balanced, Clamp, WalkSum, AllWalks, RawScore, AdjacencyOf;
      if fp in seeds {
        return Some(1.0);
      }
      var g := Adjacency(domain, now);
      var raw := Propagate(Flow(g, cfg.damping, fp), seeds, cfg.maxHops);
      var balanced := Balanced(cfg, raw, Degree(nodes, fp));
      score := if balanced.Some? then Some(Clamp(balanced.value)) else None;
      RawIs(nodes, seeds, cfg, domain, now, fp);
      ClampTwice(cfg, raw, Degree(nodes, fp));
      if cfg.alpha >= 0.0 && cfg.beta >= 0.0 { BalancedWeighs(cfg, raw, Degree(nodes, fp)); }
    }
  }
}
