/**
 Node selection of matchmaker/service.go: candidates from the store, the eligibility filter, and the choice by
 weight. Weights carry the infinities and the not-a-number value that floating-point division by zero yields,
 because a node's load can be -1.
 */
module NodeSelection {
  import opened Wrappers
  import opened Breaker

  // ----- Weights

  datatype Weight = Finite(value: real) | PosInf | NegInf | NaN

  /** Floating-point ">": a comparison with not-a-number is false. */
  predicate Greater(a: Weight, b: Weight) {
    match (a, b)
    case (Finite(x), Finite(y)) => x > y
    case (PosInf, Finite(_)) => true
    case (PosInf, NegInf) => true
    case (Finite(_), NegInf) => true
    case _ => false
  }

  /** What selection reads about one node. The decay factor is there when the node's metadata is. */
  datatype Facts = Facts(load: int, reputation: real, decay: Option<real>, health: Option<real>)

  function Merit(f: Facts): real {
    var reputation := if f.decay.Some? then f.reputation * f.decay.value else f.reputation;
    reputation * if f.health.Some? then f.health.value / 100.0 else 1.0
  }

  function Quotient(m: real, d: int): Weight {
    if d != 0 then Finite(m / d as real)
    else if m > 0.0 then PosInf
    else if m < 0.0 then NegInf
    else NaN
  }

  function WeightOf(f: Facts): Weight {
    Quotient(Merit(f), f.load + 1)
  }

  /** Where the search for the best weight starts; a node at or below it is never chosen by weight. */
  const FLOOR: Weight := Finite(-1.0)

  /** Position i is chosen by weight: above the floor, above every comparable weight before it, and not below any
      after it. */
  ghost predicate FirstBest(ws: seq<Weight>, i: int) {
    && 0 <= i < |ws|
    && Greater(ws[i], FLOOR)
    && (forall j | 0 <= j < i :: ws[j].NaN? || Greater(ws[i], ws[j]))
    && (forall j | i < j < |ws| :: !Greater(ws[j], ws[i]))
  }

  function Weights(nodes: seq<string>, facts: map<string, Facts>): (ws: seq<Weight>)
    requires forall n | n in nodes :: n in facts
  {
    seq(|nodes|, i requires 0 <= i < |nodes| => WeightOf(facts[nodes[i]]))
  }

  // ----- The choice

  datatype Failure =
    CityLookupFailed | CountryLookupFailed | NoCandidates | NoneEligible | NothingToDrawFrom | DrawFailed | MetaMissing

  /** A uniform draw, taken modulo the number of nodes, or a failure of the generator. */
  function RandomSelect(nodes: seq<string>, draw: Option<nat>): Result<string, Failure> {
    if nodes == [] then Err(NothingToDrawFrom)
    else if draw.None? then Err(DrawFailed)
    else Ok(nodes[draw.value % |nodes|])
  }

  /** The node chosen by weight, unless its name is empty, which the code takes for no choice; else the draw. */
  ghost predicate Selects(nodes: seq<string>, facts: map<string, Facts>, draw: Option<nat>, r: Result<string, Failure>)
    requires forall n | n in nodes :: n in facts
  {
    var ws := Weights(nodes, facts);
    && (forall i | FirstBest(ws, i) :: r == if nodes[i] != "" then Ok(nodes[i]) else RandomSelect(nodes, draw))
    && ((forall i :: !FirstBest(ws, i)) ==> r == RandomSelect(nodes, draw))
  }

  method SelectByLoad(nodes: seq<string>, facts: map<string, Facts>, draw: Option<nat>)
      returns (r: Result<string, Failure>)
    requires forall n | n in nodes :: n in facts
    ensures Selects(nodes, facts, draw, r)
  {
    var candidates: seq<(string, Weight)> := [];
    ghost var ws := Weights(nodes, facts);
    for i := 0 to |nodes|
      invariant |candidates| == i
      invariant forall j | 0 <= j < i :: candidates[j] == (nodes[j], ws[j])
    {
      candidates := candidates + [(nodes[i], WeightOf(facts[nodes[i]]))];
    }
    var bestWeight, selected := FLOOR, "";
    ghost var best := -1;
    for i := 0 to |candidates|
      invariant -1 <= best < i
      invariant best == -1 ==> bestWeight == FLOOR && selected == ""
      invariant best >= 0 ==> FirstBest(ws[..i], best) && bestWeight == ws[best] && selected == nodes[best]
      invariant forall j | 0 <= j < i :: !Greater(ws[j], bestWeight)
    {
      if Greater(candidates[i].1, bestWeight) {
        bestWeight, selected := candidates[i].1, candidates[i].0;
        best := i;
      }
    }
    assert ws[..|ws|] == ws;
    OnlyFirstBest(ws, best);
    if selected == "" {
      r := Draw(nodes, draw);
    } else {
      r := Ok(selected);
    }
  }

  method Draw(nodes: seq<string>, draw: Option<nat>) returns (r: Result<string, Failure>)
    ensures r == RandomSelect(nodes, draw)
  {
    if |nodes| == 0 {
      return Err(NothingToDrawFrom);
    }
    if draw.None? {
      return Err(DrawFailed);
    }
    r := Ok(nodes[draw.value % |nodes|]);
  }

  lemma OnlyFirstBest(ws: seq<Weight>, best: int)
    requires best >= -1
    requires best >= 0 ==> FirstBest(ws, best)
    requires best == -1 ==> forall j | 0 <= j < |ws| :: !Greater(ws[j], FLOOR)
    ensures forall i :: FirstBest(ws, i) <==> (i == best && best >= 0)
  {
  }

  lemma {:induction false} SomeFirstBest(ws: seq<Weight>)
    requires exists j :: 0 <= j < |ws| && Greater(ws[j], FLOOR)
    ensures exists i :: FirstBest(ws, i)
  {
    var last := |ws| - 1;
    var front := ws[..last];
    if exists j :: 0 <= j < last && Greater(front[j], FLOOR) {
      SomeFirstBest(front);
      var i :| FirstBest(front, i);
      assert FirstBest(ws, if Greater(ws[last], ws[i]) then last else i);
    } else {
      assert FirstBest(ws, last);
    }
  }

  /** The draw decides only if every weight is at or below the floor, or the best node has no name. */
  lemma WeightDecidesExactlyWhen(nodes: seq<string>, facts: map<string, Facts>)
    requires forall n | n in nodes :: n in facts && n != ""
    ensures
      (exists n :: n in nodes && Greater(WeightOf(facts[n]), FLOOR))
      <==> (exists i :: FirstBest(Weights(nodes, facts), i))
  {
    var ws := Weights(nodes, facts);
    if n :| n in nodes && Greater(WeightOf(facts[n]), FLOOR) {
      var j :| 0 <= j < |nodes| && nodes[j] == n;
      assert Greater(ws[j], FLOOR);
      SomeFirstBest(ws);
    }
    if i :| FirstBest(ws, i) {
      assert nodes[i] in nodes;
    }
  }

  // ----- What the weights mean

  lemma QuotientOrder(m: real, d: int, e: int)
    requires m >= 0.0 && 0 < d <= e
    ensures 0.0 <= m / e as real <= m / d as real
    ensures m > 0.0 && d < e ==> m / e as real < m / d as real
  {
    var x, y := m / d as real, m / e as real;
    assert x * d as real == m && y * e as real == m;
    assert y >= 0.0;
  }

  /** When a node of non-negative merit can be chosen by weight at all. A load under -1 turns merit into a
      penalty: such a node stays in only while its merit is smaller than the deficit. */
  lemma CompetesExactlyWhen(f: Facts)
    requires Merit(f) >= 0.0
    ensures Greater(WeightOf(f), FLOOR) <==>
      (if f.load >= 0 then true else if f.load == -1 then Merit(f) > 0.0 else Merit(f) < -(f.load + 1) as real)
  {
    hide Merit;
    if f.load != -1 {
      QuotientAboveFloor(Merit(f), (f.load + 1) as real);
    }
  }

  lemma QuotientAboveFloor(m: real, d: real)
    requires m >= 0.0 && d != 0.0
    ensures m / d > -1.0 <==> d > 0.0 || m < -d
  {
    var q := m / d;
    assert q * d == m;
    if d < 0.0 {
      ProductOrder(q, -1.0, -d);
      ProductOrder(-1.0, q, -d);
    } else {
      ProductOrder(-1.0, q, d);
    }
  }

  lemma ProductOrder(x: real, y: real, d: real)
    requires d > 0.0
    ensures x > y <==> x * d > y * d
  {
    if x > y {
      assert (x - y) * d > 0.0;
    } else {
      assert (y - x) * d >= 0.0;
    }
  }

  ghost predicate NonNegative(f: Facts) {
    && f.load >= 0 && f.reputation >= 0.0
    && (f.decay.Some? ==> f.decay.value >= 0.0)
    && (f.health.Some? ==> f.health.value >= 0.0)
  }

  lemma ProductNonNegative(x: real, y: real)
    requires x >= 0.0 && y >= 0.0
    ensures x * y >= 0.0
  {
  }

  lemma MeritNonNegative(f: Facts)
    requires NonNegative(f)
    ensures Merit(f) >= 0.0 && WeightOf(f) == Finite(Merit(f) / (f.load + 1) as real) && WeightOf(f).value >= 0.0
  {
    var reputation := if f.decay.Some? then f.reputation * f.decay.value else f.reputation;
    if f.decay.Some? {
      ProductNonNegative(f.reputation, f.decay.value);
    }
    ProductNonNegative(reputation, if f.health.Some? then f.health.value / 100.0 else 1.0);
    QuotientOrder(Merit(f), f.load + 1, f.load + 1);
  }

  /** With non-negative loads, reputations and health scores the choice is the first node of maximal weight; the
      draw is never used. */
  lemma FirstOfMaximalWeight(nodes: seq<string>, facts: map<string, Facts>, draw: Option<nat>,
                             r: Result<string, Failure>)
      returns (k: nat)
    requires nodes != [] && forall n | n in nodes :: n in facts && n != "" && NonNegative(facts[n])
    requires Selects(nodes, facts, draw, r)
    ensures k < |nodes| && r == Ok(nodes[k])
    ensures forall n | n in nodes :: WeightOf(facts[n]).Finite?
    ensures forall j | 0 <= j < |nodes| :: !Greater(WeightOf(facts[nodes[j]]), WeightOf(facts[nodes[k]]))
    ensures forall j | 0 <= j < k :: Greater(WeightOf(facts[nodes[k]]), WeightOf(facts[nodes[j]]))
  {
    hide WeightOf, NonNegative;
    forall n | n in nodes
      ensures WeightOf(facts[n]).Finite? && WeightOf(facts[n]).value >= 0.0
    {
      MeritNonNegative(facts[n]);
    }
    var ws := Weights(nodes, facts);
    assert ws[0] == WeightOf(facts[nodes[0]]);
    SomeFirstBest(ws);
    k :| FirstBest(ws, k);
    assert r == Ok(nodes[k]);
    hide Selects, FirstBest;
    BestOfFinite(ws, k);
  }

  lemma BestOfFinite(ws: seq<Weight>, k: nat)
    requires FirstBest(ws, k) && forall w | w in ws :: w.Finite?
    ensures forall j | 0 <= j < |ws| :: !Greater(ws[j], ws[k])
    ensures forall j | 0 <= j < k :: Greater(ws[k], ws[j])
  {
  }

  // ----- The choice in the figures themselves

  function OrElse(figure: Option<real>, default: real): real {
    if figure.Some? then figure.value else default
  }

  function Product(x: real, y: real, z: real): real {
    x * y * z
  }

  /** Reputation, age and health as one figure, an absent age counting as new and an absent health score as 100. */
  function Standing(reputation: real, decay: Option<real>, health: Option<real>): real {
    Product(reputation, OrElse(decay, 1.0), OrElse(health, 100.0))
  }

  /** Cross-multiplied, so without any division: standing for each request that would then be in progress. */
  predicate AtLeast(x: real, load: int, y: real, otherLoad: int) {
    x * (otherLoad + 1) as real >= y * (load + 1) as real
  }

  predicate Above(x: real, load: int, y: real, otherLoad: int) {
    x * (otherLoad + 1) as real > y * (load + 1) as real
  }

  /** Compares what two nodes bring, on the figures selection reads. */
  predicate NotBehind(f: Facts, g: Facts) {
    AtLeast(Standing(f.reputation, f.decay, f.health), f.load, Standing(g.reputation, g.decay, g.health), g.load)
  }

  predicate Ahead(f: Facts, g: Facts) {
    Above(Standing(f.reputation, f.decay, f.health), f.load, Standing(g.reputation, g.decay, g.health), g.load)
  }

  lemma MeritIsStanding(f: Facts)
    ensures 100.0 * Merit(f) == Standing(f.reputation, f.decay, f.health)
  {
    var reputation := if f.decay.Some? then f.reputation * f.decay.value else f.reputation;
    if f.health.Some? {
      Hundredth(reputation, f.health.value);
    }
  }

  lemma Hundredth(x: real, h: real)
    ensures 100.0 * (x * (h / 100.0)) == x * h
  {
    var q := h / 100.0;
    assert h == q * 100.0;
  }

  lemma CrossMultiplied(x: real, d: real, y: real, e: real)
    requires d > 0.0 && e > 0.0
    ensures x / d > y / e <==> x * e > y * d
  {
    var p, q := x / d, y / e;
    assert p * d == x && q * e == y;
    ProductOrder(p, q, d * e);
    Rearranged(p, d, e);
    Rearranged(q, e, d);
  }

  lemma Rearranged(p: real, d: real, e: real)
    ensures p * (d * e) == (p * d) * e && p * (e * d) == (p * d) * e
  {
  }

  lemma WeightsCompare(f: Facts, g: Facts)
    requires NonNegative(f) && NonNegative(g)
    ensures Greater(WeightOf(f), WeightOf(g)) <==> Ahead(f, g)
    ensures Ahead(f, g) <==> !NotBehind(g, f)
  {
    MeritNonNegative(f);
    MeritNonNegative(g);
    MeritIsStanding(f);
    MeritIsStanding(g);
    PositiveDivisor(f);
    PositiveDivisor(g);
    hide Merit, Standing, WeightOf, NonNegative;
    RatiosCompare(Merit(f), f.load, Merit(g), g.load);
  }

  lemma PositiveDivisor(f: Facts)
    requires NonNegative(f)
    ensures f.load >= 0
  {
  }

  lemma RatiosCompare(m: real, load: int, n: real, otherLoad: int)
    requires load >= 0 && otherLoad >= 0
    ensures m / (load + 1) as real > n / (otherLoad + 1) as real
            <==> Above(100.0 * m, load, 100.0 * n, otherLoad)
    ensures Above(100.0 * m, load, 100.0 * n, otherLoad) <==> !AtLeast(100.0 * n, otherLoad, 100.0 * m, load)
  {
    var d, e := (load + 1) as real, (otherLoad + 1) as real;
    CrossMultiplied(m, d, n, e);
    Scaled(m, e);
    Scaled(n, d);
  }

  lemma Scaled(x: real, y: real)
    ensures 100.0 * x * y == 100.0 * (x * y)
  {
  }

  /** With non-negative figures the choice has the greatest reputation times decay times health per request in
      progress, and is the first of the nodes that have: strictly ahead of each one before it. */
  lemma ChosenByStanding(nodes: seq<string>, facts: map<string, Facts>, draw: Option<nat>, r: Result<string, Failure>)
      returns (k: nat)
    requires nodes != [] && forall n | n in nodes :: n in facts && n != "" && NonNegative(facts[n])
    requires Selects(nodes, facts, draw, r)
    ensures k < |nodes| && r == Ok(nodes[k])
    ensures forall j | 0 <= j < |nodes| :: NotBehind(facts[nodes[k]], facts[nodes[j]])
    ensures forall j | 0 <= j < k :: Ahead(facts[nodes[k]], facts[nodes[j]])
  {
    k := FirstOfMaximalWeight(nodes, facts, draw, r);
    hide *;
    forall j | 0 <= j < |nodes|
      ensures NotBehind(facts[nodes[k]], facts[nodes[j]])
      ensures j < k ==> Ahead(facts[nodes[k]], facts[nodes[j]])
    {
      assert nodes[j] in nodes && nodes[k] in nodes;
      WeightsCompare(facts[nodes[j]], facts[nodes[k]]);
      WeightsCompare(facts[nodes[k]], facts[nodes[j]]);
    }
  }

  /** Among nodes of one positive merit the choice is the first of least load. */
  lemma LeastLoadedWins(nodes: seq<string>, facts: map<string, Facts>,
                        draw: Option<nat>, r: Result<string, Failure>, m: real)
      returns (k: nat)
    requires nodes != [] && forall n | n in nodes :: n in facts && n != "" && NonNegative(facts[n])
    requires m > 0.0 && forall n | n in nodes :: Merit(facts[n]) == m
    requires Selects(nodes, facts, draw, r)
    ensures k < |nodes| && r == Ok(nodes[k])
    ensures forall j | 0 <= j < |nodes| :: facts[nodes[k]].load <= facts[nodes[j]].load
    ensures forall j | 0 <= j < k :: facts[nodes[k]].load < facts[nodes[j]].load
  {
    hide Merit, Selects;
    k := FirstOfMaximalWeight(nodes, facts, draw, r);
    var least := facts[nodes[k]].load + 1;
    forall j | 0 <= j < |nodes|
      ensures least <= facts[nodes[j]].load + 1
      ensures j < k ==> least < facts[nodes[j]].load + 1
    {
      var other := facts[nodes[j]].load + 1;
      if other <= least {
        QuotientOrder(m, other, least);
      }
    }
  }

  /** A load of -1 divides by zero: the first such node of positive merit is chosen whatever the others weigh. */
  lemma MinusOneCaptures(nodes: seq<string>, facts: map<string, Facts>,
                         draw: Option<nat>, r: Result<string, Failure>, k: nat)
    requires forall n | n in nodes :: n in facts
    requires k < |nodes| && nodes[k] != "" && facts[nodes[k]].load == -1 && Merit(facts[nodes[k]]) > 0.0
    requires forall j | 0 <= j < k :: !(facts[nodes[j]].load == -1 && Merit(facts[nodes[j]]) > 0.0)
    requires Selects(nodes, facts, draw, r)
    ensures r == Ok(nodes[k])
  {
    assert FirstBest(Weights(nodes, facts), k);
  }

  // ----- The store and the eligibility filter

  /** The sorted sets are given best reputation first. */
  datatype Store = Store(
    cityNodes: map<(string, string), seq<string>>,
    countryNodes: map<string, seq<string>>,
    meta: map<string, NodeMeta>,
    load: map<string, int>,
    reputation: map<string, real>,
    cooldown: map<string, set<string>>)

  datatype NodeMeta = NodeMeta(isp: string, os: string, lastSeen: int)

  /** What a request is forwarded with.  The address is in the data model but nothing ever stores or fills it in. */
  datatype Node = Node(id: string, country: string, city: string, ip: string, meta: NodeMeta)

  /** GetNode: what the store knows about one node. */
  function NodeStatus(s: Store, id: string): Option<Node> {
    if id in s.meta then Some(Node(id, "", "", "", s.meta[id])) else None
  }

  /** cityFails, countryFails: whether the two candidate lookups fail during the call; lookupFails: the nodes whose
      cooldown lookup does. */
  datatype Query = Query(country: string, city: string, target: string, now: int, cityFails: bool, countryFails: bool,
                         lookupFails: set<string>, draw: Option<nat>)

  const LIMIT := 50

  function Top(nodes: seq<string>): seq<string> {
    if |nodes| <= LIMIT then nodes else nodes[..LIMIT]
  }

  function CityCandidates(s: Store, q: Query): seq<string> {
    if q.city != "" && (q.country, q.city) in s.cityNodes then Top(s.cityNodes[(q.country, q.city)]) else []
  }

  function Candidates(s: Store, q: Query): seq<string> {
    if CityCandidates(s, q) != [] then CityCandidates(s, q)
    else if q.country in s.countryNodes then Top(s.countryNodes[q.country])
    else []
  }

  /** The country is looked up only when the city has given nobody. */
  function LookupError(s: Store, q: Query): Option<Failure> {
    if q.city != "" && q.cityFails then Some(CityLookupFailed)
    else if CityCandidates(s, q) == [] && q.countryFails then Some(CountryLookupFailed)
    else None
  }

  predicate InCooldown(s: Store, target: string, node: string) {
    target in s.cooldown && node in s.cooldown[target]
  }

  predicate Passes(breakers: Breakers, s: Store, q: Query, node: string) {
    Healthy(breakers, node) && node !in q.lookupFails && !InCooldown(s, q.target, node)
  }

  function Eligible(breakers: Breakers, s: Store, q: Query, candidates: seq<string>): seq<string> {
    if candidates == [] then [] else
      var last, before := candidates[|candidates| - 1], Eligible(breakers, s, q, candidates[..|candidates| - 1]);
      if Passes(breakers, s, q, last) then before + [last] else before
  }

  /** Nothing is dropped but what fails the filter, and nothing is added. */
  lemma {:induction false} EligibleExactly(breakers: Breakers, s: Store, q: Query,
                                           candidates: seq<string>, node: string)
    ensures node in Eligible(breakers, s, q, candidates) <==> node in candidates && Passes(breakers, s, q, node)
  {
    if candidates != [] {
      var front := candidates[..|candidates| - 1];
      assert candidates == front + [candidates[|candidates| - 1]];
      EligibleExactly(breakers, s, q, front, node);
    }
  }

  /** The filter keeps the candidates' order. */
  lemma {:induction false} EligibleKeepsOrder(breakers: Breakers, s: Store, q: Query, a: seq<string>, b: seq<string>)
    ensures Eligible(breakers, s, q, a + b) == Eligible(breakers, s, q, a) + Eligible(breakers, s, q, b)
  {
    if b == [] {
      assert a + b == a;
    } else {
      var front := b[..|b| - 1];
      EligibleKeepsOrder(breakers, s, q, a, front);
      assert (a + b)[..|a + b| - 1] == a + front;
    }
  }

  function LoadOf(s: Store, node: string): int {
    if node in s.load then s.load[node] else 0
  }

  function FactsFor(s: Store, health: map<string, real>, decay: int -> real, now: int, node: string): Facts {
    Facts(
      LoadOf(s, node),
      if node in s.reputation then s.reputation[node] else 100.0,
      if node in s.meta then Some(decay(now - s.meta[node].lastSeen)) else None,
      if node in health then Some(health[node]) else None)
  }

  function AllFacts(s: Store, health: map<string, real>, decay: int -> real, now: int, nodes: seq<string>)
      : (facts: map<string, Facts>)
    ensures forall n | n in nodes :: n in facts
  {
    map n | n in nodes :: FactsFor(s, health, decay, now, n)
  }

  function Incremented(s: Store, node: string): Store {
    s.(load := s.load[node := LoadOf(s, node) + 1])
  }

  /** After the choice the load goes up before the metadata is looked up, and stays up when that fails. */
  ghost predicate Charges(s: Store, q: Query, choice: Result<string, Failure>, r: Result<Node, Failure>, s': Store) {
    if choice.Err? then r == Err(choice.error) && s' == s else
      && s' == Incremented(s, choice.value)
      && r == if choice.value in s.meta then Ok(Node(choice.value, q.country, q.city, "", s.meta[choice.value]))
              else Err(MetaMissing)
  }

  ghost predicate SelectsNode(breakers: Breakers, s: Store, health: map<string, real>, decay: int -> real, q: Query,
                              r: Result<Node, Failure>, s': Store)
  {
    var candidates := Candidates(s, q);
    var eligible := Eligible(breakers, s, q, candidates);
    if LookupError(s, q).Some? then r == Err(LookupError(s, q).value) && s' == s
    else if candidates == [] then r == Err(NoCandidates) && s' == s
    else if eligible == [] then r == Err(NoneEligible) && s' == s
    else exists choice ::
      && Selects(eligible, AllFacts(s, health, decay, q.now, eligible), q.draw, choice)
      && Charges(s, q, choice, r, s')
  }

  class NodeSelector {
    const matchmaker: Matchmaker
    const decay: int -> real
    var store: Store
    var healthScore: map<string, real>

    constructor (matchmaker: Matchmaker, decay: int -> real, store: Store)
      ensures this.matchmaker == matchmaker && this.decay == decay && this.store == store && healthScore == map[]
    {
      this.matchmaker := matchmaker;
      this.decay := decay;
      this.store := store;
      healthScore := map[];
    }

    method FilterEligibleNodes(candidates: seq<string>, q: Query) returns (eligible: seq<string>)
      ensures eligible == Eligible(matchmaker.circuitBreakers, store, q, candidates)
    {
      eligible := [];
      for i := 0 to |candidates|
        invariant eligible == Eligible(matchmaker.circuitBreakers, store, q, candidates[..i])
      {
        assert candidates[..i + 1][..i] == candidates[..i];
        var healthy := matchmaker.IsNodeHealthy(candidates[i]);
        if healthy {
          if candidates[i] !in q.lookupFails && !InCooldown(store, q.target, candidates[i]) {
            eligible := eligible + [candidates[i]];
          }
        }
      }
      assert candidates[..|candidates|] == candidates;
    }

    method SelectNode(q: Query) returns (r: Result<Node, Failure>)
      modifies `store
      ensures SelectsNode(matchmaker.circuitBreakers, old(store), healthScore, decay, q, r, store)
    {
      var candidates: seq<string> := [];
      if q.city != "" {
        if q.cityFails {
          return Err(CityLookupFailed);
        }
        if (q.country, q.city) in store.cityNodes {
          candidates := Top(store.cityNodes[(q.country, q.city)]);
        }
      }
      if |candidates| == 0 {
        if q.countryFails {
          return Err(CountryLookupFailed);
        }
        if q.country in store.countryNodes {
          candidates := Top(store.countryNodes[q.country]);
        }
      }
      assert candidates == Candidates(store, q) && LookupError(store, q).None?;
      hide Candidates, LookupError, Eligible, AllFacts, Selects, Charges;
      if |candidates| == 0 {
        return Err(NoCandidates);
      }
      var eligible := FilterEligibleNodes(candidates, q);
      if |eligible| == 0 {
        return Err(NoneEligible);
      }
      var selected := SelectByLoad(eligible, AllFacts(store, healthScore, decay, q.now, eligible), q.draw);
      r := Charge(q, selected);
    }

    /** The end of SelectNode: count the request against the node, then look its metadata up. */
    method Charge(q: Query, selected: Result<string, Failure>) returns (r: Result<Node, Failure>)
      modifies `store
      ensures Charges(old(store), q, selected, r, store)
    {
      if selected.Err? {
        return Err(selected.error);
      }
      var id := selected.value;
      store := store.(load := store.load[id := LoadOf(store, id) + 1]);
      if id !in store.meta {
        return Err(MetaMissing);
      }
      r := Ok(Node(id, q.country, q.city, "", store.meta[id]));
    }
  }

  lemma ChoiceIsEligible(nodes: seq<string>, facts: map<string, Facts>, draw: Option<nat>,
                         choice: Result<string, Failure>)
    requires forall n | n in nodes :: n in facts
    requires Selects(nodes, facts, draw, choice)
    ensures choice.Ok? ==> choice.value in nodes
  {
    if i :| FirstBest(Weights(nodes, facts), i) {
    }
  }

  /** A returned node was a candidate, its breaker is closed or absent, and it is not cooling down for the target;
      its load is one higher and nothing else changed.  It comes without an address. */
  lemma ReturnedNodeIsEligible(breakers: Breakers, s: Store, health: map<string, real>, decay: int -> real, q: Query,
                               r: Result<Node, Failure>, s': Store)
    requires SelectsNode(breakers, s, health, decay, q, r, s') && r.Ok?
    ensures r.value.id in Candidates(s, q)
    ensures Healthy(breakers, r.value.id) && !InCooldown(s, q.target, r.value.id)
    ensures s' == Incremented(s, r.value.id) && r.value.ip == ""
  {
    var eligible := Eligible(breakers, s, q, Candidates(s, q));
    var facts := AllFacts(s, health, decay, q.now, eligible);
    var choice :| Selects(eligible, facts, q.draw, choice) && Charges(s, q, choice, r, s');
    ChoiceIsEligible(eligible, facts, q.draw, choice);
    EligibleExactly(breakers, s, q, Candidates(s, q), choice.value);
  }

  /** When the lookups succeed and the candidates that pass the filter have names and non-negative loads, reputations,
      health scores and decay, and there is one, selection takes one of maximal weight, and fails only for want of its
      metadata. */
  lemma SelectionSucceeds(breakers: Breakers, s: Store, health: map<string, real>, decay: int -> real, q: Query,
                          r: Result<Node, Failure>, s': Store)
      returns (id: string)
    requires SelectsNode(breakers, s, health, decay, q, r, s')
    requires LookupError(s, q).None? && exists n :: n in Candidates(s, q) && Passes(breakers, s, q, n)
    requires forall n | n in Candidates(s, q) && Passes(breakers, s, q, n) ::
      n != "" && NonNegative(FactsFor(s, health, decay, q.now, n))
    ensures id in Candidates(s, q) && Passes(breakers, s, q, id)
    ensures forall n | n in Candidates(s, q) && Passes(breakers, s, q, n) ::
      !Greater(WeightOf(FactsFor(s, health, decay, q.now, n)), WeightOf(FactsFor(s, health, decay, q.now, id)))
    ensures s' == Incremented(s, id)
    ensures r == if id in s.meta then Ok(Node(id, q.country, q.city, "", s.meta[id])) else Err(MetaMissing)
  {
    hide WeightOf, Selects, NonNegative, Passes, FactsFor;
    var candidates := Candidates(s, q);
    var eligible := Eligible(breakers, s, q, candidates);
    var facts := AllFacts(s, health, decay, q.now, eligible);
    forall n
      ensures n in eligible <==> n in candidates && Passes(breakers, s, q, n)
    {
      EligibleExactly(breakers, s, q, candidates, n);
    }
    var some :| some in candidates && Passes(breakers, s, q, some);
    assert some in eligible;
    var choice :| Selects(eligible, facts, q.draw, choice) && Charges(s, q, choice, r, s');
    var k := FirstOfMaximalWeight(eligible, facts, q.draw, choice);
    id := eligible[k];
    assert id in eligible;
  }

  // ----- The choice in what the store holds

  /** What the store and the health scores make of a node: reputation 100 unless stored, times the decay since it was
      last seen if it has metadata, times its health score or 100. */
  function StoredStanding(s: Store, health: map<string, real>, decay: int -> real, now: int, node: string): real {
    Product(if node in s.reputation then s.reputation[node] else 100.0,
            if node in s.meta then decay(now - s.meta[node].lastSeen) else 1.0,
            if node in health then health[node] else 100.0)
  }

  function StoredLoad(s: Store, node: string): int {
    if node in s.load then s.load[node] else 0
  }

  ghost predicate Sound(s: Store, health: map<string, real>, decay: int -> real, now: int, node: string) {
    && node != ""
    && (node in s.load ==> s.load[node] >= 0)
    && (node in s.reputation ==> s.reputation[node] >= 0.0)
    && (node in s.meta ==> decay(now - s.meta[node].lastSeen) >= 0.0)
    && (node in health ==> health[node] >= 0.0)
  }

  lemma SoundIsNonNegative(s: Store, health: map<string, real>, decay: int -> real, now: int, node: string)
    requires Sound(s, health, decay, now, node)
    ensures node != "" && NonNegative(FactsFor(s, health, decay, now, node))
  {
  }

  /** What the store holds speaks for the first node at least as much as for the second, per request in progress. */
  predicate StoredNotBehind(s: Store, health: map<string, real>, decay: int -> real, now: int, m: string, n: string) {
    AtLeast(StoredStanding(s, health, decay, now, m), StoredLoad(s, m),
            StoredStanding(s, health, decay, now, n), StoredLoad(s, n))
  }

  predicate StoredAhead(s: Store, health: map<string, real>, decay: int -> real, now: int, m: string, n: string) {
    Above(StoredStanding(s, health, decay, now, m), StoredLoad(s, m),
          StoredStanding(s, health, decay, now, n), StoredLoad(s, n))
  }

  lemma StoredFacts(s: Store, health: map<string, real>, decay: int -> real, now: int, node: string)
    ensures
      var f := FactsFor(s, health, decay, now, node);
      && f.load == StoredLoad(s, node)
      && Standing(f.reputation, f.decay, f.health) == StoredStanding(s, health, decay, now, node)
  {
  }

  lemma StoredCompares(s: Store, health: map<string, real>, decay: int -> real, now: int, m: string, n: string)
    ensures
      var f, g := FactsFor(s, health, decay, now, m), FactsFor(s, health, decay, now, n);
      && (NotBehind(f, g) <==> StoredNotBehind(s, health, decay, now, m, n))
      && (Ahead(f, g) <==> StoredAhead(s, health, decay, now, m, n))
  {
    hide FactsFor, Standing, StoredStanding, StoredLoad, AtLeast, Above;
    StoredFacts(s, health, decay, now, m);
    StoredFacts(s, health, decay, now, n);
  }

  lemma FactsAre(s: Store, health: map<string, real>, decay: int -> real, now: int, nodes: seq<string>)
    ensures
      var facts := AllFacts(s, health, decay, now, nodes);
      forall n | n in nodes ::
        n in facts && facts[n] == FactsFor(s, health, decay, now, n) && facts[n].load == LoadOf(s, n)
  {
  }

  /** SelectNode in the store's own terms: when the lookups succeed and the candidates that pass the filter have sound
      figures, and there is one, it charges the first of those with the greatest stored standing per request in
      progress. */
  lemma SelectsByStoredStanding(breakers: Breakers, s: Store, health: map<string, real>, decay: int -> real, q: Query,
                                r: Result<Node, Failure>, s': Store)
      returns (k: nat)
    requires SelectsNode(breakers, s, health, decay, q, r, s')
    requires LookupError(s, q).None?
    requires
      var eligible := Eligible(breakers, s, q, Candidates(s, q));
      eligible != [] && forall n | n in eligible :: Sound(s, health, decay, q.now, n)
    ensures
      var eligible := Eligible(breakers, s, q, Candidates(s, q));
      && k < |eligible|
      && (forall j | 0 <= j < |eligible| :: StoredNotBehind(s, health, decay, q.now, eligible[k], eligible[j]))
      && (forall j | 0 <= j < k :: StoredAhead(s, health, decay, q.now, eligible[k], eligible[j]))
      && s' == s.(load := s.load[eligible[k] := StoredLoad(s, eligible[k]) + 1])
      && r == if eligible[k] in s.meta then Ok(Node(eligible[k], q.country, q.city, "", s.meta[eligible[k]]))
              else Err(MetaMissing)
  {
    hide *;
    var eligible := Eligible(breakers, s, q, Candidates(s, q));
    var choice := ChoiceMade(breakers, s, health, decay, q, r, s');
    k := ChosenByStored(s, health, decay, q, eligible, choice);
    Charged(s, q, eligible[k], r, s');
  }

  lemma Charged(s: Store, q: Query, node: string, r: Result<Node, Failure>, s': Store)
    requires Charges(s, q, Ok(node), r, s')
    ensures s' == s.(load := s.load[node := StoredLoad(s, node) + 1])
    ensures r == if node in s.meta then Ok(Node(node, q.country, q.city, "", s.meta[node])) else Err(MetaMissing)
  {
  }

  lemma ChosenByStored(s: Store, health: map<string, real>, decay: int -> real, q: Query, eligible: seq<string>,
                       choice: Result<string, Failure>)
      returns (k: nat)
    requires eligible != [] && forall n | n in eligible :: Sound(s, health, decay, q.now, n)
    requires Selects(eligible, AllFacts(s, health, decay, q.now, eligible), q.draw, choice)
    ensures k < |eligible| && choice == Ok(eligible[k])
    ensures forall j | 0 <= j < |eligible| :: StoredNotBehind(s, health, decay, q.now, eligible[k], eligible[j])
    ensures forall j | 0 <= j < k :: StoredAhead(s, health, decay, q.now, eligible[k], eligible[j])
  {
    hide *;
    var facts := AllFacts(s, health, decay, q.now, eligible);
    FactsAre(s, health, decay, q.now, eligible);
    forall n | n in eligible
      ensures n in facts && n != "" && NonNegative(facts[n])
    {
      SoundIsNonNegative(s, health, decay, q.now, n);
    }
    k := ChosenByStanding(eligible, facts, q.draw, choice);
    forall j | 0 <= j < |eligible|
      ensures StoredNotBehind(s, health, decay, q.now, eligible[k], eligible[j])
      ensures j < k ==> StoredAhead(s, health, decay, q.now, eligible[k], eligible[j])
    {
      assert eligible[j] in eligible && eligible[k] in eligible;
      StoredCompares(s, health, decay, q.now, eligible[k], eligible[j]);
    }
  }

  lemma ChoiceMade(breakers: Breakers, s: Store, health: map<string, real>, decay: int -> real, q: Query,
                   r: Result<Node, Failure>, s': Store)
      returns (choice: Result<string, Failure>)
    requires SelectsNode(breakers, s, health, decay, q, r, s') && LookupError(s, q).None?
    requires Eligible(breakers, s, q, Candidates(s, q)) != []
    ensures
      var eligible := Eligible(breakers, s, q, Candidates(s, q));
      Selects(eligible, AllFacts(s, health, decay, q.now, eligible), q.draw, choice) && Charges(s, q, choice, r, s')
  {
    hide Selects, AllFacts, Charges;
    var eligible := Eligible(breakers, s, q, Candidates(s, q));
    choice :| Selects(eligible, AllFacts(s, health, decay, q.now, eligible), q.draw, choice)
              && Charges(s, q, choice, r, s');
  }
}
