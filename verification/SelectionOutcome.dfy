/**
 What a request for a node comes to (matchmaker/service.go), told from the store's lists, the breakers and the cooldowns
 alone: every refusal and exactly when it is given.
 */
module SelectionOutcome {
  import opened Breaker
  import opened NodeSelection
  import opened Wrappers

  /** The city was asked for and has nodes; then nobody else of the country is considered. */
  predicate FromCity(s: Store, q: Query) {
    q.city != "" && (q.country, q.city) in s.cityNodes && s.cityNodes[(q.country, q.city)] != []
  }

  /** Among the first 50 of a list. */
  ghost predicate AmongFirst(nodes: seq<string>, node: string) {
    exists i :: 0 <= i < 50 && i < |nodes| && nodes[i] == node
  }

  ghost predicate Listed(s: Store, q: Query, node: string) {
    if FromCity(s, q) then AmongFirst(s.cityNodes[(q.country, q.city)], node)
    else q.country in s.countryNodes && AmongFirst(s.countryNodes[q.country], node)
  }

  predicate Usable(breakers: Breakers, s: Store, q: Query, node: string) {
    && (node in breakers ==> !breakers[node].open)
    && node !in q.lookupFails
    && !(q.target in s.cooldown && node in s.cooldown[q.target])
  }

  predicate CityLookupFails(q: Query) {
    q.city != "" && q.cityFails
  }

  predicate LookupsSucceed(s: Store, q: Query) {
    !CityLookupFails(q) && (FromCity(s, q) || !q.countryFails)
  }

  lemma TopIsFirst(nodes: seq<string>, node: string)
    ensures node in Top(nodes) <==> AmongFirst(nodes, node)
  {
    if node in Top(nodes) {
      var i :| 0 <= i < |Top(nodes)| && Top(nodes)[i] == node;
      assert nodes[i] == node;
    }
    if i :| 0 <= i < 50 && i < |nodes| && nodes[i] == node {
      assert Top(nodes)[i] == node;
    }
  }

  lemma CandidatesAreListed(s: Store, q: Query, node: string)
    ensures node in Candidates(s, q) <==> Listed(s, q, node)
  {
    hide AmongFirst;
    if FromCity(s, q) {
      TopIsFirst(s.cityNodes[(q.country, q.city)], node);
    } else if q.country in s.countryNodes {
      TopIsFirst(s.countryNodes[q.country], node);
    }
  }

  lemma LookupsFailAs(s: Store, q: Query)
    ensures LookupError(s, q) == if CityLookupFails(q) then Some(CityLookupFailed)
                                 else if LookupsSucceed(s, q) then None
                                 else Some(CountryLookupFailed)
    ensures LookupsSucceed(s, q) ==> !CityLookupFails(q)
  {
  }

  lemma PassesIsUsable(breakers: Breakers, s: Store, q: Query, node: string)
    ensures Passes(breakers, s, q, node) <==> Usable(breakers, s, q, node)
  {
  }

  /** The filtered candidates are the usable listed nodes. */
  lemma EligibleAreUsable(breakers: Breakers, s: Store, q: Query)
    ensures forall n :: n in Candidates(s, q) <==> Listed(s, q, n)
    ensures forall n :: n in Eligible(breakers, s, q, Candidates(s, q)) <==>
                        Listed(s, q, n) && Usable(breakers, s, q, n)
  {
    hide Listed, Usable, Passes, Candidates, Eligible;
    forall n
      ensures n in Candidates(s, q) <==> Listed(s, q, n)
      ensures n in Eligible(breakers, s, q, Candidates(s, q)) <==> Listed(s, q, n) && Usable(breakers, s, q, n)
    {
      CandidatesAreListed(s, q, n);
      PassesIsUsable(breakers, s, q, n);
      EligibleExactly(breakers, s, q, Candidates(s, q), n);
    }
  }

  /** When a request is refused before any choice, and why: the lookups, no node listed, none of those usable. */
  lemma RefusedExactlyWhen(breakers: Breakers, s: Store, health: map<string, real>, decay: int -> real, q: Query,
                           r: Result<Node, Failure>, s': Store)
    requires SelectsNode(breakers, s, health, decay, q, r, s')
    ensures r == Err(CityLookupFailed) <==> CityLookupFails(q)
    ensures r == Err(CountryLookupFailed) <==> !CityLookupFails(q) && !LookupsSucceed(s, q)
    ensures r == Err(NoCandidates) <==> LookupsSucceed(s, q) && forall n :: !Listed(s, q, n)
    ensures r == Err(NoneEligible) <==>
              && LookupsSucceed(s, q) && (exists n :: Listed(s, q, n))
              && forall n | Listed(s, q, n) :: !Usable(breakers, s, q, n)
  {
    LookupsFailAs(s, q);
    EligibleAreUsable(breakers, s, q);
    var candidates, eligible := Candidates(s, q), Eligible(breakers, s, q, Candidates(s, q));
    hide Listed, Usable, Candidates, Eligible, LookupError, FromCity, AllFacts, Selects, Charges, CityLookupFails,
      LookupsSucceed;
    assert candidates != [] ==> Listed(s, q, candidates[0]);
    assert eligible != [] ==> Listed(s, q, eligible[0]) && Usable(breakers, s, q, eligible[0]);
    assert forall n | Listed(s, q, n) :: n in candidates;
    assert forall n | Listed(s, q, n) && Usable(breakers, s, q, n) :: n in eligible;
    if LookupError(s, q).None? && candidates != [] && eligible != [] {
      ChosenNotRefused(breakers, s, health, decay, q, r, s');
    }
  }

  lemma ChosenNotRefused(breakers: Breakers, s: Store, health: map<string, real>, decay: int -> real, q: Query,
                         r: Result<Node, Failure>, s': Store)
    requires SelectsNode(breakers, s, health, decay, q, r, s') && LookupError(s, q).None?
    requires Eligible(breakers, s, q, Candidates(s, q)) != []
    ensures r.Err? ==> r.error in {DrawFailed, MetaMissing}
  {
    var eligible := Eligible(breakers, s, q, Candidates(s, q));
    var facts := AllFacts(s, health, decay, q.now, eligible);
    var choice := ChoiceMade(breakers, s, health, decay, q, r, s');
    hide SelectsNode, Eligible, AllFacts, Candidates;
    if i :| FirstBest(Weights(eligible, facts), i) {
    }
  }

  /** A returned node is listed and usable, and came with what the store has for it. */
  lemma ReturnedIsListed(breakers: Breakers, s: Store, health: map<string, real>, decay: int -> real, q: Query,
                         r: Result<Node, Failure>, s': Store)
    requires SelectsNode(breakers, s, health, decay, q, r, s') && r.Ok?
    ensures Listed(s, q, r.value.id) && Usable(breakers, s, q, r.value.id)
    ensures r.value.id in s.meta && r.value == Node(r.value.id, q.country, q.city, "", s.meta[r.value.id])
  {
    EligibleAreUsable(breakers, s, q);
    RefusedExactlyWhen(breakers, s, health, decay, q, r, s');
    LookupsFailAs(s, q);
    var choice := ChoiceMade(breakers, s, health, decay, q, r, s');
    var eligible := Eligible(breakers, s, q, Candidates(s, q));
    ChoiceIsEligible(eligible, AllFacts(s, health, decay, q.now, eligible), q.draw, choice);
  }

  // ----- The draw

  /** Of any |nodes| draws in a row each position of the list is hit once: by the draw of its own remainder. */
  lemma EachDrawnOnce(nodes: seq<string>, draw: nat, i: nat)
    requires i < |nodes|
    ensures RandomSelect(nodes, Some(i)) == Ok(nodes[i])
    ensures RandomSelect(nodes, Some(draw + |nodes|)) == RandomSelect(nodes, Some(draw))
  {
    Periodic(draw, |nodes|);
  }

  lemma Periodic(x: nat, n: nat)
    requires n > 0
    ensures (x + n) % n == x % n
  {
    var q, r := x / n, x % n;
    assert x + n == n * (q + 1) + r;
    assert (x + n) / n == q + 1 by {
      DivUnique(x + n, n, q + 1, r);
    }
  }

  lemma DivUnique(x: nat, n: nat, q: nat, r: nat)
    requires n > 0 && x == n * q + r && r < n
    ensures x / n == q
  {
    var p := x / n;
    assert x == n * p + x % n;
    assert p < q ==> n * (p + 1) <= n * q;
    assert p > q ==> n * (q + 1) <= n * p;
  }
}
