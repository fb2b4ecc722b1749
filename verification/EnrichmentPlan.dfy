/** Which exit addresses an enrichment batch looks up, and for what
    (internal/pipeline/enrichment.go). */
module EnrichmentPlan {
  import opened Common
  import opened EnrichmentCache

  datatype Kind = Intel | Ports | Dnsbl

  /** What an address is to be looked up for. */
  datatype Needs = Needs(intel: bool, ports: bool, dnsbl: bool)

  const NOTHING := Needs(false, false, false)

  function Needing(n: Needs, kind: Kind): Needs {
    match kind
    case Intel => n.(intel := true)
    case Ports => n.(ports := true)
    case Dnsbl => n.(dnsbl := true)
  }

  /** The plan so far: the addresses in the order in which they were first named. */
  datatype Plan = Plan(needs: map<string, Needs>, ordered: seq<string>) {
    function Of(key: string): Needs { if key in needs then needs[key] else NOTHING }

    ghost predicate Valid() {
      NoRepeat(ordered) && forall k :: k in ordered <==> k in needs
    }
  }

  /** The list after more addresses were named: each at its first place. */
  function Named(ordered: seq<string>, keys: seq<string>): seq<string> {
    if keys == [] then ordered
    else
      var before, last := Named(ordered, keys[..|keys|-1]), keys[|keys|-1];
      if last in before then before else before + [last]
  }

  lemma NamedSnoc(ordered: seq<string>, keys: seq<string>, key: string)
    ensures Named(ordered, keys + [key]) == var before := Named(ordered, keys); if key in before then before else before + [key]
  {
    assert (keys + [key])[..|keys|] == keys;
  }

  /** Addresses stand in the order in which they were first named. */
  lemma {:induction false} NamedInOrder(ordered: seq<string>, keys: seq<string>, n: nat)
    requires n <= |keys| && NoRepeat(ordered)
    ensures Named(ordered, keys[..n]) <= Named(ordered, keys) && ordered <= Named(ordered, keys)
    ensures NoRepeat(Named(ordered, keys))
    ensures forall k :: k in Named(ordered, keys) <==> k in ordered || k in keys
  {
    if keys == [] {
      assert keys[..n] == keys;
    } else {
      var p, last := keys[..|keys|-1], keys[|keys|-1];
      NamedInOrder(ordered, p, if n < |keys| then n else |p|);
      assert keys == p + [last];
      if n < |keys| { assert p[..n] == keys[..n]; } else { assert keys[..n] == keys; }
    }
  }

  /** The plan after one kind of look-up asked for these addresses. */
  ghost predicate Extends(before: Plan, kind: Kind, keys: seq<string>, after: Plan) {
    && after.Valid()
    && after.ordered == Named(before.ordered, keys)
    && (forall k :: k in after.ordered <==> k in before.ordered || k in keys)
    && (forall k :: after.Of(k) == if k in keys then Needing(before.Of(k), kind) else before.Of(k))
  }

  function Asked(p: Plan, kind: Kind, ip: string): Plan {
    Plan(p.needs[ip := Needing(p.Of(ip), kind)], if ip in p.needs then p.ordered else p.ordered + [ip])
  }

  lemma AskedIs(p: Plan, kind: Kind, ip: string)
    requires p.Valid()
    ensures var q := Asked(p, kind, ip);
            && q.Valid() && p.ordered <= q.ordered
            && (forall k :: k in q.ordered <==> k in p.ordered || k == ip)
            && (forall k :: q.Of(k) == if k == ip then Needing(p.Of(k), kind) else p.Of(k))
  {
    assert forall k :: k in p.ordered + [ip] <==> k in p.ordered || k == ip;
  }

  lemma NeedingTwice(n: Needs, kind: Kind)
    ensures Needing(Needing(n, kind), kind) == Needing(n, kind)
  {}

  lemma AskedExtends(before: Plan, kind: Kind, keys: seq<string>, p: Plan, ip: string)
    requires Extends(before, kind, keys, p)
    ensures Extends(before, kind, keys + [ip], Asked(p, kind, ip))
  {
    var longer, q := keys + [ip], Asked(p, kind, ip);
    AskedIs(p, kind, ip);
    NamedSnoc(before.ordered, keys, ip);
    assert forall k :: k in longer <==> k in keys || k == ip;
    NeedingTwice(before.Of(ip), kind);
  }

  method Add(before: Plan, kind: Kind, keys: seq<string>) returns (plan: Plan)
    requires before.Valid()
    ensures Extends(before, kind, keys, plan)
  {
    plan := before;
    for i := 0 to |keys|
      invariant Extends(before, kind, keys[..i], plan)
    {
      var ip := keys[i];
      AskedExtends(before, kind, keys[..i], plan, ip);
      assert keys[..i+1] == keys[..i] + [ip];
      var value := plan.Of(ip);
      var ordered := if ip in plan.needs then plan.ordered else plan.ordered + [ip];
      plan := Plan(plan.needs[ip := Needing(value, kind)], ordered);
    }
    assert keys[..|keys|] == keys;
  }

  /** The three caches; None where the look-up is switched off or has no cache. */
  datatype Caches<A, B, C> = Caches(intel: Option<Store<A>>, ports: Option<Store<B>>, dnsbl: Option<Store<C>>) {
    predicate Valid() {
      && (intel.Some? ==> intel.value.Valid()) && (ports.Some? ==> ports.value.Valid()) && (dnsbl.Some? ==> dnsbl.value.Valid())
    }
  }

  /** The address has no fresh finding in a cache that is in use. */
  predicate Wanted<T>(cache: Option<Store<T>>, key: string, now: int) {
    cache.Some? && StateOf(cache.value, key, now) != Fresh
  }

  function Due<T>(cache: Option<Store<T>>, ips: seq<string>, now: int): seq<string> {
    if cache.None? then [] else DueKeys(cache.value, ips, now)
  }

  /** What the whole plan must be. */
  ghost predicate Planned<A, B, C>(c: Caches<A, B, C>, ips: seq<string>, now: int, plan: Plan) {
    && NoRepeat(plan.ordered)
    && plan.ordered == Named(Named(Named([], Due(c.intel, ips, now)), Due(c.ports, ips, now)), Due(c.dnsbl, ips, now))
    && (forall k :: k in plan.ordered <==>
          k in ips && k != "" && (Wanted(c.intel, k, now) || Wanted(c.ports, k, now) || Wanted(c.dnsbl, k, now)))
    && (forall k :: k in plan.ordered ==>
          plan.Of(k) == Needs(Wanted(c.intel, k, now), Wanted(c.ports, k, now), Wanted(c.dnsbl, k, now)))
  }

  lemma DueIs<T>(cache: Option<Store<T>>, ips: seq<string>, now: int)
    requires cache.Some? ==> cache.value.Valid()
    ensures forall k :: k in Due(cache, ips, now) <==> k in ips && k != "" && Wanted(cache, k, now)
  {
    if cache.Some? { StaleKeysAreDue(cache.value, ips, now); }
  }

  /** Each address is planned at most once, exactly when some cache in use has no fresh
      finding for it, and for exactly those look-ups, in the order in which the three lists of
      due addresses first name it; what is dropped by the batch size are the last of them. */
  method PlanBatch<A, B, C>(c: Caches<A, B, C>, ips: seq<string>, now: int, batchSize: nat)
    returns (plan: Plan, ordered: seq<string>, cachedHits: int)
    requires c.Valid()
    ensures Planned(c, ips, now, plan)
    ensures ordered == if |plan.ordered| > batchSize then plan.ordered[..batchSize] else plan.ordered
    ensures cachedHits == |ips| - |plan.ordered| >= 0
  {
    plan := Plan(map[], []);
    DueIs(c.intel, ips, now);
    DueIs(c.ports, ips, now);
    DueIs(c.dnsbl, ips, now);
    if c.intel.Some? { plan := Add(plan, Intel, Due(c.intel, ips, now)); }
    if c.ports.Some? { plan := Add(plan, Ports, Due(c.ports, ips, now)); }
    if c.dnsbl.Some? { plan := Add(plan, Dnsbl, Due(c.dnsbl, ips, now)); }
    NotMore(plan.ordered, ips);
    cachedHits := |ips| - |plan.ordered|;
    ordered := if |plan.ordered| > batchSize then plan.ordered[..batchSize] else plan.ordered;
  }

  function Members(s: seq<string>): set<string> { set k | k in s }

  lemma {:induction false} NotMore(a: seq<string>, b: seq<string>)
    requires NoRepeat(a) && forall k :: k in a ==> k in b
    ensures |a| <= |b|
  {
    CountMembers(a);
    CountMembers(b);
    MembersSubset(Members(a), Members(b));
  }

  lemma MembersSubset(a: set<string>, b: set<string>)
    requires a <= b
    ensures |a| <= |b|
  {
    assert b == a + (b - a);
  }

  lemma {:induction false} CountMembers(s: seq<string>)
    ensures |Members(s)| <= |s|
    ensures NoRepeat(s) ==> |Members(s)| == |s|
  {
    if s == [] {
      assert Members(s) == {};
    } else {
      var p, last := s[..|s|-1], s[|s|-1];
      CountMembers(p);
      assert s == p + [last];
      assert Members(s) == Members(p) + {last};
    }
  }
}
