/**
 Arithmetic on container resource requirements (pkg/library/resources/helper.go):
 defaults, caps and sums over limit/request pairs. A quantity is an integer number of its
 smallest unit.
 */
module Resources {
  import opened Options

  datatype ResourceName = Memory | CPU | Named(name: string)

  type ResourceList = map<ResourceName, int>

  datatype Requirements = Requirements(limits: ResourceList, requests: ResourceList)

  /** Reading a missing entry of a ResourceList gives the zero quantity. */
  function Get(m: ResourceList, k: ResourceName): int {
    if k in m then m[k] else 0
  }

  function Look(m: ResourceList, k: ResourceName): Option<int> {
    if k in m then Some(m[k]) else None
  }

  /** The limit and request declared for one resource. */
  datatype Pair = Pair(limit: Option<int>, request: Option<int>)

  function At(r: Requirements, k: ResourceName): Pair {
    Pair(Look(r.limits, k), Look(r.requests, k))
  }

  lemma SameEverywhere(r: Requirements, s: Requirements)
    requires forall k :: At(r, k) == At(s, k)
    ensures r == s
  {
    forall k ensures k in r.limits <==> k in s.limits
             ensures k in r.limits ==> r.limits[k] == s.limits[k]
             ensures k in r.requests <==> k in s.requests
             ensures k in r.requests ==> r.requests[k] == s.requests[k] {
      assert At(r, k) == At(s, k);
    }
    assert r.limits == s.limits && r.requests == s.requests;
  }

  ghost predicate NonNegative(r: Requirements) {
    && (forall k :: k in r.limits ==> r.limits[k] >= 0)
    && (forall k :: k in r.requests ==> r.requests[k] >= 0)
  }

  predicate ValidFor(r: Requirements, k: ResourceName) {
    k in r.limits && k in r.requests ==> r.requests[k] <= r.limits[k]
  }

  /** `ValidateResources`: memory and CPU requests do not exceed their limits. */
  predicate Valid(r: Requirements) {
    ValidFor(r, Memory) && ValidFor(r, CPU)
  }

  // ----- ApplyDefaults -----

  function Filled(m: ResourceList, d: ResourceList): ResourceList {
    map k | k in m.Keys + d.Keys && (k in m || d[k] != 0) :: if k in m then m[k] else d[k]
  }

  /** Undo an inversion (limit < request) that a default, not the user, brought in. */
  function Untangle(r: Requirements, original: Requirements, k: ResourceName): Requirements {
    var limit, request := Get(r.limits, k), Get(r.requests, k);
    var originalLimit, originalRequest := Get(original.limits, k), Get(original.requests, k);
    if limit == 0 || request == 0 || limit >= request then r
    else if originalLimit == 0 && originalRequest != 0 then r.(limits := r.limits[k := originalRequest])
    else if originalLimit != 0 && originalRequest == 0 then r.(requests := r.requests[k := originalLimit])
    else r
  }

  function WithDefaults(r: Requirements, defaults: Option<Requirements>): Requirements {
    match defaults
    case None => r
    case Some(d) =>
      var filled := Requirements(Filled(r.limits, d.limits), Filled(r.requests, d.requests));
      Untangle(Untangle(filled, r, Memory), r, CPU)
  }

  method FillMissing(m: ResourceList, d: ResourceList) returns (result: ResourceList)
    ensures result == Filled(m, d)
  {
    result := m;
    var todo := d.Keys;
    while todo != {}
      invariant todo <= d.Keys
      invariant m.Keys <= result.Keys <= m.Keys + d.Keys
      invariant forall k :: k in d.Keys - todo && k !in m ==> (k in result <==> d[k] != 0)
      invariant forall k :: k in todo && k !in m ==> k !in result
      invariant forall k :: k in result ==> result[k] == if k in m then m[k] else d[k]
      decreases todo
    {
      var k :| k in todo;
      todo := todo - {k};
      if k !in result && d[k] != 0 { result := result[k := d[k]]; }
    }
  }

  method ApplyDefaults(resources: Requirements, defaults: Option<Requirements>) returns (result: Requirements)
    ensures result == WithDefaults(resources, defaults)
  {
    result := resources;
    if defaults == None { return; }
    var limits := FillMissing(resources.limits, defaults.value.limits);
    var requests := FillMissing(resources.requests, defaults.value.requests);
    result := Requirements(limits, requests);
    var memLimit, memRequest := Get(result.limits, Memory), Get(result.requests, Memory);
    if memLimit != 0 && memRequest != 0 && memLimit < memRequest {
      var originalLimit, originalRequest := Get(resources.limits, Memory), Get(resources.requests, Memory);
      if originalLimit == 0 && originalRequest != 0 {
        result := result.(limits := result.limits[Memory := originalRequest]);
      } else if originalLimit != 0 && originalRequest == 0 {
        result := result.(requests := result.requests[Memory := originalLimit]);
      }
    }
    var cpuLimit, cpuRequest := Get(result.limits, CPU), Get(result.requests, CPU);
    if cpuLimit != 0 && cpuRequest != 0 && cpuLimit < cpuRequest {
      var originalLimit, originalRequest := Get(resources.limits, CPU), Get(resources.requests, CPU);
      if originalLimit == 0 && originalRequest != 0 {
        result := result.(limits := result.limits[CPU := originalRequest]);
      } else if originalLimit != 0 && originalRequest == 0 {
        result := result.(requests := result.requests[CPU := originalLimit]);
      }
    }
  }

  /** A missing entry and a zero entry both read as the zero quantity. */
  predicate Zero(q: Option<int>) {
    q.None? || q.value == 0
  }

  predicate Inverted(p: Pair) {
    !Zero(p.limit) && !Zero(p.request) && p.limit.value < p.request.value
  }

  function Fill(entry: Option<int>, default: Option<int>): Option<int> {
    if entry.None? && !Zero(default) then default else entry
  }

  function UntanglePair(p: Pair, original: Pair): Pair {
    if !Inverted(p) then p
    else if Zero(original.limit) && !Zero(original.request) then p.(limit := original.request)
    else if !Zero(original.limit) && Zero(original.request) then p.(request := original.limit)
    else p
  }

  /** What `ApplyDefaults` does to one resource; only memory and CPU are untangled. */
  function PairWithDefaults(p: Pair, d: Pair, tracked: bool): Pair {
    var filled := Pair(Fill(p.limit, d.limit), Fill(p.request, d.request));
    if tracked then UntanglePair(filled, p) else filled
  }

  predicate Tracked(k: ResourceName) {
    k == Memory || k == CPU
  }

  lemma FilledAt(m: ResourceList, d: ResourceList, k: ResourceName)
    ensures Look(Filled(m, d), k) == Fill(Look(m, k), Look(d, k))
  {
  }

  lemma UntangleAt(r: Requirements, original: Requirements, j: ResourceName, k: ResourceName)
    ensures At(Untangle(r, original, j), k) == if j == k then UntanglePair(At(r, k), At(original, k)) else At(r, k)
  {
  }

  lemma DefaultsAt(r: Requirements, d: Requirements, k: ResourceName)
    ensures At(WithDefaults(r, Some(d)), k) == PairWithDefaults(At(r, k), At(d, k), Tracked(k))
  {
    var filled := Requirements(Filled(r.limits, d.limits), Filled(r.requests, d.requests));
    assert At(filled, k) == Pair(Fill(At(r, k).limit, At(d, k).limit), Fill(At(r, k).request, At(d, k).request)) by {
      FilledAt(r.limits, d.limits, k);
      FilledAt(r.requests, d.requests, k);
    }
    UntangleAt(filled, r, Memory, k);
    UntangleAt(Untangle(filled, r, Memory), r, CPU, k);
  }

  /** A declared entry is never altered, a zero default never applied, and a non-zero one always. */
  lemma DefaultsKeepDeclared(r: Requirements, d: Requirements, k: ResourceName)
    ensures var result := WithDefaults(r, Some(d));
            && (k in r.limits ==> k in result.limits && result.limits[k] == r.limits[k])
            && (k in r.requests ==> k in result.requests && result.requests[k] == r.requests[k])
            && (k in result.limits <==> k in r.limits || Get(d.limits, k) != 0)
            && (k in result.requests <==> k in r.requests || Get(d.requests, k) != 0)
  {
    DefaultsAt(r, d, k);
  }

  /**
   The value of a defaulted entry: the default, but for memory and CPU a limit is raised to the declared
   request and a request lowered to the declared limit, where there is one.
   */
  lemma DefaultedValue(r: Requirements, d: Requirements, k: ResourceName)
    ensures var result := WithDefaults(r, Some(d));
      && (k in result.limits && k !in r.limits ==>
            && k in d.limits
            && result.limits[k] ==
               if (k == Memory || k == CPU) && k in r.requests && r.requests[k] != 0 && d.limits[k] < r.requests[k]
               then r.requests[k] else d.limits[k])
      && (k in result.requests && k !in r.requests ==>
            && k in d.requests
            && result.requests[k] ==
               if (k == Memory || k == CPU) && k in r.limits && r.limits[k] != 0 && r.limits[k] < d.requests[k]
               then r.limits[k] else d.requests[k])
  {
    DefaultsAt(r, d, k);
  }

  lemma PairDefaultsIdempotent(p: Pair, d: Pair, tracked: bool)
    ensures PairWithDefaults(PairWithDefaults(p, d, tracked), d, tracked) == PairWithDefaults(p, d, tracked)
  {
  }

  lemma DefaultsAgainAt(r: Requirements, d: Requirements, once: Requirements, k: ResourceName)
    requires once == WithDefaults(r, Some(d))
    ensures At(WithDefaults(once, Some(d)), k) == At(once, k)
  {
    DefaultsAt(r, d, k);
    DefaultsAt(once, d, k);
    PairDefaultsIdempotent(At(r, k), At(d, k), Tracked(k));
  }

  lemma DefaultsIdempotent(r: Requirements, defaults: Option<Requirements>)
    ensures WithDefaults(WithDefaults(r, defaults), defaults) == WithDefaults(r, defaults)
  {
    if defaults.Some? {
      var d, once := defaults.value, WithDefaults(r, defaults);
      forall k ensures At(WithDefaults(once, defaults), k) == At(once, k) {
        DefaultsAgainAt(r, d, once, k);
      }
      SameEverywhere(WithDefaults(once, defaults), once);
    }
  }

  /** The three ways `ApplyDefaults` can end with a request above its limit. */
  predicate DefaultsInvert(r: Requirements, d: Requirements, k: ResourceName) {
    if k in r.limits then
      if k in r.requests then r.requests[k] > r.limits[k]
      else r.limits[k] == 0 && Get(d.requests, k) > 0
    else
      k !in r.requests && 0 < Get(d.limits, k) < Get(d.requests, k)
  }

  lemma DefaultsInvertExactly(r: Requirements, d: Requirements, k: ResourceName)
    requires NonNegative(r) && NonNegative(d) && Tracked(k)
    ensures ValidFor(WithDefaults(r, Some(d)), k) <==> !DefaultsInvert(r, d, k)
  {
    DefaultsAt(r, d, k);
  }

  /** Exactly when applying defaults leaves valid resources. */
  lemma DefaultsValidExactlyWhenNotInverted(r: Requirements, d: Requirements)
    requires NonNegative(r) && NonNegative(d)
    ensures Valid(WithDefaults(r, Some(d))) <==> !DefaultsInvert(r, d, Memory) && !DefaultsInvert(r, d, CPU)
    ensures Valid(r) && Valid(d) && (forall k :: k in r.limits ==> r.limits[k] != 0) ==> Valid(WithDefaults(r, Some(d)))
  {
    DefaultsInvertExactly(r, d, Memory);
    DefaultsInvertExactly(r, d, CPU);
  }

  /** An input on which they do not: a zero limit is declared and a request defaulted. */
  lemma DefaultsCanInvert()
    ensures var r, d := Requirements(map[Memory := 0], map[]), Requirements(map[], map[Memory := 64]);
            Valid(r) && Valid(d) && !Valid(WithDefaults(r, Some(d)))
  {
    var r, d := Requirements(map[Memory := 0], map[]), Requirements(map[], map[Memory := 64]);
    DefaultsAt(r, d, Memory);
    assert At(WithDefaults(r, Some(d)), Memory) == Pair(Some(0), Some(64));
  }

  // ----- ApplyCaps -----

  function Capped(m: ResourceList, caps: ResourceList): ResourceList {
    map k | k in m :: if Get(caps, k) != 0 && m[k] > caps[k] then caps[k] else m[k]
  }

  /** `handleCapsEdgeCase`: bring the uncapped half of a pair down (or up) to the capped half. */
  function AlignWithCap(r: Requirements, caps: Requirements, k: ResourceName): Requirements {
    var limit, request := Get(r.limits, k), Get(r.requests, k);
    var capLimit, capRequest := Get(caps.limits, k), Get(caps.requests, k);
    if limit == 0 || request == 0 || limit >= request then r
    else if capLimit != 0 && capRequest == 0 then
      if limit == capLimit then r.(requests := r.requests[k := capLimit]) else r
    else if capLimit == 0 && capRequest != 0 then
      if request == capRequest then r.(limits := r.limits[k := capRequest]) else r
    else r
  }

  function WithCaps(r: Requirements, caps: Option<Requirements>): Requirements {
    match caps
    case None => r
    case Some(c) =>
      var capped := Requirements(Capped(r.limits, c.limits), Capped(r.requests, c.requests));
      AlignWithCap(AlignWithCap(capped, c, Memory), c, CPU)
  }

  method CapEntries(m: ResourceList, caps: ResourceList) returns (result: ResourceList)
    ensures result == Capped(m, caps)
  {
    result := m;
    var todo := caps.Keys;
    while todo != {}
      invariant todo <= caps.Keys && result.Keys == m.Keys
      invariant forall k :: k in m ==> result[k] == if k in todo then m[k] else Capped(m, caps)[k]
      decreases todo
    {
      var k :| k in todo;
      todo := todo - {k};
      if caps[k] == 0 { continue; }
      if k in result && result[k] > caps[k] { result := result[k := caps[k]]; }
    }
  }

  method ApplyCaps(resources: Requirements, caps: Option<Requirements>) returns (result: Requirements)
    ensures result == WithCaps(resources, caps)
  {
    result := resources;
    if caps == None { return; }
    var limits := CapEntries(resources.limits, caps.value.limits);
    var requests := CapEntries(resources.requests, caps.value.requests);
    result := AlignWithCap(Requirements(limits, requests), caps.value, Memory);
    result := AlignWithCap(result, caps.value, CPU);
  }

  function Cap(entry: Option<int>, cap: Option<int>): Option<int> {
    if entry.Some? && !Zero(cap) && entry.value > cap.value then cap else entry
  }

  function AlignPair(p: Pair, c: Pair): Pair {
    if !Inverted(p) then p
    else if !Zero(c.limit) && Zero(c.request) then if p.limit == c.limit then p.(request := c.limit) else p
    else if Zero(c.limit) && !Zero(c.request) then if p.request == c.request then p.(limit := c.request) else p
    else p
  }

  /** What `ApplyCaps` does to one resource. */
  function PairWithCaps(p: Pair, c: Pair, tracked: bool): Pair {
    var capped := Pair(Cap(p.limit, c.limit), Cap(p.request, c.request));
    if tracked then AlignPair(capped, c) else capped
  }

  lemma CappedAt(m: ResourceList, caps: ResourceList, k: ResourceName)
    ensures Look(Capped(m, caps), k) == Cap(Look(m, k), Look(caps, k))
  {
  }

  lemma AlignAt(r: Requirements, c: Requirements, j: ResourceName, k: ResourceName)
    ensures At(AlignWithCap(r, c, j), k) == if j == k then AlignPair(At(r, k), At(c, k)) else At(r, k)
  {
  }

  lemma CapsAt(r: Requirements, c: Requirements, k: ResourceName)
    ensures At(WithCaps(r, Some(c)), k) == PairWithCaps(At(r, k), At(c, k), Tracked(k))
  {
    var capped := Requirements(Capped(r.limits, c.limits), Capped(r.requests, c.requests));
    assert At(capped, k) == Pair(Cap(At(r, k).limit, At(c, k).limit), Cap(At(r, k).request, At(c, k).request)) by {
      CappedAt(r.limits, c.limits, k);
      CappedAt(r.requests, c.requests, k);
    }
    AlignAt(capped, c, Memory, k);
    AlignAt(AlignWithCap(capped, c, Memory), c, CPU, k);
  }

  /** No entry is left above a non-zero cap, and no entry appears or disappears. */
  lemma CapsRespected(r: Requirements, c: Requirements, k: ResourceName)
    ensures var result := WithCaps(r, Some(c));
            && (k in result.limits <==> k in r.limits) && (k in result.requests <==> k in r.requests)
            && (k in result.limits && Get(c.limits, k) != 0 ==> result.limits[k] <= c.limits[k])
            && (k in result.requests && Get(c.requests, k) != 0 ==> result.requests[k] <= c.requests[k])
  {
    CapsAt(r, c, k);
  }

  /** The smaller of an entry and its cap; a zero or missing cap is none. */
  function Least(entry: int, caps: ResourceList, k: ResourceName): int {
    if k in caps && caps[k] != 0 && caps[k] < entry then caps[k] else entry
  }

  /**
   The value of a capped entry: the smaller of entry and cap. Only where that leaves a memory or CPU limit
   below its request, and just one of the two has a cap and is at it, is the other one set to that cap.
   */
  lemma CappedValue(r: Requirements, c: Requirements, k: ResourceName)
    ensures var result := WithCaps(r, Some(c));
            var inverted := (k == Memory || k == CPU) && k in r.limits && k in r.requests
                            && Least(r.limits[k], c.limits, k) != 0 && Least(r.requests[k], c.requests, k) != 0
                            && Least(r.limits[k], c.limits, k) < Least(r.requests[k], c.requests, k);
            var limitCap := if k in c.limits then c.limits[k] else 0;
            var requestCap := if k in c.requests then c.requests[k] else 0;
      && (k in r.limits ==>
            && k in result.limits
            && result.limits[k] ==
               if inverted && limitCap == 0 && requestCap != 0 && r.requests[k] >= requestCap then requestCap
               else Least(r.limits[k], c.limits, k))
      && (k in r.requests ==>
            && k in result.requests
            && result.requests[k] ==
               if inverted && requestCap == 0 && limitCap != 0 && r.limits[k] >= limitCap then limitCap
               else Least(r.requests[k], c.requests, k))
  {
    CapsAt(r, c, k);
  }

  /** Valid resources within their caps, or with entries no cap is set for, are left alone. */
  lemma WithinCapsIsLeftAlone(r: Requirements, c: Requirements, k: ResourceName)
    requires k in r.limits && k in r.requests ==> r.requests[k] <= r.limits[k]
    requires k in r.limits && k in c.limits ==> c.limits[k] == 0 || r.limits[k] <= c.limits[k]
    requires k in r.requests && k in c.requests ==> c.requests[k] == 0 || r.requests[k] <= c.requests[k]
    ensures var result := WithCaps(r, Some(c));
      && (k in result.limits <==> k in r.limits) && (k in result.limits ==> result.limits[k] == r.limits[k])
      && (k in result.requests <==> k in r.requests) && (k in result.requests ==> result.requests[k] == r.requests[k])
  {
    CapsAt(r, c, k);
  }

  lemma PairCapsIdempotent(p: Pair, c: Pair, tracked: bool)
    ensures PairWithCaps(PairWithCaps(p, c, tracked), c, tracked) == PairWithCaps(p, c, tracked)
  {
  }

  lemma CapsAgainAt(r: Requirements, c: Requirements, once: Requirements, k: ResourceName)
    requires once == WithCaps(r, Some(c))
    ensures At(WithCaps(once, Some(c)), k) == At(once, k)
  {
    CapsAt(r, c, k);
    CapsAt(once, c, k);
    PairCapsIdempotent(At(r, k), At(c, k), Tracked(k));
  }

  lemma CapsIdempotent(r: Requirements, caps: Option<Requirements>)
    ensures WithCaps(WithCaps(r, caps), caps) == WithCaps(r, caps)
  {
    if caps.Some? {
      var c, once := caps.value, WithCaps(r, caps);
      forall k ensures At(WithCaps(once, caps), k) == At(once, k) {
        CapsAgainAt(r, c, once, k);
      }
      SameEverywhere(WithCaps(once, caps), once);
    }
  }

  lemma CapsPreserveValidity(r: Requirements, c: Requirements)
    requires NonNegative(r) && NonNegative(c) && Valid(r) && Valid(c)
    ensures Valid(WithCaps(r, Some(c)))
  {
    CapsAt(r, c, Memory);
    CapsAt(r, c, CPU);
  }

  // ----- AddResourceRequirements -----

  /** Only resources already set are summed. */
  function AddList(m: ResourceList, add: ResourceList): ResourceList {
    map k | k in m :: m[k] + Get(add, k)
  }

  function Add(r: Requirements, add: Requirements): Requirements {
    Requirements(AddList(r.limits, add.limits), AddList(r.requests, add.requests))
  }
}
