// Load-balancer analyses of the test client: request totals per service and endpoint, and
// whether each hash key went to a single endpoint.

module MapSums {

  /** Sum of all values, in whatever order they are met. */
  ghost function Sum(m: map<string, nat>): nat {
    if m == map[] then 0 else var k :| k in m; m[k] + Sum(m - {k})
  }

  lemma {:induction false} SumWithout(m: map<string, nat>, k: string)
    requires k in m
    ensures Sum(m) == m[k] + Sum(m - {k})
    decreases |m|
  {
    var j :| j in m && Sum(m) == m[j] + Sum(m - {j});
    if j != k {
      SumWithout(m - {j}, k);
      SumWithout(m - {k}, j);
      assert m - {j} - {k} == m - {k} - {j};
    }
  }

  function Get(m: map<string, nat>, k: string): nat { if k in m then m[k] else 0 }

  lemma SumAdd(m: map<string, nat>, k: string, n: nat)
    ensures Sum(m[k := Get(m, k) + n]) == Sum(m) + n
  {
    var m' := m[k := Get(m, k) + n];
    SumWithout(m', k);
    assert m' - {k} == m - {k};
    if k in m {
      SumWithout(m, k);
    } else {
      assert m - {k} == m;
    }
  }

  /** No value exceeds the sum, and the largest one is at least the average. */
  lemma {:induction false} MaxTimesSize(m: map<string, nat>, top: nat)
    requires forall k :: k in m ==> m[k] <= top
    ensures Sum(m) <= top * |m|
    decreases |m|
  {
    if m != map[] {
      var k :| k in m;
      SumWithout(m, k);
      MaxTimesSize(m - {k}, top);
      assert |m - {k}| == |m| - 1;
      assert top * |m| == top * (|m| - 1) + top;
    }
  }

  lemma PartOfSum(m: map<string, nat>, k: string)
    requires k in m
    ensures m[k] <= Sum(m) && (|m| == 1 ==> m[k] == Sum(m))
  {
    SumWithout(m, k);
    if |m| == 1 {
      assert |m - {k}| == 0;
    }
  }

  lemma PartsOfSum(m: map<string, nat>)
    ensures forall k :: k in m ==> m[k] <= Sum(m)
  {
    hide Sum;
    forall k | k in m ensures m[k] <= Sum(m) {
      PartOfSum(m, k);
    }
  }
}

module LbAnalysis {
  import opened Common
  import opened Decimal
  import opened Metrics
  import opened MapSums

  function ServiceKey(m: Metric): string { m.backendNs + "/" + m.backendName }

  /** "ip:port", when the sample's test data holds both. */
  function Endpoint(m: Metric): Option<string> {
    if m.testData.Some? && m.testData.value.ip.Some? && m.testData.value.port.Some?
    then Some(m.testData.value.ip.value + ":" + Print(m.testData.value.port.value)) else None
  }

  /** A non-empty hash key. */
  function HashKey(m: Metric): Option<string> {
    if m.testData.Some? && m.testData.value.hashKey.Some? && m.testData.value.hashKey.value != ""
    then m.testData.value.hashKey else None
  }

  predicate Keyed(m: Metric) { HashKey(m).Some? && Endpoint(m).Some? }

  function ByService(): Metric -> Option<string> { m => Some(ServiceKey(m)) }

  function ByEndpoint(): Metric -> Option<string> { m => Endpoint(m) }

  /** Requests in samples that satisfy `p`. */
  function Count(p: Metric -> bool, ms: seq<Metric>): nat {
    if ms == [] then 0
    else Count(p, ms[..|ms| - 1]) + if p(ms[|ms| - 1]) then ms[|ms| - 1].count else 0
  }

  /** Request totals per group; samples without one are left out. */
  function Group(f: Metric -> Option<string>, ms: seq<Metric>): map<string, nat> {
    if ms == [] then map[]
    else
      var g, m := Group(f, ms[..|ms| - 1]), ms[|ms| - 1];
      match f(m)
      case None => g
      case Some(k) => g[k := Get(g, k) + m.count]
  }

  /** A group holds the requests of its own samples, and exists if there are any samples. */
  lemma {:induction false} GroupCounts(f: Metric -> Option<string>, ms: seq<Metric>, k: string)
    ensures Get(Group(f, ms), k) == Count(m => f(m) == Some(k), ms)
    ensures k in Group(f, ms) <==> exists m :: m in ms && f(m) == Some(k)
  {
    if ms != [] {
      GroupCounts(f, ms[..|ms| - 1], k);
      assert ms == ms[..|ms| - 1] + [ms[|ms| - 1]];
    }
  }

  /** Grouping loses no request. */
  lemma {:induction false} GroupSum(f: Metric -> Option<string>, ms: seq<Metric>)
    ensures Sum(Group(f, ms)) == Count(m => f(m).Some?, ms)
  {
    if ms != [] {
      var g, m := Group(f, ms[..|ms| - 1]), ms[|ms| - 1];
      GroupSum(f, ms[..|ms| - 1]);
      if f(m).Some? {
        SumAdd(g, f(m).value, m.count);
      }
    }
  }

  lemma {:induction false} CountSame(p: Metric -> bool, q: Metric -> bool, ms: seq<Metric>)
    requires forall m :: m in ms && p(m) ==> q(m)
    ensures Count(p, ms) <= Count(q, ms)
  {
    if ms != [] {
      CountSame(p, q, ms[..|ms| - 1]);
    }
  }

  /** `analyze_lb_distribution`, up to the ratios. */
  method AnalyzeLbDistribution(ms: seq<Metric>)
      returns (total: nat, byEndpoint: map<string, nat>, byService: map<string, nat>)
    ensures total == Count(m => true, ms) == Sum(byService)
    ensures Sum(byEndpoint) == Count(m => Endpoint(m).Some?, ms) <= total
    ensures (forall k :: k in byService ==> byService[k] <= total) && (forall k :: k in byEndpoint ==> byEndpoint[k] <= total)
    ensures byService == Group(ByService(), ms) && byEndpoint == Group(ByEndpoint(), ms)
  {
    hide Sum, ServiceKey, Endpoint;
    total, byEndpoint, byService := 0, map[], map[];
    for i := 0 to |ms|
      invariant total == Count(m => true, ms[..i])
      invariant byService == Group(ByService(), ms[..i])
      invariant byEndpoint == Group(ByEndpoint(), ms[..i])
    {
      var m := ms[i];
      assert ms[..i + 1][..i] == ms[..i];
      total := total + m.count;
      var service := ServiceKey(m);
      byService := byService[service := Get(byService, service) + m.count];
      if Endpoint(m).Some? {
        var endpoint := Endpoint(m).value;
        byEndpoint := byEndpoint[endpoint := Get(byEndpoint, endpoint) + m.count];
      }
    }
    assert ms[..|ms|] == ms;
    GroupTotals(ms);
    PartsOfSum(byService);
    PartsOfSum(byEndpoint);
  }

  lemma GroupTotals(ms: seq<Metric>)
    ensures Sum(Group(ByService(), ms)) == Count(m => true, ms)
    ensures Sum(Group(ByEndpoint(), ms)) == Count(m => Endpoint(m).Some?, ms) <= Count(m => true, ms)
  {
    hide Sum, Count, Group;
    GroupSum(ByService(), ms);
    GroupSum(ByEndpoint(), ms);
    CountSame(m => ByService()(m).Some?, m => true, ms);
    CountSame(m => true, m => ByService()(m).Some?, ms);
    CountSame(m => ByEndpoint()(m).Some?, m => Endpoint(m).Some?, ms);
    CountSame(m => Endpoint(m).Some?, m => ByEndpoint()(m).Some?, ms);
    CountSame(m => Endpoint(m).Some?, m => true, ms);
  }

  // ---------- Consistent hashing ----------

  /** Requests per endpoint for each hash key. */
  function Endpoints(ms: seq<Metric>): map<string, map<string, nat>> {
    if ms == [] then map[] else AddSample(Endpoints(ms[..|ms| - 1]), ms[|ms| - 1])
  }

  function AddSample(g: map<string, map<string, nat>>, m: Metric): map<string, map<string, nat>> {
    if !Keyed(m) then g
    else
      var k, e := HashKey(m).value, Endpoint(m).value;
      var inner := if k in g then g[k] else map[];
      g[k := inner[e := Get(inner, e) + m.count]]
  }

  /** Some sample carries this key and this endpoint. */
  ghost predicate Seen(ms: seq<Metric>, k: string, e: string) {
    exists m :: m in ms && HashKey(m) == Some(k) && Endpoint(m) == Some(e)
  }

  lemma SeenMore(ms: seq<Metric>, k: string, e: string)
    requires ms != []
    ensures var m := ms[|ms| - 1];
      Seen(ms, k, e) <==> Seen(ms[..|ms| - 1], k, e) || (HashKey(m) == Some(k) && Endpoint(m) == Some(e))
  {
    assert ms == ms[..|ms| - 1] + [ms[|ms| - 1]];
  }

  /** A key is mapped to the endpoints seen with it, and there is at least one. */
  lemma {:induction false} EndpointsSeen(ms: seq<Metric>, k: string)
    ensures k !in Endpoints(ms) ==> forall e :: !Seen(ms, k, e)
    ensures k in Endpoints(ms) ==> Endpoints(ms)[k] != map[] && forall e :: e in Endpoints(ms)[k] <==> Seen(ms, k, e)
  {
    if ms != [] {
      EndpointsSeen(ms[..|ms| - 1], k);
      forall e { SeenMore(ms, k, e); }
    }
  }

  ghost function KeyTotal(g: map<string, map<string, nat>>, k: string): nat { if k in g then Sum(g[k]) else 0 }

  ghost function Totals(g: map<string, map<string, nat>>): map<string, nat> { map k | k in g :: KeyTotal(g, k) }

  lemma NoTotals()
    ensures Sum(Totals(map[])) == 0
  {
    assert Totals(map[]) == map[];
  }

  /** Requests of the keys in `keys`. */
  ghost function TotalOf(g: map<string, map<string, nat>>, keys: set<string>): nat {
    Sum(map k | k in keys :: KeyTotal(g, k))
  }

  lemma TotalOfAll(g: map<string, map<string, nat>>)
    ensures TotalOf(g, g.Keys) == Sum(Totals(g)) && TotalOf(g, {}) == 0
  {
    assert Totals(g) == map k | k in g.Keys :: KeyTotal(g, k);
    assert (map k | k in {} :: KeyTotal(g, k)) == map[];
  }

  lemma TotalOfLess(g: map<string, map<string, nat>>, keys: set<string>, k: string)
    requires k in g && k in keys
    ensures TotalOf(g, keys) == Sum(g[k]) + TotalOf(g, keys - {k})
  {
    var m := map j | j in keys :: KeyTotal(g, j);
    SumWithout(m, k);
    assert m - {k} == map j | j in keys - {k} :: KeyTotal(g, j);
  }

  lemma TotalsReplace(g: map<string, map<string, nat>>, k: string, inner: map<string, nat>, n: nat)
    requires Sum(inner) == KeyTotal(g, k) + n
    ensures Sum(Totals(g[k := inner])) == Sum(Totals(g)) + n
  {
    SumAdd(Totals(g), k, n);
    assert Totals(g[k := inner]) == Totals(g)[k := Get(Totals(g), k) + n];
  }

  lemma KeyTotalIs(g: map<string, map<string, nat>>, k: string)
    ensures KeyTotal(g, k) == Sum(if k in g then g[k] else map[])
  {
  }

  lemma AddedSum(g: map<string, map<string, nat>>, m: Metric)
    ensures Sum(Totals(AddSample(g, m))) == Sum(Totals(g)) + if Keyed(m) then m.count else 0
  {
    hide Sum, Totals, KeyTotal;
    if Keyed(m) {
      var k, e := HashKey(m).value, Endpoint(m).value;
      var inner := if k in g then g[k] else map[];
      KeyTotalIs(g, k);
      SumAdd(inner, e, m.count);
      TotalsReplace(g, k, inner[e := Get(inner, e) + m.count], m.count);
    }
  }

  /** Every keyed request is counted under its key. */
  lemma {:induction false} KeyedSum(ms: seq<Metric>)
    ensures Sum(Totals(Endpoints(ms))) == Count(m => Keyed(m), ms)
  {
    if ms == [] {
      NoTotals();
    } else {
      KeyedSum(ms[..|ms| - 1]);
      AddedSum(Endpoints(ms[..|ms| - 1]), ms[|ms| - 1]);
    }
  }

  /** Some key occurs with an endpoint, and none occurs with two. */
  ghost predicate Consistent(ms: seq<Metric>) {
    (exists k, e :: Seen(ms, k, e)) && (forall k, e, f :: Seen(ms, k, e) && Seen(ms, k, f) ==> e == f)
  }

  lemma OneKey(m: map<string, nat>)
    requires m != map[]
    ensures |m| == 1 <==> forall a, b :: a in m && b in m ==> a == b
  {
    var a :| a in m;
    assert |m.Keys - {a}| == |m| - 1;
    if |m| != 1 {
      var b :| b in m.Keys - {a};
    }
  }

  lemma ConsistentIff(ms: seq<Metric>)
    ensures Consistent(ms) <==> Endpoints(ms) != map[] && forall k :: k in Endpoints(ms) ==> |Endpoints(ms)[k]| == 1
  {
    hide Endpoints, Seen;
    var g := Endpoints(ms);
    forall k { EndpointsSeen(ms, k); }
    forall k | k in g { OneKey(g[k]); }
    if Consistent(ms) {
      var k, e :| Seen(ms, k, e);
      assert k in g;
      forall k | k in g ensures |g[k]| == 1 {
        assert forall e, f :: e in g[k] && f in g[k] ==> Seen(ms, k, e) && Seen(ms, k, f);
      }
    }
    if g != map[] && forall k :: k in g ==> |g[k]| == 1 {
      var k :| k in g;
      var e :| e in g[k];
      assert Seen(ms, k, e);
      forall k, e, f | Seen(ms, k, e) && Seen(ms, k, f) ensures e == f {
        assert k in g && e in g[k] && f in g[k];
      }
    }
  }

  /** `values().sum()`. */
  method SumValues(m: map<string, nat>) returns (sum: nat)
    ensures sum == Sum(m)
  {
    sum := 0;
    var rest := m;
    while rest != map[]
      invariant rest.Keys <= m.Keys && sum + Sum(rest) == Sum(m)
      decreases |rest|
    {
      var k :| k in rest;
      SumWithout(rest, k);
      sum, rest := sum + rest[k], rest - {k};
    }
  }

  /** The endpoint with the most requests; no endpoint can have fewer than the average of the key. */
  ghost predicate Primary(m: map<string, nat>, e: string) {
    e in m && (forall k :: k in m ==> m[k] <= m[e]) && m[e] * |m| >= Sum(m)
  }

  /** `max_by_key` on the counts. */
  method MostRequests(m: map<string, nat>) returns (top: string)
    requires m != map[]
    ensures top in m && Primary(m, top) && m[top] <= Sum(m) && (|m| == 1 ==> m[top] == Sum(m))
  {
    top :| top in m;
    var rest := m.Keys;
    while rest != {}
      invariant rest <= m.Keys && top in m && forall k :: k in m && k !in rest ==> m[k] <= m[top]
      decreases |rest|
    {
      var k :| k in rest;
      rest := rest - {k};
      if m[k] >= m[top] {
        top := k;
      }
    }
    MaxTimesSize(m, m[top]);
    PartOfSum(m, top);
  }

  /** `analyze_chash_consistency`, up to the rate. */
  method AnalyzeChashConsistency(ms: seq<Metric>)
      returns (total: nat, keyed: nat, consistent: nat, keyToEndpoint: map<string, string>,
               inconsistentKeys: seq<string>, isConsistent: bool)
    ensures total == Count(m => true, ms) && keyed == Count(m => Keyed(m), ms)
    ensures consistent <= keyed <= total && (isConsistent ==> consistent == keyed)
    ensures keyToEndpoint.Keys == Endpoints(ms).Keys
    ensures forall k :: k in keyToEndpoint ==> Primary(Endpoints(ms)[k], keyToEndpoint[k])
    ensures forall k :: k in inconsistentKeys <==> k in Endpoints(ms) && |Endpoints(ms)[k]| > 1
    ensures forall i, j :: 0 <= i < j < |inconsistentKeys| ==> inconsistentKeys[i] != inconsistentKeys[j]
    ensures isConsistent <==> Consistent(ms)
  {
    hide Endpoints, Count, Sum, Totals, Primary, Consistent;
    var mapping;
    total, mapping := CollectKeys(ms);
    forall k | k in mapping ensures mapping[k] != map[] {
      EndpointsSeen(ms, k);
    }
    keyed, consistent, keyToEndpoint, inconsistentKeys := SummarizeKeys(mapping);
    isConsistent := inconsistentKeys == [] && mapping != map[];
    assert inconsistentKeys != [] ==> inconsistentKeys[0] in inconsistentKeys;
    KeyedSum(ms);
    ConsistentIff(ms);
    CountSame(m => Keyed(m), m => true, ms);
    forall k | k in mapping ensures |mapping[k]| >= 1 {
      AtLeastOne(mapping[k]);
    }
  }

  lemma AtLeastOne(m: map<string, nat>)
    requires m != map[]
    ensures |m| >= 1
  {
  }

  /** The loop over the samples. */
  method CollectKeys(ms: seq<Metric>) returns (total: nat, mapping: map<string, map<string, nat>>)
    ensures total == Count(m => true, ms) && mapping == Endpoints(ms)
  {
    hide HashKey, Endpoint;
    total, mapping := 0, map[];
    for i := 0 to |ms|
      invariant total == Count(m => true, ms[..i]) && mapping == Endpoints(ms[..i])
    {
      var m := ms[i];
      assert ms[..i + 1][..i] == ms[..i];
      total := total + m.count;
      if Keyed(m) {
        var k, e := HashKey(m).value, Endpoint(m).value;
        var inner := if k in mapping then mapping[k] else map[];
        mapping := mapping[k := inner[e := Get(inner, e) + m.count]];
      }
    }
    assert ms[..|ms|] == ms;
  }

  /** The keys outside `rest` have been summarized. */
  ghost predicate Summary(mapping: map<string, map<string, nat>>, rest: set<string>,
                          keyToEndpoint: map<string, string>, inconsistentKeys: seq<string>)
  {
    rest <= mapping.Keys && keyToEndpoint.Keys == mapping.Keys - rest &&
    (forall k :: k in keyToEndpoint ==> Primary(mapping[k], keyToEndpoint[k])) &&
    (forall k :: k in inconsistentKeys <==> k in mapping && k !in rest && |mapping[k]| != 1) &&
    (forall i, j :: 0 <= i < j < |inconsistentKeys| ==> inconsistentKeys[i] != inconsistentKeys[j])
  }

  lemma SummaryMore(mapping: map<string, map<string, nat>>, rest: set<string>,
                    keyToEndpoint: map<string, string>, inconsistentKeys: seq<string>, k: string, top: string)
    requires Summary(mapping, rest, keyToEndpoint, inconsistentKeys) && k in rest && Primary(mapping[k], top)
    ensures Summary(mapping, rest - {k}, keyToEndpoint[k := top],
                    if |mapping[k]| == 1 then inconsistentKeys else inconsistentKeys + [k])
  {
    hide Primary;
  }

  /** The loop over the hash keys, in any order. */
  method SummarizeKeys(mapping: map<string, map<string, nat>>)
      returns (keyed: nat, consistent: nat, keyToEndpoint: map<string, string>, inconsistentKeys: seq<string>)
    requires forall k :: k in mapping ==> mapping[k] != map[]
    ensures keyed == Sum(Totals(mapping)) && consistent <= keyed && (inconsistentKeys == [] ==> consistent == keyed)
    ensures Summary(mapping, {}, keyToEndpoint, inconsistentKeys)
  {
    hide Sum, Totals, TotalOf, KeyTotal, Primary, Summary;
    keyed, consistent, keyToEndpoint, inconsistentKeys := 0, 0, map[], [];
    TotalOfAll(mapping);
    var rest := mapping.Keys;
    NothingSummarized(mapping);
    while rest != {}
      invariant rest <= mapping.Keys && keyed + TotalOf(mapping, rest) == Sum(Totals(mapping))
      invariant consistent <= keyed && (inconsistentKeys == [] ==> consistent == keyed)
      invariant Summary(mapping, rest, keyToEndpoint, inconsistentKeys)
      decreases |rest|
    {
      var k :| k in rest;
      var endpoints := mapping[k];
      var keyTotal := SumValues(endpoints);
      TotalOfLess(mapping, rest, k);
      var top := MostRequests(endpoints);
      SummaryMore(mapping, rest, keyToEndpoint, inconsistentKeys, k, top);
      keyed := keyed + keyTotal;
      keyToEndpoint := keyToEndpoint[k := top];
      if |endpoints| == 1 {
        consistent := consistent + keyTotal;
      } else {
        inconsistentKeys := inconsistentKeys + [k];
        consistent := consistent + endpoints[top];
      }
      rest := rest - {k};
    }
  }

  lemma NothingSummarized(mapping: map<string, map<string, nat>>)
    ensures Summary(mapping, mapping.Keys, map[], [])
  {
  }
}
