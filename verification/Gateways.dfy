// Gateway resources and the stores derived from them: an incremental path that must agree with a
// full rebuild, whatever order the hash maps are iterated in.

module GatewayKeys {
  import opened Common
  import opened Text

  datatype TlsConfig = TlsConfig(certificateRefs: Option<seq<string>>, edgionProvider: bool)

  datatype Listener = Listener(name: string, port: int, hostname: Option<string>, tls: Option<TlsConfig>)

  /** `conflicted` names the listeners whose status says so. */
  datatype Gateway = Gateway(
    namespace: Option<string>, name: string, listeners: Option<seq<Listener>>, conflicted: set<string>)

  /** `key_name`: "namespace/name", or the bare name when there is no namespace at all. */
  function KeyName(g: Gateway): string {
    if g.namespace.Some? then g.namespace.value + "/" + g.name else g.name
  }

  /** `build_gateway_key`: an empty namespace counts as none. */
  function ConfigKey(g: Gateway): string {
    if g.namespace.Some? && g.namespace.value != "" then g.namespace.value + "/" + g.name else g.name
  }

  /** The config key a removal computes from a key, by splitting it at a single slash. */
  function RemovalKey(key: string): string {
    var i := Find(key, '/');
    if i < |key| && '/' !in key[i + 1..] then (if i == 0 then key[1..] else key[..i] + "/" + key[i + 1..]) else key
  }

  /** All three views of the key coincide. */
  predicate Addressable(key: string, g: Gateway) { KeyName(g) == key && ConfigKey(g) == key && RemovalKey(key) == key }

  lemma RemovalKeyShape(key: string)
    ensures RemovalKey(key) == if key != "" && key[0] == '/' && '/' !in key[1..] then key[1..] else key
  {
    var i := Find(key, '/');
    if i < |key| && '/' !in key[i + 1..] {
      assert key == key[..i] + "/" + key[i + 1..];
      if i > 0 {
        assert key[..i][0] == key[0];
      }
    } else if key != "" && key[0] == '/' {
      assert i == 0;
    }
  }

  /** A removal finds the config entry of a gateway exactly when its name and namespace have this shape. */
  lemma RemovalFindsConfig(g: Gateway)
    ensures RemovalKey(KeyName(g)) == ConfigKey(g) <==>
      match g.namespace
      case None => g.name == "" || g.name[0] != '/' || '/' in g.name[1..]
      case Some(ns) => ns != "" || '/' !in g.name
  {
    hide Find;
    RemovalKeyShape(KeyName(g));
    if g.namespace.Some? {
      var ns, key := g.namespace.value, KeyName(g);
      if ns == "" {
        assert key == "/" + g.name;
        assert key[1..] == g.name;
        assert |key| != |g.name|;
      } else {
        assert key[|ns|] == '/' && key[1..][|ns| - 1] == '/';
      }
    } else if g.name != "" {
      assert |g.name[1..]| != |g.name|;
    }
  }

  /** Names without slashes outside an empty namespace are addressable, as Kubernetes names are. */
  lemma PlainNamesAddressable(g: Gateway)
    requires '/' !in g.name && g.namespace != Some("")
    ensures Addressable(KeyName(g), g)
  {
    RemovalFindsConfig(g);
  }
}

/** Entries collected from gateways and grouped by key; order within a group carries no meaning. */
module DerivedIndex {
  import opened Common
  import opened GatewayKeys

  /** A gateway's entries under `key`. */
  function Own<K(==), V>(items: seq<(K, V)>, key: K): multiset<V> {
    if items == [] then multiset{}
    else
      var (k, v) := items[|items| - 1];
      if k == key then Own(items[..|items| - 1], key) + multiset{v} else Own(items[..|items| - 1], key)
  }

  /** All entries under `key`. */
  function Group<K(==), V>(f: Gateway -> seq<(K, V)>, gs: seq<Gateway>, key: K): multiset<V> {
    if gs == [] then multiset{} else Group(f, gs[..|gs| - 1], key) + Own(f(gs[|gs| - 1]), key)
  }

  ghost predicate IsIndex<K(!new), V>(index: map<K, multiset<V>>, f: Gateway -> seq<(K, V)>, gs: seq<Gateway>) {
    forall k :: Entries(index, k) == Group(f, gs, k) && (k in index ==> index[k] != multiset{})
  }

  function Entries<K, V>(index: map<K, multiset<V>>, k: K): multiset<V> { if k in index then index[k] else multiset{} }

  lemma {:induction false} GroupAppend<K, V>(f: Gateway -> seq<(K, V)>, a: seq<Gateway>, b: seq<Gateway>, k: K)
    ensures Group(f, a + b, k) == Group(f, a, k) + Group(f, b, k)
  {
    if b == [] {
      assert a + b == a;
    } else {
      assert (a + b)[..|a + b| - 1] == a + b[..|b| - 1];
      GroupAppend(f, a, b[..|b| - 1], k);
    }
  }

  lemma CancelOne(a: multiset<Gateway>, b: multiset<Gateway>, x: Gateway)
    requires a + multiset{x} == b + multiset{x}
    ensures a == b
  {
    forall y ensures a[y] == b[y] {
      assert (a + multiset{x})[y] == (b + multiset{x})[y];
    }
  }

  lemma WithoutOne(a: seq<Gateway>, b: seq<Gateway>) returns (j: nat)
    requires a != [] && multiset(a) == multiset(b)
    ensures j < |b| && b[j] == a[|a| - 1]
    ensures multiset(a[..|a| - 1]) == multiset(b[..j] + b[j + 1..])
  {
    var x := a[|a| - 1];
    assert x in multiset(a) && x in b;
    j :| 0 <= j < |b| && b[j] == x;
    assert a == a[..|a| - 1] + [x];
    assert b == b[..j] + [x] + b[j + 1..];
    assert multiset(a) == multiset(a[..|a| - 1]) + multiset{x};
    assert multiset(b) == multiset(b[..j] + b[j + 1..]) + multiset{x};
    CancelOne(multiset(a[..|a| - 1]), multiset(b[..j] + b[j + 1..]), x);
  }

  lemma GroupAt<K, V>(f: Gateway -> seq<(K, V)>, b: seq<Gateway>, j: nat, k: K)
    requires j < |b|
    ensures Group(f, b, k) == Group(f, b[..j] + b[j + 1..], k) + Own(f(b[j]), k)
  {
    hide Group, Own;
    var before, after := b[..j], b[j + 1..];
    assert b == before + ([b[j]] + after);
    GroupAppend(f, before, [b[j]] + after, k);
    GroupAppend(f, [b[j]], after, k);
    GroupOne(f, b[j], k);
    GroupAppend(f, before, after, k);
    Rotate(Group(f, before, k), Own(f(b[j]), k), Group(f, after, k));
  }

  lemma GroupOne<K, V>(f: Gateway -> seq<(K, V)>, g: Gateway, k: K)
    ensures Group(f, [g], k) == Own(f(g), k)
  {
    hide Own;
    assert [g][..0] == [];
  }

  lemma Rotate<V>(a: multiset<V>, b: multiset<V>, c: multiset<V>)
    ensures a + (b + c) == a + c + b
  {
  }

  /** Listing the gateways in another order changes no group. */
  lemma {:induction false} GroupPermuted<K, V>(f: Gateway -> seq<(K, V)>, a: seq<Gateway>, b: seq<Gateway>, k: K)
    requires multiset(a) == multiset(b)
    ensures Group(f, a, k) == Group(f, b, k)
  {
    hide Own;
    if a == [] {
      assert |multiset(b)| == 0;
    } else {
      var j := WithoutOne(a, b);
      GroupPermuted(f, a[..|a| - 1], b[..j] + b[j + 1..], k);
      GroupAt(f, b, j, k);
    }
  }

  /** The indexes of two listings of the same gateways are the same map. */
  lemma IndexUnique<K(!new), V>(i: map<K, multiset<V>>, j: map<K, multiset<V>>, f: Gateway -> seq<(K, V)>, a: seq<Gateway>, b: seq<Gateway>)
    requires IsIndex(i, f, a) && IsIndex(j, f, b) && multiset(a) == multiset(b)
    ensures i == j
  {
    forall k ensures Entries(i, k) == Entries(j, k) {
      GroupPermuted(f, a, b, k);
    }
    forall k ensures k in i <==> k in j {
      assert Entries(i, k) == Entries(j, k);
    }
    forall k | k in i ensures i[k] == j[k] {
      assert Entries(i, k) == Entries(j, k);
    }
  }

  /** `index` is `before` with these entries added. */
  ghost predicate Extended<K(!new), V>(index: map<K, multiset<V>>, before: map<K, multiset<V>>, items: seq<(K, V)>) {
    forall k :: Entries(index, k) == Entries(before, k) + Own(items, k) && (k in index ==> index[k] != multiset{})
  }

  lemma OwnMore<K, V>(items: seq<(K, V)>, j: nat, k: K)
    requires j < |items|
    ensures Own(items[..j + 1], k) == if items[j].0 == k then Own(items[..j], k) + multiset{items[j].1} else Own(items[..j], k)
  {
    assert items[..j + 1][..j] == items[..j];
  }

  lemma ExtendedMore<K(!new), V>(index: map<K, multiset<V>>, before: map<K, multiset<V>>, items: seq<(K, V)>, j: nat)
    requires j < |items| && Extended(index, before, items[..j])
    ensures Extended(index[items[j].0 := Entries(index, items[j].0) + multiset{items[j].1}], before, items[..j + 1])
  {
    hide Own, Entries;
    var key, v := items[j].0, items[j].1;
    var index' := index[key := Entries(index, key) + multiset{v}];
    forall k ensures Entries(index', k) == Entries(before, k) + Own(items[..j + 1], k) && (k in index' ==> index'[k] != multiset{}) {
      OwnMore(items, j, k);
      EntriesMore(index, key, v, k);
      if k == key {
        Regroup(Entries(before, k), Own(items[..j], k), v);
      }
    }
  }

  lemma EntriesMore<K, V>(index: map<K, multiset<V>>, key: K, v: V, k: K)
    ensures var index' := index[key := Entries(index, key) + multiset{v}];
      Entries(index', k) == (if k == key then Entries(index, k) + multiset{v} else Entries(index, k)) &&
      (k == key ==> k in index' && index'[k] != multiset{}) && (k != key && k in index' ==> k in index && index'[k] == index[k])
  {
    var index' := index[key := Entries(index, key) + multiset{v}];
    assert v in index'[key];
  }

  lemma Regroup<V>(a: multiset<V>, b: multiset<V>, v: V)
    ensures a + b + multiset{v} == a + (b + multiset{v})
  {
  }

  /** The inner loop: one gateway's entries, each appended to its group. */
  method AddEntries<K(!new, ==), V(==)>(before: map<K, multiset<V>>, items: seq<(K, V)>) returns (index: map<K, multiset<V>>)
    requires forall k :: k in before ==> before[k] != multiset{}
    ensures Extended(index, before, items)
  {
    index := before;
    for j := 0 to |items|
      invariant Extended(index, before, items[..j])
    {
      var (k, v) := items[j];
      ExtendedMore(index, before, items, j);
      index := index[k := Entries(index, k) + multiset{v}];
    }
    assert items[..|items|] == items;
  }

  /** The rebuilding loop over all gateways. */
  method Rebuild<K(!new, ==), V(==)>(f: Gateway -> seq<(K, V)>, gs: seq<Gateway>) returns (index: map<K, multiset<V>>)
    ensures IsIndex(index, f, gs)
  {
    hide Own, Entries;
    index := map[];
    EmptyIndex<K, V>(f);
    for i := 0 to |gs|
      invariant IsIndex(index, f, gs[..i])
    {
      assert gs[..i + 1][..i] == gs[..i];
      index := AddEntries(index, f(gs[i]));
    }
    assert gs[..|gs|] == gs;
  }

  lemma EmptyIndex<K(!new), V>(f: Gateway -> seq<(K, V)>)
    ensures IsIndex(map[], f, [])
  {
  }

  lemma {:induction false} ExtensionExists<K(!new), V>(before: map<K, multiset<V>>, items: seq<(K, V)>) returns (index: map<K, multiset<V>>)
    requires forall k :: k in before ==> before[k] != multiset{}
    ensures Extended(index, before, items)
  {
    if items == [] {
      index := before;
    } else {
      var n := |items| - 1;
      var shorter := ExtensionExists(before, items[..n]);
      ExtendedMore(shorter, before, items, n);
      assert items[..n + 1] == items;
      index := shorter[items[n].0 := Entries(shorter, items[n].0) + multiset{items[n].1}];
    }
  }

  lemma {:induction false} IndexExists<K(!new), V>(f: Gateway -> seq<(K, V)>, gs: seq<Gateway>) returns (index: map<K, multiset<V>>)
    ensures IsIndex(index, f, gs)
  {
    hide Own, Entries;
    if gs == [] {
      index := map[];
      EmptyIndex<K, V>(f);
    } else {
      var n := |gs| - 1;
      var shorter := IndexExists(f, gs[..n]);
      index := ExtensionExists(shorter, f(gs[n]));
    }
  }
}

/** `GatewayHandler`: the gateway store, the config store, the TLS matcher and the port map. */
module GatewayHandler {
  import opened Common
  import opened GatewayKeys
  import opened DerivedIndex
  import opened TlsMatcher
  import opened TlsOrder

  datatype Info = Info(namespace: Option<string>, name: string, listener: string)

  type Store = map<string, Gateway>

  function Listeners(g: Gateway): seq<Listener> { if g.listeners.Some? then g.listeners.value else [] }

  /** `port as u16`. */
  function PortOf(l: Listener): nat { l.port % 0x1_0000 }

  /** Port entries of the listeners that are not conflicted. */
  function PortEntries(g: Gateway, ls: seq<Listener>): seq<(nat, Info)> {
    if ls == [] then []
    else
      var l := ls[|ls| - 1];
      PortEntries(g, ls[..|ls| - 1]) +
      if l.name in g.conflicted then [] else [(PortOf(l), Info(g.namespace, g.name, l.name))]
  }

  /** Whether a listener terminates TLS, with certificates of its own or provided elsewhere. */
  predicate Terminates(l: Listener) {
    l.hostname.Some? && l.tls.Some? &&
    ((l.tls.value.certificateRefs.Some? && l.tls.value.certificateRefs.value != []) || l.tls.value.edgionProvider)
  }

  function EntryOf(g: Gateway, l: Listener): TlsEntry
    requires Terminates(l)
  {
    var refs := if l.tls.value.certificateRefs.Some? then l.tls.value.certificateRefs.value else [];
    TlsEntry(if g.namespace.Some? then g.namespace.value else "", g.name, l.name, PortOf(l), l.hostname.value, refs)
  }

  /** What a gateway's listeners bring to the matcher of `port`. */
  function TlsEntries(g: Gateway, ls: seq<Listener>, port: nat): seq<TlsEntry> {
    if ls == [] then []
    else
      var l := ls[|ls| - 1];
      TlsEntries(g, ls[..|ls| - 1], port) + if Terminates(l) && PortOf(l) == port then [EntryOf(g, l)] else []
  }

  /** An entry under a port for each listener on that port that is not conflicted, and no other. */
  lemma {:induction false} PortEntriesIff(g: Gateway, ls: seq<Listener>, port: nat, info: Info)
    ensures (port, info) in PortEntries(g, ls) <==>
      exists l :: l in ls && l.name !in g.conflicted && PortOf(l) == port && info == Info(g.namespace, g.name, l.name)
  {
    hide PortOf;
    if ls != [] {
      PortEntriesIff(g, ls[..|ls| - 1], port, info);
      assert ls == ls[..|ls| - 1] + [ls[|ls| - 1]];
    }
  }

  /** An entry for each listener of that port that terminates TLS, and no other. */
  lemma {:induction false} TlsEntriesIff(g: Gateway, ls: seq<Listener>, port: nat, e: TlsEntry)
    ensures e in TlsEntries(g, ls, port) <==> exists l :: l in ls && Terminates(l) && PortOf(l) == port && e == EntryOf(g, l)
  {
    hide PortOf, Terminates, EntryOf;
    if ls != [] {
      TlsEntriesIff(g, ls[..|ls| - 1], port, e);
      assert ls == ls[..|ls| - 1] + [ls[|ls| - 1]];
    }
  }

  function PortsOf(): Gateway -> seq<(nat, Info)> { g => PortEntries(g, Listeners(g)) }

  function TlsOf(port: nat): Gateway -> seq<TlsEntry> { g => TlsEntries(g, Listeners(g), port) }

  /** The matcher of each port that has one. */
  type PortMatchers = map<nat, Matcher>

  function MatcherAt(tls: PortMatchers, port: nat): Matcher { if port in tls then tls[port] else EMPTY }

  /** The listeners of these gateways have been registered in this order. */
  ghost predicate IsMatcher(tls: PortMatchers, gs: seq<Gateway>) {
    forall port :: MatcherAt(tls, port) == RegisterAll(Flat(TlsOf(port), gs))
  }

  function CertificateFor(tls: PortMatchers, port: nat, sni: string): Option<TlsEntry> { Served(MatcherAt(tls, port), sni) }

  /** No lookup tells them apart. */
  ghost predicate SameCertificates(a: PortMatchers, b: PortMatchers) {
    forall port, sni :: CertificateFor(a, port, sni) == CertificateFor(b, port, sni)
  }

  /** The four stores; `configs` keeps, under each config key, the gateway whose parsed form it holds. */
  datatype Runtime = Runtime(gateways: Store, configs: Store, tls: PortMatchers, ports: map<nat, multiset<Info>>)

  // ---------- Registering listeners ----------

  /** `es` has been registered before, and the listeners up to `j` since. */
  function Registered(es: seq<TlsEntry>, g: Gateway, ls: seq<Listener>, port: nat): Matcher {
    RegisterAll(es + TlsEntries(g, ls, port))
  }

  lemma ListenersNone(es: seq<TlsEntry>, g: Gateway, port: nat)
    ensures Registered(es, g, [], port) == RegisterAll(es)
  {
    hide RegisterAll;
    assert es + [] == es;
  }

  lemma ListenersMore(es: seq<TlsEntry>, g: Gateway, ls: seq<Listener>, j: nat, port: nat)
    requires j < |ls|
    ensures var before := Registered(es, g, ls[..j], port);
      Registered(es, g, ls[..j + 1], port) ==
        if Terminates(ls[j]) && PortOf(ls[j]) == port then Register(before, EntryOf(g, ls[j])) else before
  {
    hide RegisterAll, Register, Terminates, EntryOf, PortOf;
    assert ls[..j + 1][..j] == ls[..j];
    var done := TlsEntries(g, ls[..j], port);
    if Terminates(ls[j]) && PortOf(ls[j]) == port {
      RegisterOne(es + done, EntryOf(g, ls[j]));
      assert es + done + [EntryOf(g, ls[j])] == es + (done + [EntryOf(g, ls[j])]);
    } else {
      assert done + [] == done;
    }
  }

  /** The inner loop: one gateway's listeners, after those of `before`. */
  method RegisterListeners(tls: PortMatchers, ghost before: seq<Gateway>, g: Gateway) returns (after: PortMatchers)
    requires IsMatcher(tls, before)
    ensures IsMatcher(after, before + [g])
  {
    hide Registered, RegisterAll, Register, TlsEntries, Terminates, EntryOf, PortOf, Flat;
    after := tls;
    var ls := Listeners(g);
    assert ls[..0] == [];
    forall port ensures MatcherAt(after, port) == Registered(Flat(TlsOf(port), before), g, [], port) {
      ListenersNone(Flat(TlsOf(port), before), g, port);
    }
    for j := 0 to |ls|
      invariant forall port :: MatcherAt(after, port) == Registered(Flat(TlsOf(port), before), g, ls[..j], port)
    {
      var l := ls[j];
      forall port { ListenersMore(Flat(TlsOf(port), before), g, ls, j, port); }
      if Terminates(l) {
        after := after[PortOf(l) := Register(MatcherAt(after, PortOf(l)), EntryOf(g, l))];
      }
    }
    assert ls[..|ls|] == ls;
    forall port ensures Registered(Flat(TlsOf(port), before), g, ls, port) == RegisterAll(Flat(TlsOf(port), before + [g])) {
      GroupMore(before, g, port);
    }
  }

  lemma GroupMore(before: seq<Gateway>, g: Gateway, port: nat)
    ensures Registered(Flat(TlsOf(port), before), g, Listeners(g), port) == RegisterAll(Flat(TlsOf(port), before + [g]))
  {
    hide RegisterAll, Flat;
    FlatAppend(TlsOf(port), before, [g]);
    FlatOne(TlsOf(port), g);
  }

  lemma EmptyMatcher()
    ensures IsMatcher(map[], [])
  {
  }

  /** `rebuild_from_gateways`. */
  method RebuildTls(gs: seq<Gateway>) returns (tls: PortMatchers)
    ensures IsMatcher(tls, gs)
  {
    hide IsMatcher;
    tls := map[];
    EmptyMatcher();
    for i := 0 to |gs|
      invariant IsMatcher(tls, gs[..i])
    {
      assert gs[..i + 1] == gs[..i] + [gs[i]];
      tls := RegisterListeners(tls, gs[..i], gs[i]);
    }
    assert gs[..|gs|] == gs;
  }

  // ---------- Listing a map ----------

  /** The values of a map, with their multiplicities. */
  ghost function Bag(m: Store): multiset<Gateway> {
    if m == map[] then multiset{} else var k :| k in m; Bag(m - {k}) + multiset{m[k]}
  }

  lemma BagChoice(m: Store) returns (k: string)
    requires m != map[]
    ensures k in m && Bag(m) == Bag(m - {k}) + multiset{m[k]}
  {
    k :| k in m && Bag(m) == Bag(m - {k}) + multiset{m[k]};
  }

  lemma {:induction false} BagWithout(m: Store, k: string)
    requires k in m
    ensures Bag(m) == Bag(m - {k}) + multiset{m[k]}
    decreases |m|
  {
    hide Bag;
    var j := BagChoice(m);
    if j != k {
      BagWithout(m - {j}, k);
      BagWithout(m - {k}, j);
      assert m - {j} - {k} == m - {k} - {j};
      Swap(Bag(m - {j} - {k}), m[k], m[j]);
    }
  }

  lemma Swap(b: multiset<Gateway>, x: Gateway, y: Gateway)
    ensures b + multiset{x} + multiset{y} == b + multiset{y} + multiset{x}
  {
  }

  /** `list_gateways`: the values in some order. */
  method ListGateways(m: Store) returns (gs: seq<Gateway>)
    ensures multiset(gs) == Bag(m)
  {
    gs := [];
    var rest := m;
    while rest != map[]
      invariant multiset(gs) + Bag(rest) == Bag(m)
      decreases |rest|
    {
      var k :| k in rest;
      BagWithout(rest, k);
      gs := gs + [rest[k]];
      rest := rest - {k};
    }
  }

  /** Port map and TLS matcher are those of the gateways in the store, listed in this order. */
  ghost predicate DerivedFrom(r: Runtime, gs: seq<Gateway>) {
    multiset(gs) == Bag(r.gateways) && IsIndex(r.ports, PortsOf(), gs) && IsMatcher(r.tls, gs)
  }

  /** For some order. */
  ghost predicate Derived(r: Runtime) { exists gs :: DerivedFrom(r, gs) }

  /** What the listeners of the store bring to the matcher of `port`. */
  function Offered(m: Store, port: nat): set<TlsEntry> { set k, e | k in m && e in TlsOf(port)(m[k]) :: e }

  /** What each gateway offers on this port. */
  ghost function OfferLists(m: Store, port: nat): set<seq<TlsEntry>> { set k | k in m :: TlsOf(port)(m[k]) }

  /** On every port no two listeners clash, or only wildcards shadow and the gateways agree. */
  ghost predicate Settled(m: Store) {
    forall port ::
      NoClash(Offered(m, port)) || (PlainShadows(Offered(m, port)) && HostsAgree(OfferLists(m, port)) && WildcardsAgree(OfferLists(m, port)))
  }

  /** On every port only wildcards shadow, or no gateway clashes with itself. */
  ghost predicate Simple(m: Store) {
    forall port :: PlainShadows(Offered(m, port)) || forall k :: k in m ==> Clean(TlsOf(port)(m[k]), Offered(m, port))
  }

  lemma ListingOffers(m: Store, gs: seq<Gateway>, port: nat)
    requires multiset(gs) == Bag(m)
    ensures Members(Flat(TlsOf(port), gs)) == Offered(m, port)
  {
    hide Bag, Flat, TlsOf;
    forall e ensures e in Flat(TlsOf(port), gs) <==> e in Offered(m, port) {
      FlatMembers(TlsOf(port), gs, e);
      forall g ensures g in gs <==> exists k :: k in m && m[k] == g {
        BagMembers(m, g);
        assert g in gs <==> g in multiset(gs);
      }
    }
  }

  /** Settled listeners are served alike in any listing. */
  lemma SettledIndependent(m: Store, gs: seq<Gateway>, port: nat)
    requires Settled(m) && multiset(gs) == Bag(m)
    ensures Independent(TlsOf(port), gs)
  {
    hide Bag, Flat, TlsOf, NoClash, Independent, PlainShadows, Offered, HostsAgree, WildcardsAgree, Lists, OfferLists;
    ListingOffers(m, gs, port);
    if NoClash(Offered(m, port)) {
      ClearIsIndependent(TlsOf(port), gs);
    } else {
      ListingLists(m, gs, port);
      AgreeIsIndependent(TlsOf(port), gs);
    }
  }

  lemma ListingLists(m: Store, gs: seq<Gateway>, port: nat)
    requires multiset(gs) == Bag(m)
    ensures Lists(TlsOf(port), gs) == OfferLists(m, port)
  {
    hide Bag, TlsOf;
    forall g ensures g in gs <==> exists k :: k in m && m[k] == g {
      BagMembers(m, g);
      assert g in gs <==> g in multiset(gs);
    }
  }

  lemma ListingClean(m: Store, gs: seq<Gateway>, port: nat)
    requires multiset(gs) == Bag(m) && forall k :: k in m ==> Clean(TlsOf(port)(m[k]), Offered(m, port))
    ensures SelfClean(TlsOf(port), gs)
  {
    hide Bag, Clean, TlsOf, Flat, Offered;
    ListingOffers(m, gs, port);
    forall g | g in gs ensures Clean(TlsOf(port)(g), Members(Flat(TlsOf(port), gs))) {
      assert g in multiset(gs);
      BagMembers(m, g);
    }
  }

  /** The port map is determined by the store, for any iteration order, and so is what the TLS matcher answers if
      the listeners are settled. */
  lemma DerivedUnique(r: Runtime, s: Runtime)
    requires Derived(r) && Derived(s) && r.gateways == s.gateways
    ensures r.ports == s.ports
    ensures Settled(r.gateways) ==> SameCertificates(r.tls, s.tls)
  {
    hide Bag, IsIndex, RegisterAll, Flat, TlsOf, Served, Settled;
    var a :| DerivedFrom(r, a);
    var b :| DerivedFrom(s, b);
    IndexUnique(r.ports, s.ports, PortsOf(), a, b);
    if Settled(r.gateways) {
      forall port, sni ensures CertificateFor(r.tls, port, sni) == CertificateFor(s.tls, port, sni) {
        SettledIndependent(r.gateways, a, port);
      }
    }
  }

  predicate AllAddressable(m: Store) { forall k :: k in m ==> Addressable(k, m[k]) }

  /** Gateways are stored under their keys. */
  predicate UnderKeys(m: Store) { forall k :: k in m ==> KeyName(m[k]) == k }

  /** The config store after it is given the gateways of `data` one by one; its own keys may coincide. */
  function Configured(m: Store, data: Store, order: seq<string>): Store
    requires forall k :: k in order ==> k in data
  {
    if order == [] then m
    else
      var n := |order| - 1;
      Configured(m, data, order[..n])[ConfigKey(data[order[n]]) := data[order[n]]]
  }

  ghost predicate Covers(order: seq<string>, data: Store) { forall k :: k in order <==> k in data }

  /** The config store after all gateways of `data`, in some order. */
  ghost predicate ConfiguredFrom(m: Store, data: Store, configs: Store) {
    exists order :: Covers(order, data) && configs == Configured(m, data, order)
  }

  /** And after a delta. */
  ghost predicate ConfigPatched(m: Store, add: Store, update: Store, remove: set<string>, configs: Store) {
    exists added, updated ::
      ConfiguredFrom(m, add, added) && ConfiguredFrom(added, update, updated) && configs == updated - RemovalKeys(remove)
  }

  /** What `full_set` promises for `data`, if all its keys agree. */
  ghost predicate FullState(r: Runtime, data: Store) { r.gateways == data && r.configs == data && Derived(r) }

  /** The same stores, and matchers that no lookup tells apart. */
  ghost predicate Alike(r: Runtime, s: Runtime) {
    r.gateways == s.gateways && r.configs == s.configs && r.ports == s.ports && SameCertificates(r.tls, s.tls)
  }

  class Handler {
    var runtime: Runtime

    constructor ()
      ensures FullState(runtime, map[])
    {
      runtime := Runtime(map[], map[], map[], map[]);
      new;
      EmptyDerived();
    }

    /** Rebuilds the derived structures from the store. */
    method RebuildDerived(gs: seq<Gateway>)
      requires multiset(gs) == Bag(runtime.gateways)
      modifies this
      ensures runtime.gateways == old(runtime.gateways) && runtime.configs == old(runtime.configs) && Derived(runtime)
    {
      hide Bag, IsIndex, IsMatcher;
      var tls := RebuildTls(gs);
      var ports := Rebuild(PortsOf(), gs);
      runtime := runtime.(tls := tls, ports := ports);
      assert DerivedFrom(runtime, gs);
    }

    method FullSet(data: Store)
      requires UnderKeys(data)
      modifies this
      ensures runtime.gateways == data && ConfiguredFrom(map[], data, runtime.configs) && Derived(runtime)
    {
      hide UnderKeys, Bag, ConfiguredFrom;
      var gateways := AddAll(map[], data);
      assert gateways == data;
      runtime := runtime.(gateways := gateways);
      var gs := ListGateways(gateways);
      var configs := ConfigAll(data, gs);
      runtime := runtime.(configs := configs);
      RebuildDerived(gs);
    }

    /** Additions, then updates, then removals; afterwards the derived structures are rebuilt. */
    method PartialUpdate(add: Store, update: Store, remove: set<string>)
      requires UnderKeys(add) && UnderKeys(update) && Derived(runtime)
      modifies this
      ensures runtime.gateways == StorePatched(old(runtime.gateways), add, update, remove)
      ensures ConfigPatched(old(runtime.configs), add, update, remove, runtime.configs)
      ensures Derived(runtime)
    {
      hide UnderKeys, Bag, RemovalKey, Derived, ConfiguredFrom;
      var gateways, configs := AddBoth(runtime.gateways, runtime.configs, add);
      ghost var added := configs;
      gateways, configs := UpdateBoth(gateways, configs, update);
      ghost var updated := configs;
      gateways, configs := RemoveBoth(gateways, configs, remove);
      assert ConfiguredFrom(runtime.configs, add, added) && ConfiguredFrom(added, update, updated);
      var needsRebuild := add != map[] || update != map[] || remove != {};
      if needsRebuild {
        runtime := runtime.(gateways := gateways, configs := configs);
        var gs := ListGateways(gateways);
        RebuildDerived(gs);
      } else {
        NothingToDo(runtime.gateways, runtime.configs, added, updated);
      }
    }
  }

  /** What the gateways of a delta should make of `m`: later parts win. */
  function Patched(m: Store, add: Store, update: Store, remove: set<string>): Store { m + add + update - remove }

  /** What the gateway store makes of it: an addition does not replace a gateway that is already there. */
  function StorePatched(m: Store, add: Store, update: Store, remove: set<string>): Store { add + m + update - remove }

  lemma NothingToDo(m: Store, configs: Store, added: Store, updated: Store)
    requires ConfiguredFrom(configs, map[], added) && ConfiguredFrom(added, map[], updated)
    ensures StorePatched(m, map[], map[], {}) == m && added == updated == configs
  {
    hide Covers;
    forall order, data: Store | Covers(order, data) ensures order != [] ==> data != map[] {
      CoversSome(order, data);
    }
  }

  lemma CoversSome(order: seq<string>, data: Store)
    requires Covers(order, data)
    ensures order != [] ==> data != map[]
  {
    if order != [] {
      assert order[0] in order;
    }
  }

  // ---------- Gateways whose keys agree ----------

  lemma {:induction false} AddressableOrder(m: Store, data: Store, order: seq<string>, k: string)
    requires AllAddressable(data) && forall j :: j in order ==> j in data
    ensures var configs := Configured(m, data, order);
      (k in configs <==> k in order || k in m) && (k in configs ==> configs[k] == if k in order then data[k] else m[k])
  {
    hide ConfigKey, KeyName, RemovalKey;
    if order != [] {
      var n := |order| - 1;
      AddressableOrder(m, data, order[..n], k);
      assert order == order[..n] + [order[n]];
      assert Addressable(order[n], data[order[n]]);
    }
  }

  lemma AddressableConfigured(m: Store, data: Store, configs: Store)
    requires AllAddressable(data) && ConfiguredFrom(m, data, configs)
    ensures configs == m + data
  {
    hide AllAddressable, Configured;
    var order :| Covers(order, data) && configs == Configured(m, data, order);
    forall k ensures (k in configs <==> k in data || k in m) && (k in configs ==> configs[k] == if k in data then data[k] else m[k]) {
      AddressableOrder(m, data, order, k);
    }
  }

  /** A full set leaves exactly the data in both stores, if all keys agree. */
  lemma AddressableFull(r: Runtime, data: Store)
    requires AllAddressable(data) && r.gateways == data && ConfiguredFrom(map[], data, r.configs) && Derived(r)
    ensures FullState(r, data)
  {
    hide AllAddressable, ConfiguredFrom, Derived;
    AddressableConfigured(map[], data, r.configs);
    assert map[] + data == data;
  }

  /** And a delta leaves the patched configs. */
  lemma AddressablePatched(m: Store, add: Store, update: Store, remove: set<string>, configs: Store)
    requires AllAddressable(add) && AllAddressable(update) && forall k :: k in remove ==> RemovalKey(k) == k
    requires ConfigPatched(m, add, update, remove, configs)
    ensures configs == Patched(m, add, update, remove)
  {
    hide AllAddressable, ConfiguredFrom, RemovalKey;
    var added, updated :|
      ConfiguredFrom(m, add, added) && ConfiguredFrom(added, update, updated) && configs == updated - RemovalKeys(remove);
    AddressableConfigured(m, add, added);
    AddressableConfigured(added, update, updated);
    assert RemovalKeys(remove) == remove;
  }

  // Steps of the loops over maps and sets, in whatever order they are taken.

  /** Both, the second winning. */
  function Merged(a: Store, b: Store): Store { a + b }

  function Less(m: Store, ks: set<string>): Store { m - ks }

  lemma NothingTaken(base: Store, m: Store)
    ensures Merged(base, Less(m, m.Keys)) == base && Merged(Less(m, m.Keys), base) == base
  {
    assert Less(m, m.Keys) == map[];
  }

  lemma AllTaken(m: Store)
    ensures Less(m, {}) == m
  {
  }

  lemma TakenLast(base: Store, m: Store, rest: set<string>, k: string)
    requires k in m && k in rest
    ensures Merged(base, Less(m, rest - {k})) == Merged(base, Less(m, rest))[k := m[k]]
  {
  }

  lemma TakenFirst(m: Store, base: Store, rest: set<string>, k: string)
    requires k in m && k in rest
    ensures var before := Merged(Less(m, rest), base);
      Merged(Less(m, rest - {k}), base) == if k in before then before else before[k := m[k]]
  {
  }

  lemma DropAbsent(m: Store, k: string)
    requires k !in m
    ensures Less(m, {k}) == m
  {
  }

  lemma KeyOfEntry(m: Store, k: string)
    requires UnderKeys(m) && k in m
    ensures KeyName(m[k]) == k
  {
  }

  lemma ConfiguredMore(m: Store, data: Store, order: seq<string>, k: string)
    requires k in data && forall j :: j in order ==> j in data
    ensures (forall j :: j in order + [k] ==> j in data) &&
      Configured(m, data, order + [k]) == Configured(m, data, order)[ConfigKey(data[k]) := data[k]]
  {
    assert (order + [k])[..|order|] == order;
  }

  /** `add_gateway` for each gateway, in any order: one that is already there is left alone. */
  method AddAll(before: Store, add: Store) returns (after: Store)
    requires UnderKeys(add)
    ensures after == Merged(add, before)
  {
    hide UnderKeys, KeyName, ConfigKey, Merged, Less;
    after := before;
    var rest := add.Keys;
    NothingTaken(before, add);
    while rest != {}
      invariant rest <= add.Keys && after == Merged(Less(add, rest), before)
      decreases |rest|
    {
      var k :| k in rest;
      KeyOfEntry(add, k);
      TakenFirst(add, before, rest, k);
      var key := KeyName(add[k]);
      if key !in after {
        after := after[key := add[k]];
      }
      rest := rest - {k};
    }
    AllTaken(add);
  }

  /** The loop over added gateways: the config store replaces, the gateway store refuses to. */
  method AddBoth(store: Store, configs: Store, add: Store) returns (store': Store, configs': Store)
    requires UnderKeys(add)
    ensures store' == Merged(add, store) && ConfiguredFrom(configs, add, configs')
  {
    hide UnderKeys, KeyName, ConfigKey, Merged, Less, Configured;
    store', configs' := store, configs;
    var rest := add.Keys;
    ghost var order := [];
    NothingTaken(store, add);
    NothingConfigured(configs, add);
    while rest != {}
      invariant rest <= add.Keys && store' == Merged(Less(add, rest), store)
      invariant (forall k :: k in order <==> k in add && k !in rest) && configs' == Configured(configs, add, order)
      decreases |rest|
    {
      var k :| k in rest;
      KeyOfEntry(add, k);
      TakenFirst(add, store, rest, k);
      ConfiguredMore(configs, add, order, k);
      configs' := configs'[ConfigKey(add[k]) := add[k]];
      if KeyName(add[k]) !in store' {
        store' := store'[KeyName(add[k]) := add[k]];
      }
      rest := rest - {k};
      order := order + [k];
    }
    AllTaken(add);
    assert Covers(order, add);
  }

  /** The loop over updated gateways: both stores insert or replace. */
  method UpdateBoth(store: Store, configs: Store, update: Store) returns (store': Store, configs': Store)
    requires UnderKeys(update)
    ensures store' == Merged(store, update) && ConfiguredFrom(configs, update, configs')
  {
    hide UnderKeys, KeyName, ConfigKey, Merged, Less, Configured;
    store', configs' := store, configs;
    var rest := update.Keys;
    ghost var order := [];
    NothingTaken(store, update);
    NothingConfigured(configs, update);
    while rest != {}
      invariant rest <= update.Keys && store' == Merged(store, Less(update, rest))
      invariant (forall k :: k in order <==> k in update && k !in rest) && configs' == Configured(configs, update, order)
      decreases |rest|
    {
      var k :| k in rest;
      KeyOfEntry(update, k);
      TakenLast(store, update, rest, k);
      ConfiguredMore(configs, update, order, k);
      configs' := configs'[ConfigKey(update[k]) := update[k]];
      store' := store'[KeyName(update[k]) := update[k]];
      rest := rest - {k};
      order := order + [k];
    }
    AllTaken(update);
    assert Covers(order, update);
  }

  lemma NothingConfigured(m: Store, data: Store)
    ensures Configured(m, data, []) == m
  {
  }

  ghost function RemovalKeys(ks: set<string>): set<string> { set k | k in ks :: RemovalKey(k) }

  lemma RemovalKeysMore(ks: set<string>, k: string)
    ensures RemovalKeys(ks + {k}) == RemovalKeys(ks) + {RemovalKey(k)}
  {
    hide RemovalKey;
  }

  lemma LessTwice(m: Store, a: set<string>, b: set<string>)
    ensures Less(Less(m, a), b) == Less(m, a + b)
  {
  }

  /** The loop over removed keys: the config store is given the namespace and name split from the key. */
  method RemoveBoth(store: Store, configs: Store, remove: set<string>) returns (store': Store, configs': Store)
    ensures store' == Less(store, remove) && configs' == Less(configs, RemovalKeys(remove))
  {
    hide RemovalKey, Less, RemovalKeys;
    store', configs' := store, configs;
    var rest := remove;
    ghost var done := {};
    AllTaken(store);
    AllTaken(configs);
    NoRemovalKeys();
    while rest != {}
      invariant rest <= remove && done == remove - rest
      invariant store' == Less(store, done) && configs' == Less(configs, RemovalKeys(done))
      decreases |rest|
    {
      var k :| k in rest;
      LessTwice(store, done, {k});
      RemovalKeysMore(done, k);
      LessTwice(configs, RemovalKeys(done), {RemovalKey(k)});
      configs' := Less(configs', {RemovalKey(k)});
      if k in store' {
        store' := Less(store', {k});
      } else {
        DropAbsent(store', k);
      }
      rest := rest - {k};
      done := done + {k};
    }
    assert done == remove;
  }

  lemma NoRemovalKeys()
    ensures RemovalKeys({}) == {}
  {
  }

  /** `full_set` of the config store. */
  method ConfigAll(ghost data: Store, gs: seq<Gateway>) returns (configs: Store)
    requires UnderKeys(data) && multiset(gs) == Bag(data)
    ensures ConfiguredFrom(map[], data, configs)
  {
    hide Bag, UnderKeys, KeyName, ConfigKey, Configured;
    configs := map[];
    ListingKeys(data, gs);
    ghost var order := [];
    NothingConfigured(map[], data);
    for i := 0 to |gs|
      invariant (forall k :: k in order <==> exists j :: 0 <= j < i && KeyName(gs[j]) == k)
      invariant (forall k :: k in order ==> k in data) && configs == Configured(map[], data, order)
    {
      ConfiguredMore(map[], data, order, KeyName(gs[i]));
      configs := configs[ConfigKey(gs[i]) := gs[i]];
      order := order + [KeyName(gs[i])];
    }
    assert Covers(order, data);
  }

  /** What a delta leaves of the stores of `data`. */
  ghost predicate DeltaState(r: Runtime, data: Store, add: Store, update: Store, remove: set<string>) {
    r.gateways == StorePatched(data, add, update, remove) && r.configs == Patched(data, add, update, remove) && Derived(r)
  }

  /** No added gateway differs from one that is there already and stays. */
  ghost predicate NothingReplaced(data: Store, add: Store, update: Store, remove: set<string>) {
    forall k :: k in add && k in data && k !in update && k !in remove ==> add[k] == data[k]
  }

  /** If the listeners are settled, a delta leaves what a full set of the patched data would, exactly if it replaces nothing. */
  lemma PartialIsFullIff(data: Store, add: Store, update: Store, remove: set<string>, r: Runtime, full: Runtime)
    requires DeltaState(r, data, add, update, remove) && FullState(full, Patched(data, add, update, remove))
    requires Settled(full.gateways)
    ensures Alike(r, full) <==> NothingReplaced(data, add, update, remove)
  {
    hide Derived, SameCertificates, Settled, NothingReplaced, StorePatched, Patched;
    StoreIsPatched(data, add, update, remove);
    if NothingReplaced(data, add, update, remove) {
      DerivedUnique(r, full);
    }
  }

  // ---------- What the listing order can change ----------

  lemma {:induction false} ListingExists(m: Store) returns (gs: seq<Gateway>)
    ensures multiset(gs) == Bag(m)
    decreases |m|
  {
    if m == map[] {
      gs := [];
    } else {
      hide Bag;
      var k := BagChoice(m);
      var rest := ListingExists(m - {k});
      gs := rest + [m[k]];
    }
  }

  lemma {:induction false} NoSuchPort(g: Gateway, ls: seq<Listener>, port: nat)
    requires port >= 0x1_0000
    ensures TlsEntries(g, ls, port) == []
  {
    if ls != [] {
      NoSuchPort(g, ls[..|ls| - 1], port);
    }
  }

  lemma {:induction false} NothingFlat(gs: seq<Gateway>, port: nat)
    requires port >= 0x1_0000
    ensures Flat(TlsOf(port), gs) == []
  {
    hide TlsEntries;
    if gs != [] {
      var g := gs[|gs| - 1];
      NothingFlat(gs[..|gs| - 1], port);
      NoSuchPort(g, Listeners(g), port);
    }
  }

  lemma MatcherExists(gs: seq<Gateway>) returns (tls: PortMatchers)
    ensures IsMatcher(tls, gs)
  {
    hide TlsOf, Flat, Register;
    tls := map port: nat | port < 0x1_0000 :: RegisterAll(Flat(TlsOf(port), gs));
    forall port: nat ensures MatcherAt(tls, port) == RegisterAll(Flat(TlsOf(port), gs)) {
      if port >= 0x1_0000 {
        NothingFlat(gs, port);
      }
    }
  }

  /** Every listing of the store is one that a rebuild may see. */
  lemma Realized(m: Store, configs: Store, gs: seq<Gateway>) returns (r: Runtime)
    requires multiset(gs) == Bag(m)
    ensures r.gateways == m && r.configs == configs && DerivedFrom(r, gs)
  {
    hide Bag, IsIndex, IsMatcher;
    var ports := IndexExists(PortsOf(), gs);
    var tls := MatcherExists(gs);
    r := Runtime(m, configs, tls, ports);
  }

  /** Otherwise two listings of one port are told apart. */
  lemma UnsettledMatters(m: Store, gs: seq<Gateway>) returns (port: nat)
    requires Simple(m) && !Settled(m) && multiset(gs) == Bag(m)
    ensures !Independent(TlsOf(port), gs)
  {
    hide Bag, Clean, TlsOf, Flat, Offered, NoClash, PlainShadows, HostsAgree, WildcardsAgree, Independent, SelfClean, Lists, OfferLists;
    port :| !(NoClash(Offered(m, port)) || (PlainShadows(Offered(m, port)) && HostsAgree(OfferLists(m, port)) && WildcardsAgree(OfferLists(m, port))));
    ListingOffers(m, gs, port);
    if PlainShadows(Offered(m, port)) {
      ListingLists(m, gs, port);
      AgreementIff(TlsOf(port), gs);
    } else {
      ListingClean(m, gs, port);
      OrderIff(TlsOf(port), gs);
    }
  }

  /** And so are the states built from them. */
  lemma UnsettledShows(m: Store, configs: Store) returns (r: Runtime, s: Runtime)
    requires Simple(m) && !Settled(m)
    ensures r.gateways == m && r.configs == configs && Derived(r)
    ensures s.gateways == m && s.configs == configs && Derived(s)
    ensures !SameCertificates(r.tls, s.tls)
  {
    hide Bag, IsIndex, TlsOf, RegisterAll, Flat, Served, Simple, Settled;
    var gs := ListingExists(m);
    var port := UnsettledMatters(m, gs);
    var p, q, sni :| multiset(p) == multiset(gs) && multiset(q) == multiset(gs) &&
      Served(RegisterAll(Flat(TlsOf(port), p)), sni) != Served(RegisterAll(Flat(TlsOf(port), q)), sni);
    r := Realized(m, configs, p);
    s := Realized(m, configs, q);
    assert CertificateFor(r.tls, port, sni) != CertificateFor(s.tls, port, sni);
  }

  /** The TLS matcher answers alike for every iteration order exactly when the listeners are settled. */
  lemma DerivedUniqueIff(m: Store)
    requires Simple(m)
    ensures (forall r, s :: Derived(r) && Derived(s) && r.gateways == m && s.gateways == m ==> SameCertificates(r.tls, s.tls)) <==>
      Settled(m)
  {
    hide Derived, SameCertificates, Simple, Settled;
    if Settled(m) {
      forall r, s | Derived(r) && Derived(s) && r.gateways == m && s.gateways == m ensures SameCertificates(r.tls, s.tls) {
        DerivedUnique(r, s);
      }
    } else {
      var r, s := UnsettledShows(m, m);
    }
  }

  lemma StateExists(m: Store, configs: Store) returns (r: Runtime)
    ensures r.gateways == m && r.configs == configs && Derived(r)
  {
    hide Bag, DerivedFrom;
    var gs := ListingExists(m);
    r := Realized(m, configs, gs);
    assert DerivedFrom(r, gs);
  }

  /** A delta is as good as a full set of the patched data, whatever the iteration order, exactly if it replaces
      nothing and the listeners are settled. */
  lemma DeltaIff(data: Store, add: Store, update: Store, remove: set<string>)
    requires Simple(Patched(data, add, update, remove))
    ensures (forall r, full ::
        DeltaState(r, data, add, update, remove) && FullState(full, Patched(data, add, update, remove)) ==> Alike(r, full)) <==>
      NothingReplaced(data, add, update, remove) && Settled(Patched(data, add, update, remove))
  {
    hide Derived, SameCertificates, NothingReplaced, StorePatched, Patched, Simple, Settled;
    var s, p := StorePatched(data, add, update, remove), Patched(data, add, update, remove);
    StoreIsPatched(data, add, update, remove);
    if !NothingReplaced(data, add, update, remove) {
      var r := StateExists(s, p);
      var full := StateExists(p, p);
      assert DeltaState(r, data, add, update, remove) && FullState(full, p) && !Alike(r, full);
    } else if !Settled(p) {
      var r, full := UnsettledShows(p, p);
      assert DeltaState(r, data, add, update, remove) && FullState(full, p) && !Alike(r, full);
    } else {
      forall r, full | DeltaState(r, data, add, update, remove) && FullState(full, p) ensures Alike(r, full) {
        PartialIsFullIff(data, add, update, remove, r, full);
      }
    }
  }

  lemma StoreIsPatched(data: Store, add: Store, update: Store, remove: set<string>)
    ensures StorePatched(data, add, update, remove) == Patched(data, add, update, remove) <==>
      NothingReplaced(data, add, update, remove)
  {
    var s, p := StorePatched(data, add, update, remove), Patched(data, add, update, remove);
    assert s.Keys == p.Keys;
    if s == p {
      forall k | k in add && k in data && k !in update && k !in remove ensures add[k] == data[k] {
        assert s[k] == p[k];
      }
    }
  }

  lemma EmptyDerived()
    ensures Derived(Runtime(map[], map[], map[], map[]))
  {
    EmptyIndex<nat, Info>(PortsOf());
    EmptyMatcher();
    assert multiset([]) == Bag(map[]);
    assert DerivedFrom(Runtime(map[], map[], map[], map[]), []);
  }

  /** A listing of the data names each key, and nothing else. */
  lemma ListingKeys(data: Store, gs: seq<Gateway>)
    requires UnderKeys(data) && multiset(gs) == Bag(data)
    ensures forall j :: 0 <= j < |gs| ==> KeyName(gs[j]) in data && data[KeyName(gs[j])] == gs[j]
    ensures forall k :: k in data ==> exists j :: 0 <= j < |gs| && KeyName(gs[j]) == k
  {
    hide KeyName;
    forall g ensures g in multiset(gs) <==> exists k :: k in data && data[k] == g {
      BagMembers(data, g);
    }
    forall j | 0 <= j < |gs| ensures KeyName(gs[j]) in data && data[KeyName(gs[j])] == gs[j] {
      assert gs[j] in multiset(gs);
    }
    forall k | k in data ensures exists j :: 0 <= j < |gs| && KeyName(gs[j]) == k {
      assert data[k] in multiset(gs);
      assert data[k] in gs;
    }
  }

  lemma {:induction false} BagMembers(m: Store, g: Gateway)
    ensures g in Bag(m) <==> exists k :: k in m && m[k] == g
    decreases |m|
  {
    if m != map[] {
      var j := BagChoice(m);
      BagMembers(m - {j}, g);
      if k :| k in m && m[k] == g {
        assert k != j ==> k in m - {j} && (m - {j})[k] == g;
      }
    }
  }
}

/** The gateway's copy of the resources, and the batches of changes it hands to the handler. */
module GatewayBatches {
  import opened Common
  import opened GatewayKeys
  import opened GatewayHandler

  datatype Change = InitAdd | EventAdd | EventUpdate | EventDelete

  predicate IsAdd(c: Change) { c.InitAdd? || c.EventAdd? }

  predicate HasAdd(cs: seq<Change>) { exists i :: 0 <= i < |cs| && IsAdd(cs[i]) }

  /** `data` is the current copy; `events` are the changes since the last batch, by key. */
  datatype Cache = Cache(data: Store, events: map<string, seq<Change>>)

  function Receive(c: Cache, change: Change, g: Gateway): Cache {
    var k := KeyName(g);
    var log := if k in c.events then c.events[k] else [];
    Cache(if change.EventDelete? then c.data - {k} else c.data[k := g], c.events[k := log + [change]])
  }

  function ReceiveAll(c: Cache, es: seq<(Change, Gateway)>): Cache {
    if es == [] then c
    else Receive(ReceiveAll(c, es[..|es| - 1]), es[|es| - 1].0, es[|es| - 1].1)
  }

  /** A changed key that is present counts as added if any of its changes was an addition. */
  function Added(c: Cache): Store { map k | k in c.events && k in c.data && HasAdd(c.events[k]) :: c.data[k] }

  function Updated(c: Cache): Store { map k | k in c.events && k in c.data && !HasAdd(c.events[k]) :: c.data[k] }

  function Removed(c: Cache): set<string> { set k | k in c.events && k !in c.data }

  method AnyAdd(cs: seq<Change>) returns (found: bool)
    ensures found <==> HasAdd(cs)
  {
    for i := 0 to |cs|
      invariant forall j :: 0 <= j < i ==> !IsAdd(cs[j])
    {
      if IsAdd(cs[i]) {
        return true;
      }
    }
    return false;
  }

  /** The loop of `process_compressed_events`. */
  method Classify(c: Cache) returns (add: Store, update: Store, remove: set<string>)
    ensures add == Added(c) && update == Updated(c) && remove == Removed(c)
  {
    hide HasAdd;
    add, update, remove := map[], map[], {};
    var rest := c.events.Keys;
    while rest != {}
      invariant rest <= c.events.Keys
      invariant forall k :: k in add <==> k in c.events && k !in rest && k in c.data && HasAdd(c.events[k])
      invariant forall k :: k in update <==> k in c.events && k !in rest && k in c.data && !HasAdd(c.events[k])
      invariant forall k :: k in remove <==> k in c.events && k !in rest && k !in c.data
      invariant (forall k :: k in add ==> add[k] == c.data[k]) && (forall k :: k in update ==> update[k] == c.data[k])
      decreases |rest|
    {
      var k :| k in rest;
      if k in c.data {
        var isAdd := AnyAdd(c.events[k]);
        if isAdd {
          add := add[k := c.data[k]];
        } else {
          update := update[k := c.data[k]];
        }
      } else {
        remove := remove + {k};
      }
      rest := rest - {k};
    }
  }

  /** A key without changes is as it was. */
  lemma {:induction false} Untouched(known: Store, es: seq<(Change, Gateway)>, k: string)
    ensures var c := ReceiveAll(Cache(known, map[]), es);
      k !in c.events ==> (k in c.data <==> k in known) && (k in known ==> c.data[k] == known[k])
  {
    if es != [] {
      Untouched(known, es[..|es| - 1], k);
    }
  }

  /** What the two patches make of one key, for a cache whose untouched keys are as known. */
  lemma PatchedKey(known: Store, c: Cache, k: string)
    requires k !in c.events ==> (k in c.data <==> k in known) && (k in known ==> c.data[k] == known[k])
    ensures var p, s := Patched(known, Added(c), Updated(c), Removed(c)), StorePatched(known, Added(c), Updated(c), Removed(c));
      (k in p <==> k in c.data) && (k in p ==> p[k] == c.data[k]) && (k in s <==> k in c.data) &&
      (k in s ==> s[k] == if k in known && k in Added(c) then known[k] else c.data[k])
  {
    hide HasAdd;
  }

  /** A batch brings the config store up to date always, and the gateway store exactly when no gateway
      it already held, and that was added again, differs from the copy. */
  lemma BatchIff(known: Store, es: seq<(Change, Gateway)>)
    ensures var c := ReceiveAll(Cache(known, map[]), es);
      Patched(known, Added(c), Updated(c), Removed(c)) == c.data
    ensures var c := ReceiveAll(Cache(known, map[]), es);
      StorePatched(known, Added(c), Updated(c), Removed(c)) == c.data <==>
      forall k :: k in known && k in Added(c) ==> known[k] == c.data[k]
  {
    hide ReceiveAll, Patched, StorePatched, Updated, Removed;
    var c := ReceiveAll(Cache(known, map[]), es);
    var p, s := Patched(known, Added(c), Updated(c), Removed(c)), StorePatched(known, Added(c), Updated(c), Removed(c));
    forall k ensures (k in p <==> k in c.data) && (k in p ==> p[k] == c.data[k]) && (k in s <==> k in c.data) &&
      (k in s ==> s[k] == if k in known && k in Added(c) then known[k] else c.data[k])
    {
      Untouched(known, es, k);
      PatchedKey(known, c, k);
    }
    assert p == c.data;
    if s == c.data {
      forall k | k in known && k in Added(c) ensures known[k] == c.data[k] {
        assert k in s;
      }
    }
  }

  /** What a batch hands over is stored under its keys. */
  lemma {:induction false} BatchUnderKeys(known: Store, es: seq<(Change, Gateway)>)
    requires UnderKeys(known)
    ensures var c := ReceiveAll(Cache(known, map[]), es); UnderKeys(c.data) && UnderKeys(Added(c)) && UnderKeys(Updated(c))
  {
    hide KeyName, HasAdd;
    if es != [] {
      BatchUnderKeys(known, es[..|es| - 1]);
    }
  }

  /** Deleting a gateway and adding a different one under its key between two batches leaves the old one in the store. */
  lemma ReAddIsLost(before: Gateway, after: Gateway)
    requires KeyName(before) == KeyName(after) && before != after
    ensures var k := KeyName(before);
      var known: Store := map[k := before];
      var c := ReceiveAll(Cache(known, map[]), [(EventDelete, before), (EventAdd, after)]);
      c.data == map[k := after] && StorePatched(known, Added(c), Updated(c), Removed(c)) == known
  {
    var k := KeyName(before);
    var known: Store := map[k := before];
    var start := Cache(known, map[]);
    var first, second := (EventDelete, before), (EventAdd, after);
    assert [first][..0] == [] && [first, second][..1] == [first];
    assert ReceiveAll(start, [first]) == Receive(start, EventDelete, before);
    var c := ReceiveAll(start, [first, second]);
    assert c == Receive(Receive(start, EventDelete, before), EventAdd, after);
    assert c.data == map[k := after] && c.events[k] == [EventDelete] + [EventAdd];
    assert IsAdd(c.events[k][1]);
  }

  // ---------- Runs of batches ----------

  /** Store and copy after each batch of a run that starts from a full set of `known`. */
  function StoreAfter(known: Store, batches: seq<seq<(Change, Gateway)>>): Store {
    if batches == [] then known
    else
      var n := |batches| - 1;
      var c := ReceiveAll(Cache(DataAfter(known, batches[..n]), map[]), batches[n]);
      StorePatched(StoreAfter(known, batches[..n]), Added(c), Updated(c), Removed(c))
  }

  function DataAfter(known: Store, batches: seq<seq<(Change, Gateway)>>): Store {
    if batches == [] then known
    else ReceiveAll(Cache(DataAfter(known, batches[..|batches| - 1]), map[]), batches[|batches| - 1]).data
  }

  /** Additions in a batch concern keys that were absent when it began. */
  ghost predicate FreshAdds(known: Store, es: seq<(Change, Gateway)>) {
    forall i :: 0 <= i < |es| && IsAdd(es[i].0) ==> KeyName(es[i].1) !in known
  }

  lemma {:induction false} AddedFrom(c: Cache, es: seq<(Change, Gateway)>, k: string)
    requires c.events == map[] && k in ReceiveAll(c, es).events && HasAdd(ReceiveAll(c, es).events[k])
    ensures exists i :: 0 <= i < |es| && IsAdd(es[i].0) && KeyName(es[i].1) == k
  {
    if es != [] {
      var n := |es| - 1;
      var c' := ReceiveAll(c, es[..n]);
      var log := ReceiveAll(c, es).events[k];
      if KeyName(es[n].1) == k && IsAdd(es[n].0) {
        assert 0 <= n < |es|;
      } else {
        var i :| 0 <= i < |log| && IsAdd(log[i]);
        assert k in c'.events && i < |c'.events[k]| && c'.events[k][i] == log[i];
        AddedFrom(c, es[..n], k);
        var j :| 0 <= j < n && IsAdd(es[..n][j].0) && KeyName(es[..n][j].1) == k;
        assert IsAdd(es[j].0);
      }
    }
  }

  lemma NothingReAdded(known: Store, es: seq<(Change, Gateway)>)
    requires FreshAdds(known, es)
    ensures forall k :: k in Added(ReceiveAll(Cache(known, map[]), es)) ==> k !in known
  {
    forall k | k in Added(ReceiveAll(Cache(known, map[]), es)) ensures k !in known {
      AddedFrom(Cache(known, map[]), es, k);
    }
  }

  /** No gateway that is added again differs from the one held before the batch. */
  ghost predicate ReAddsAgree(known: Store, es: seq<(Change, Gateway)>) {
    var c := ReceiveAll(Cache(known, map[]), es);
    forall k :: k in known && k in Added(c) ==> known[k] == c.data[k]
  }

  lemma BatchAfter(known: Store, batches: seq<seq<(Change, Gateway)>>, n: nat)
    requires n < |batches| && StoreAfter(known, batches[..n]) == DataAfter(known, batches[..n])
    ensures StoreAfter(known, batches[..n + 1]) == DataAfter(known, batches[..n + 1]) <==>
      ReAddsAgree(DataAfter(known, batches[..n]), batches[n])
  {
    hide ReceiveAll, Added, Updated, Removed, StorePatched, Patched;
    assert batches[..n + 1][..n] == batches[..n];
    BatchIff(DataAfter(known, batches[..n]), batches[n]);
  }

  /** The store equals the copy after every batch of a run exactly when re-added gateways agree in each. */
  lemma StoreFollowsIff(known: Store, batches: seq<seq<(Change, Gateway)>>)
    ensures (forall n :: 0 <= n <= |batches| ==> StoreAfter(known, batches[..n]) == DataAfter(known, batches[..n])) <==>
      forall n :: 0 <= n < |batches| ==> ReAddsAgree(DataAfter(known, batches[..n]), batches[n])
  {
    hide StoreAfter, DataAfter, ReAddsAgree;
    if forall n :: 0 <= n < |batches| ==> ReAddsAgree(DataAfter(known, batches[..n]), batches[n]) {
      forall n | 0 <= n <= |batches| ensures StoreAfter(known, batches[..n]) == DataAfter(known, batches[..n]) {
        StoreFollowsTo(known, batches, n);
      }
    }
    if forall n :: 0 <= n <= |batches| ==> StoreAfter(known, batches[..n]) == DataAfter(known, batches[..n]) {
      forall n | 0 <= n < |batches| ensures ReAddsAgree(DataAfter(known, batches[..n]), batches[n]) {
        BatchAfter(known, batches, n);
      }
    }
  }

  lemma {:induction false} StoreFollowsTo(known: Store, batches: seq<seq<(Change, Gateway)>>, n: nat)
    requires n <= |batches| && forall m :: 0 <= m < |batches| ==> ReAddsAgree(DataAfter(known, batches[..m]), batches[m])
    ensures StoreAfter(known, batches[..n]) == DataAfter(known, batches[..n])
  {
    hide ReAddsAgree;
    if n > 0 {
      StoreFollowsTo(known, batches, n - 1);
      BatchAfter(known, batches, n - 1);
    }
  }

  /** So if additions are always new to the batch they arrive in, the store follows the copy through every run. */
  lemma StoreFollowsData(known: Store, batches: seq<seq<(Change, Gateway)>>)
    requires forall n :: 0 <= n < |batches| ==> FreshAdds(DataAfter(known, batches[..n]), batches[n])
    ensures forall n :: 0 <= n <= |batches| ==> StoreAfter(known, batches[..n]) == DataAfter(known, batches[..n])
  {
    hide StoreAfter, DataAfter, FreshAdds, ReceiveAll, Added;
    forall n | 0 <= n < |batches| ensures ReAddsAgree(DataAfter(known, batches[..n]), batches[n]) {
      NothingReAdded(DataAfter(known, batches[..n]), batches[n]);
    }
    StoreFollowsIff(known, batches);
  }
}
