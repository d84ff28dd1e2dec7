// The certificate matcher of one port: listeners registered one after the other in a hash of hostnames,
// and when the order in which they come matters.

module TlsMatcher {
  import opened Common
  import opened Labels
  import opened Domains
  import opened HashHosts

  datatype TlsEntry = TlsEntry(namespace: string, name: string, listener: string, port: nat, hostname: string, refs: seq<string>)

  type Matcher = Hosts<seq<TlsEntry>>

  const EMPTY: Matcher := Hosts(map[], {})

  /** Joins the entries where the hostname is found already, or else starts a new list, if it can be stored at all. */
  function Register(h: Matcher, e: TlsEntry): Matcher {
    match Lookup(h, e.hostname)
    case Some(key) => h.(entries := h.entries[key := h.entries[key] + [e]])
    case None => Inserted(h, e.hostname, [e])
  }

  function RegisterAll(es: seq<TlsEntry>): Matcher {
    if es == [] then EMPTY else Register(RegisterAll(es[..|es| - 1]), es[|es| - 1])
  }

  /** `match_sni_with_port`: the first entry where the name is found. */
  function Served(h: Matcher, sni: string): Option<TlsEntry> {
    match Lookup(h, sni)
    case None => None
    case Some(key) => if h.entries[key] == [] then None else Some(h.entries[key][0])
  }

  lemma RegisterOne(es: seq<TlsEntry>, e: TlsEntry)
    ensures RegisterAll(es + [e]) == Register(RegisterAll(es), e)
  {
    assert (es + [e])[..|es|] == es;
  }

  // ---------- Clashes ----------

  /** `a` has an exact hostname that ends with the key of `b`, which is as long as the key of the wildcard `c`. */
  predicate Shadowed(a: TlsEntry, b: TlsEntry, c: TlsEntry) {
    var s, w := KeyOf(b.hostname), KeyOf(c.hostname);
    ValidDomain(a.hostname) && s.Some? && w.Some? && Wild(w.value) && |w.value| == |s.value| < |a.hostname| &&
    Suffix(a.hostname, |s.value|) == s.value
  }

  predicate SameKey(a: TlsEntry, b: TlsEntry) { KeyOf(a.hostname).Some? && KeyOf(a.hostname) == KeyOf(b.hostname) }

  /** No two entries share a key, and no exact hostname would be found under another entry's key. */
  ghost predicate NoClash(es: set<TlsEntry>) {
    (forall a, b :: a in es && b in es && SameKey(a, b) ==> a == b) &&
    (forall a, b, c :: a in es && b in es && c in es ==> !Shadowed(a, b, c))
  }

  function Members(es: seq<TlsEntry>): set<TlsEntry> { set e | e in es }

  // ---------- What every run keeps ----------

  /** Each list starts with an entry of its own hostname, and only hostnames that came are there. */
  ghost predicate Sound(h: Matcher, es: seq<TlsEntry>) {
    (forall key :: key in h.entries ==>
      h.entries[key] != [] && h.entries[key][0] in es && KeyOf(h.entries[key][0].hostname) == Some(key)) &&
    (forall n :: n in h.lens ==> exists e :: e in es && KeyOf(e.hostname).Some? && Wild(KeyOf(e.hostname).value) && |KeyOf(e.hostname).value| == n)
  }

  lemma StepSound(h: Matcher, es: seq<TlsEntry>, e: TlsEntry)
    requires Sound(h, es)
    ensures Sound(Register(h, e), es + [e])
  {
    hide KeyOf, Lookup;
    assert e in es + [e] && forall x :: x in es ==> x in es + [e];
  }

  lemma {:induction false} RunSound(es: seq<TlsEntry>)
    ensures Sound(RegisterAll(es), es)
  {
    hide Register, Sound;
    if es == [] {
      EmptySound();
    } else {
      var n := |es| - 1;
      RunSound(es[..n]);
      StepSound(RegisterAll(es[..n]), es[..n], es[n]);
      assert es == es[..n] + [es[n]];
    }
  }

  lemma EmptySound()
    ensures Sound(EMPTY, [])
  {
  }

  /** Keys and lengths of `h` are still there in `h'`. */
  ghost predicate Within(h: Matcher, h': Matcher) {
    (forall key :: key in h.entries ==> key in h'.entries) && h.lens <= h'.lens
  }

  lemma {:induction false} Grows(es: seq<TlsEntry>, i: nat)
    requires i <= |es|
    ensures Within(RegisterAll(es[..i]), RegisterAll(es))
  {
    hide Lookup, KeyOf;
    if i < |es| {
      var n := |es| - 1;
      assert es[..n][..i] == es[..i];
      Grows(es[..n], i);
    } else {
      assert es[..i] == es;
    }
  }

  lemma HitGrows(h: Matcher, h': Matcher, k: string)
    requires Within(h, h') && Hit(h, k, |k|).Some?
    ensures Hit(h', k, |k|).Some?
  {
    var s := Hit(h, k, |k|).value;
    assert |s| in h'.lens && Suffix(k, |s|) in h'.entries;
  }

  /** One step keeps the list of an exact hostname, and its head. */
  lemma KeyStep(h: Matcher, e: TlsEntry, k: string)
    requires ValidDomain(k) && k in h.entries && h.entries[k] != []
    ensures var h' := Register(h, e); k in h'.entries && h'.entries[k] != [] && h'.entries[k][0] == h.entries[k][0]
  {
    hide ValidDomain, Hit;
    if Lookup(h, e.hostname).None? && KeyOf(e.hostname) == Some(k) {
      KeyFacts(e.hostname);
      DomainStart(k);
      assert false;
    }
  }

  /** An exact hostname with a list of its own keeps it, first entry and all. */
  lemma {:induction false} KeyStays(es: seq<TlsEntry>, i: nat, k: string)
    requires i <= |es| && ValidDomain(k) && k in RegisterAll(es[..i]).entries
    ensures k in RegisterAll(es).entries && Served(RegisterAll(es), k) == Served(RegisterAll(es[..i]), k)
  {
    hide ValidDomain, Hit, Register, Sound;
    if i < |es| {
      var n := |es| - 1;
      assert es[..n][..i] == es[..i];
      KeyStays(es[..n], i, k);
      ListsStarted(es[..n], k);
      KeyStep(RegisterAll(es[..n]), es[n], k);
    } else {
      assert es[..i] == es;
    }
  }

  lemma ListsStarted(es: seq<TlsEntry>, k: string)
    requires k in RegisterAll(es).entries
    ensures RegisterAll(es).entries[k] != []
  {
    RunSound(es);
  }

  /** An exact hostname found under another key before it came never gets a list of its own. */
  lemma {:induction false} NeverKeyed(es: seq<TlsEntry>, i: nat, k: string)
    requires i <= |es| && ValidDomain(k)
    requires k !in RegisterAll(es[..i]).entries && Hit(RegisterAll(es[..i]), k, |k|).Some?
    ensures k !in RegisterAll(es).entries && Hit(RegisterAll(es), k, |k|).Some?
  {
    hide ValidDomain, Hit;
    Grows(es, i);
    HitGrows(RegisterAll(es[..i]), RegisterAll(es), k);
    if i < |es| {
      var n := |es| - 1;
      assert es[..n][..i] == es[..i];
      NeverKeyed(es[..n], i, k);
      var h, e := RegisterAll(es[..n]), es[n];
      if KeyOf(e.hostname) == Some(k) {
        KeyFacts(e.hostname);
        DomainStart(k);
        assert Lookup(h, e.hostname).Some?;
      }
    } else {
      assert es[..i] == es;
    }
  }

  /** Who is served for a hostname found under another key is not an entry of that hostname. */
  lemma ServedElsewhere(es: seq<TlsEntry>, k: string)
    requires ValidDomain(k) && k !in RegisterAll(es).entries && Hit(RegisterAll(es), k, |k|).Some?
    ensures var e := Served(RegisterAll(es), k); e.Some? && e.value.hostname != k
  {
    hide ValidDomain;
    RunSound(es);
    var h := RegisterAll(es);
    var key := Hit(h, k, |k|).value;
    var e := h.entries[key][0];
    if e.hostname == k {
      KeyFacts(k);
      assert false;
    }
  }

  /** A hostname found under another key is shadowed. */
  lemma HitShadows(h: Matcher, es: seq<TlsEntry>, a: TlsEntry)
    requires Sound(h, es) && ValidDomain(a.hostname) && Hit(h, a.hostname, |a.hostname|).Some?
    ensures exists b, c :: b in es && c in es && Shadowed(a, b, c)
  {
    hide ValidDomain, KeyOf;
    var s := Hit(h, a.hostname, |a.hostname|).value;
    var b := h.entries[s][0];
    var c :| c in es && KeyOf(c.hostname).Some? && Wild(KeyOf(c.hostname).value) && |KeyOf(c.hostname).value| == |s|;
    assert Shadowed(a, b, c);
  }

  lemma DomainIsKey(d: string)
    requires ValidDomain(d)
    ensures KeyOf(d) == Some(d)
  {
    DomainStart(d);
  }

  /** An exact hostname that nothing so far shadows has a list once it came. */
  lemma KeyedWhenClear(es: seq<TlsEntry>, i: nat)
    requires i < |es| && ValidDomain(es[i].hostname)
    requires forall b, c :: b in es[..i] && c in es[..i] ==> !Shadowed(es[i], b, c)
    ensures es[i].hostname in RegisterAll(es).entries
  {
    hide ValidDomain, Hit, KeyOf, Sound, Shadowed, RegisterAll;
    var h, k := RegisterAll(es[..i]), es[i].hostname;
    RunSound(es[..i]);
    if Hit(h, k, |k|).Some? {
      HitShadows(h, es[..i], es[i]);
    }
    DomainIsKey(k);
    assert es[..i + 1] == es[..i] + [es[i]];
    RegisterOne(es[..i], es[i]);
    assert k in RegisterAll(es[..i + 1]).entries;
    Grows(es, i + 1);
  }

  /** A wildcard that came is there, with its length. */
  lemma WildThere(es: seq<TlsEntry>, i: nat)
    requires i < |es| && KeyOf(es[i].hostname).Some? && Wild(KeyOf(es[i].hostname).value)
    ensures var w := KeyOf(es[i].hostname).value; w in RegisterAll(es).entries && |w| in RegisterAll(es).lens
  {
    hide ValidDomain;
    KeyFacts(es[i].hostname);
    assert es[..i + 1] == es[..i] + [es[i]];
    RegisterOne(es[..i], es[i]);
    Grows(es, i + 1);
  }

  /** The last wildcard of its key starts the list. */
  lemma {:induction false} LastWildLeads(es: seq<TlsEntry>, i: nat)
    requires i < |es| && KeyOf(es[i].hostname).Some? && Wild(KeyOf(es[i].hostname).value)
    requires forall j :: i < j < |es| && KeyOf(es[j].hostname) == KeyOf(es[i].hostname) ==> es[j] == es[i]
    ensures var h, w := RegisterAll(es), KeyOf(es[i].hostname).value; w in h.entries && h.entries[w] != [] && h.entries[w][0] == es[i]
  {
    hide ValidDomain, Hit;
    var n := |es| - 1;
    KeyFacts(es[i].hostname);
    if i < n {
      assert forall j :: 0 <= j < n ==> es[..n][j] == es[j];
      LastWildLeads(es[..n], i);
    }
  }

  // ---------- Without clashes the order does not matter ----------

  /** Exactly the keys and wildcard lengths of the entries that came. */
  ghost predicate Complete(h: Matcher, es: set<TlsEntry>) {
    (forall key :: key in h.entries <==> exists e :: e in es && KeyOf(e.hostname) == Some(key)) &&
    (forall n :: n in h.lens <==> exists e :: e in es && KeyOf(e.hostname).Some? && Wild(KeyOf(e.hostname).value) && |KeyOf(e.hostname).value| == n)
  }

  lemma CompleteWhenClear(es: seq<TlsEntry>)
    requires NoClash(Members(es))
    ensures Complete(RegisterAll(es), Members(es))
  {
    hide ValidDomain, KeyOf, Shadowed, RegisterAll, Register;
    var h := RegisterAll(es);
    RunSound(es);
    forall e | e in es && KeyOf(e.hostname).Some?
      ensures KeyOf(e.hostname).value in h.entries && (Wild(KeyOf(e.hostname).value) ==> |KeyOf(e.hostname).value| in h.lens)
    {
      var i :| 0 <= i < |es| && es[i] == e;
      KeyFacts(e.hostname);
      if Wild(KeyOf(e.hostname).value) {
        WildThere(es, i);
      } else {
        assert forall x :: x in es[..i] ==> x in Members(es);
        KeyedWhenClear(es, i);
      }
    }
  }

  lemma {:induction false} HitSame(h: Matcher, h': Matcher, k: string, n: nat)
    requires h.entries.Keys == h'.entries.Keys && h.lens == h'.lens && n <= |k|
    ensures Hit(h, k, n) == Hit(h', k, n)
  {
    if n > 0 {
      HitSame(h, h', k, n - 1);
    }
  }

  lemma CompleteSame(h: Matcher, h': Matcher, es: set<TlsEntry>)
    requires Complete(h, es) && Complete(h', es)
    ensures h.entries.Keys == h'.entries.Keys && h.lens == h'.lens
  {
  }

  /** The same entries in any order, and however often, give the same answers. */
  lemma SameAnswers(es: seq<TlsEntry>, es': seq<TlsEntry>, sni: string)
    requires NoClash(Members(es)) && Members(es) == Members(es')
    ensures Served(RegisterAll(es), sni) == Served(RegisterAll(es'), sni)
  {
    hide RegisterAll, Complete, Hit, KeyOf, ValidDomain, Shadowed;
    var h, h' := RegisterAll(es), RegisterAll(es');
    CompleteWhenClear(es);
    CompleteWhenClear(es');
    CompleteSame(h, h', Members(es));
    HitSame(h, h', sni, |sni|);
    RunSound(es);
    RunSound(es');
    if Lookup(h, sni).Some? {
      var key := Lookup(h, sni).value;
      var a, b := h.entries[key][0], h'.entries[key][0];
      assert a in Members(es) && b in Members(es') && SameKey(a, b);
    }
  }

  // ---------- With a clash it does ----------

  /** An exact hostname that nothing in the first block shadows is served from there. */
  lemma BlockLeads(block: seq<TlsEntry>, rest: seq<TlsEntry>, a: TlsEntry)
    requires a in block && ValidDomain(a.hostname)
    requires forall b, c :: b in block && c in block ==> !Shadowed(a, b, c)
    requires forall x :: x in block && SameKey(x, a) ==> x == a
    ensures Served(RegisterAll(block + rest), a.hostname) == Some(a)
  {
    hide ValidDomain, RegisterAll, Shadowed;
    var i :| 0 <= i < |block| && block[i] == a;
    KeyedWhenClear(block, i);
    RunSound(block);
    assert (block + rest)[..|block|] == block;
    KeyStays(block + rest, |block|, a.hostname);
    DomainStart(a.hostname);
    var first := RegisterAll(block).entries[a.hostname][0];
    assert SameKey(first, a);
  }

  /** If a block without the hostname brings what shadows it, it is never served from its own entry. */
  lemma BlockHides(block: seq<TlsEntry>, rest: seq<TlsEntry>, a: TlsEntry, b: TlsEntry, c: TlsEntry)
    requires b in block && c in block && Shadowed(a, b, c)
    requires forall b', c' :: b' in block && c' in block ==> !Shadowed(b, b', c')
    requires forall x :: x in block ==> x.hostname != a.hostname
    ensures var e := Served(RegisterAll(block + rest), a.hostname); e.Some? && e.value.hostname != a.hostname
  {
    hide ValidDomain, RegisterAll;
    var h, s := RegisterAll(block), KeyOf(b.hostname).value;
    var i :| 0 <= i < |block| && block[i] == b;
    var j :| 0 <= j < |block| && block[j] == c;
    KeyFacts(b.hostname);
    WildThere(block, j);
    if Wild(s) {
      WildThere(block, i);
    } else {
      KeyedWhenClear(block, i);
    }
    assert s in h.entries && |s| in h.lens;
    var k := a.hostname;
    assert Hit(h, k, |k|).Some?;
    RunSound(block);
    if k in h.entries {
      KeyFacts(h.entries[k][0].hostname);
      DomainStart(k);
      assert false;
    }
    assert (block + rest)[..|block|] == block;
    NeverKeyed(block + rest, |block|, k);
    ServedElsewhere(block + rest, k);
  }

  /** A wildcard in the last block, whose key it does not repeat, is served for new names under it. */
  lemma LastBlockLeads(rest: seq<TlsEntry>, block: seq<TlsEntry>, a: TlsEntry, n: nat)
    requires a in block && KeyOf(a.hostname).Some? && Wild(KeyOf(a.hostname).value)
    requires forall x :: x in block && SameKey(x, a) ==> x == a
    requires forall x :: x in rest + block ==> !Shadowed(x, a, a) && (KeyOf(x.hostname).Some? ==> |KeyOf(x.hostname).value| < n)
    ensures Served(RegisterAll(rest + block), As(n) + KeyOf(a.hostname).value) == Some(a)
  {
    hide ValidDomain, RegisterAll, Register;
    var es, w := rest + block, KeyOf(a.hostname).value;
    var i :| 0 <= i < |block| && block[i] == a;
    assert es[|rest| + i] == a;
    forall j | |rest| + i < j < |es| && KeyOf(es[j].hostname) == KeyOf(a.hostname) ensures es[j] == a {
      assert es[j] == block[j - |rest|] && SameKey(es[j], a);
    }
    LastWildLeads(es, |rest| + i);
    WildThere(es, |rest| + i);
    FreshFound(es, a, n);
  }

  lemma FreshFound(es: seq<TlsEntry>, a: TlsEntry, n: nat)
    requires KeyOf(a.hostname).Some? && Wild(KeyOf(a.hostname).value)
    requires forall x :: x in es ==> !Shadowed(x, a, a) && (KeyOf(x.hostname).Some? ==> |KeyOf(x.hostname).value| < n)
    requires var h, w := RegisterAll(es), KeyOf(a.hostname).value; w in h.entries && |w| in h.lens
    ensures Lookup(RegisterAll(es), As(n) + KeyOf(a.hostname).value) == KeyOf(a.hostname)
  {
    hide ValidDomain, RegisterAll;
    var h, w := RegisterAll(es), KeyOf(a.hostname).value;
    var k := As(n) + w;
    RunSound(es);
    KeyFacts(a.hostname);
    assert ValidDomain(k) by {
      FreshValid(n, a.hostname);
    }
    assert k !in h.entries;
    assert Suffix(k, |w|) == w;
    forall m | |w| < m < |k| && m in h.lens ensures Suffix(k, m) !in h.entries {
      if Suffix(k, m) in h.entries {
        NotStored(h, es, a, k, n, m);
      }
    }
    HitAt(h, k, |w|);
  }

  lemma FreshValid(n: nat, pattern: string)
    requires n > 0 && KeyOf(pattern).Some? && Wild(KeyOf(pattern).value)
    ensures ValidDomain(As(n) + KeyOf(pattern).value)
  {
    hide ValidLabel;
    var w := KeyOf(pattern).value;
    KeyFacts(pattern);
    var d := pattern[2..];
    assert w == "." + d && As(n) + w == As(n) + "." + d;
    JoinedDomains(As(n), d);
    OneLabel(n);
  }

  lemma OneLabel(n: nat)
    requires n > 0
    ensures AllValid(Split(As(n)))
  {
    assert '.' !in As(n);
    assert Split(As(n)) == [As(n)];
  }

  /** A longer suffix of a fresh name would be an exact hostname under the wildcard. */
  lemma NotStored(h: Matcher, es: seq<TlsEntry>, a: TlsEntry, k: string, n: nat, m: nat)
    requires Sound(h, es) && KeyOf(a.hostname).Some? && Wild(KeyOf(a.hostname).value)
    requires var w := KeyOf(a.hostname).value; k == As(n) + w && |w| < m < |k| && Suffix(k, m) in h.entries
    ensures exists x :: x in es && Shadowed(x, a, a)
  {
    hide ValidDomain;
    var w, s := KeyOf(a.hostname).value, Suffix(k, m);
    var x := h.entries[s][0];
    assert s[0] == k[|k| - m] == 'a';
    KeyFacts(x.hostname);
    assert Suffix(s, |w|) == w;
    assert Shadowed(x, a, a);
  }

  /** Among what shadows `a`, something that is not shadowed itself. */
  lemma {:induction false} LeastShadow(es: set<TlsEntry>, a: TlsEntry, b: TlsEntry, c: TlsEntry) returns (b': TlsEntry, c': TlsEntry)
    requires b in es && c in es && Shadowed(a, b, c)
    ensures b' in es && c' in es && Shadowed(a, b', c') && forall x, y :: x in es && y in es ==> !Shadowed(b', x, y)
    decreases |KeyOf(b.hostname).value|
  {
    hide ValidDomain;
    if x, y :| x in es && y in es && Shadowed(b, x, y) {
      KeyFacts(b.hostname);
      DomainStart(b.hostname);
      var s, t := KeyOf(b.hostname).value, KeyOf(x.hostname).value;
      assert Suffix(a.hostname, |t|) == Suffix(Suffix(a.hostname, |s|), |t|);
      b', c' := LeastShadow(es, a, x, y);
    } else {
      b', c' := b, c;
    }
  }
}

/** Listeners come grouped: gateways are listed in any order, each with its listeners in their own order. */
module TlsOrder {
  import opened Common
  import opened Labels
  import opened Domains
  import opened HashHosts
  import opened TlsMatcher

  /** All entries, group by group. */
  function Flat<G>(f: G -> seq<TlsEntry>, gs: seq<G>): seq<TlsEntry> {
    if gs == [] then [] else Flat(f, gs[..|gs| - 1]) + f(gs[|gs| - 1])
  }

  /** Whatever order the groups are listed in, every name is served alike. */
  ghost predicate Independent<G(!new)>(f: G -> seq<TlsEntry>, gs: seq<G>) {
    forall p, q, sni :: multiset(p) == multiset(gs) && multiset(q) == multiset(gs) ==>
      Served(RegisterAll(Flat(f, p)), sni) == Served(RegisterAll(Flat(f, q)), sni)
  }

  /** No group clashes with itself: its keys are distinct, and it takes no part in shadowing its own hostnames. */
  ghost predicate SelfClean<G(!new)>(f: G -> seq<TlsEntry>, gs: seq<G>) {
    forall g :: g in gs ==> Clean(f(g), Members(Flat(f, gs)))
  }

  ghost predicate Clean(own: seq<TlsEntry>, all: set<TlsEntry>) {
    (forall a, b :: a in own && b in own && SameKey(a, b) ==> a == b) &&
    (forall a, b, c :: a in own && b in all && c in all && Shadowed(a, b, c) ==> b !in own && c !in own)
  }

  lemma {:induction false} FlatAppend<G>(f: G -> seq<TlsEntry>, a: seq<G>, b: seq<G>)
    ensures Flat(f, a + b) == Flat(f, a) + Flat(f, b)
  {
    if b == [] {
      assert a + b == a;
    } else {
      assert (a + b)[..|a + b| - 1] == a + b[..|b| - 1];
      FlatAppend(f, a, b[..|b| - 1]);
    }
  }

  lemma FlatOne<G>(f: G -> seq<TlsEntry>, g: G)
    ensures Flat(f, [g]) == f(g)
  {
    assert [g][..0] == [] && Flat(f, []) == [];
  }

  lemma {:induction false} FlatMembers<G(!new)>(f: G -> seq<TlsEntry>, gs: seq<G>, e: TlsEntry)
    ensures e in Flat(f, gs) <==> exists g :: g in gs && e in f(g)
  {
    if gs != [] {
      var n := |gs| - 1;
      FlatMembers(f, gs[..n], e);
      assert gs == gs[..n] + [gs[n]];
    }
  }

  /** The group an entry comes from. */
  lemma GroupOf<G(!new)>(f: G -> seq<TlsEntry>, gs: seq<G>, e: TlsEntry) returns (i: nat)
    requires e in Flat(f, gs)
    ensures i < |gs| && e in f(gs[i])
  {
    FlatMembers(f, gs, e);
    var g :| g in gs && e in f(g);
    i :| 0 <= i < |gs| && gs[i] == g;
  }

  lemma SameMembers<G(!new)>(f: G -> seq<TlsEntry>, p: seq<G>, q: seq<G>)
    requires multiset(p) == multiset(q)
    ensures Members(Flat(f, p)) == Members(Flat(f, q))
  {
    forall g ensures g in p <==> g in q {
      assert g in multiset(p) <==> g in multiset(q);
    }
    forall e ensures e in Flat(f, p) <==> e in Flat(f, q) {
      FlatMembers(f, p, e);
      FlatMembers(f, q, e);
    }
  }

  /** Without clashes, any listing serves alike. */
  lemma ClearIsIndependent<G(!new)>(f: G -> seq<TlsEntry>, gs: seq<G>)
    requires NoClash(Members(Flat(f, gs)))
    ensures Independent(f, gs)
  {
    hide NoClash, RegisterAll, Served, Flat;
    forall p, q, sni | multiset(p) == multiset(gs) && multiset(q) == multiset(gs)
      ensures Served(RegisterAll(Flat(f, p)), sni) == Served(RegisterAll(Flat(f, q)), sni)
    {
      SameMembers(f, p, gs);
      SameMembers(f, q, gs);
      SameAnswers(Flat(f, p), Flat(f, q), sni);
    }
  }

  // ---------- Listings ----------

  function Without<G>(gs: seq<G>, i: nat): seq<G>
    requires i < |gs|
  {
    gs[..i] + gs[i + 1..]
  }

  lemma MovedFirst<G>(f: G -> seq<TlsEntry>, gs: seq<G>, i: nat)
    requires i < |gs|
    ensures multiset([gs[i]] + Without(gs, i)) == multiset(gs)
    ensures Flat(f, [gs[i]] + Without(gs, i)) == f(gs[i]) + Flat(f, Without(gs, i))
  {
    assert gs == gs[..i] + [gs[i]] + gs[i + 1..];
    FlatAppend(f, [gs[i]], Without(gs, i));
    FlatOne(f, gs[i]);
  }

  lemma MovedLast<G>(f: G -> seq<TlsEntry>, gs: seq<G>, i: nat)
    requires i < |gs|
    ensures multiset(Without(gs, i) + [gs[i]]) == multiset(gs)
    ensures Flat(f, Without(gs, i) + [gs[i]]) == Flat(f, Without(gs, i)) + f(gs[i])
  {
    assert gs == gs[..i] + [gs[i]] + gs[i + 1..];
    FlatAppend(f, Without(gs, i), [gs[i]]);
    FlatOne(f, gs[i]);
  }

  /** A listing that starts with the groups at `i` and `j`, which may be the same. */
  lemma BothFirst<G>(f: G -> seq<TlsEntry>, gs: seq<G>, i: nat, j: nat) returns (p: seq<G>, block: seq<TlsEntry>, rest: seq<TlsEntry>)
    requires i < |gs| && j < |gs|
    ensures multiset(p) == multiset(gs) && Flat(f, p) == block + rest
    ensures forall e :: e in block <==> e in f(gs[i]) || e in f(gs[j])
  {
    var others := Without(gs, i);
    MovedFirst(f, gs, i);
    if i == j {
      p, block, rest := [gs[i]] + others, f(gs[i]), Flat(f, others);
    } else {
      var k := if j < i then j else j - 1;
      assert others[k] == gs[j];
      MovedFirst(f, others, k);
      p := [gs[i]] + ([gs[j]] + Without(others, k));
      assert multiset(p) == multiset{gs[i]} + multiset(others);
      FlatAppend(f, [gs[i]], [gs[j]] + Without(others, k));
      FlatOne(f, gs[i]);
      block, rest := f(gs[i]) + f(gs[j]), Flat(f, Without(others, k));
    }
  }

  // ---------- Clashes show ----------

  lemma Differs<G(!new)>(f: G -> seq<TlsEntry>, gs: seq<G>, p: seq<G>, q: seq<G>, sni: string)
    requires multiset(p) == multiset(gs) && multiset(q) == multiset(gs)
    requires Served(RegisterAll(Flat(f, p)), sni) != Served(RegisterAll(Flat(f, q)), sni)
    ensures !Independent(f, gs)
  {
  }

  /** Led by its own group, an exact hostname is served from there. */
  lemma GroupLeads<G(!new)>(f: G -> seq<TlsEntry>, gs: seq<G>, i: nat, a: TlsEntry)
    requires SelfClean(f, gs) && i < |gs| && a in f(gs[i]) && ValidDomain(a.hostname)
    ensures Served(RegisterAll(Flat(f, [gs[i]] + Without(gs, i))), a.hostname) == Some(a)
  {
    hide RegisterAll, Served, Shadowed, ValidDomain, SameKey, Flat, Without;
    MovedFirst(f, gs, i);
    var own, all := f(gs[i]), Members(Flat(f, gs));
    assert Clean(own, all);
    forall b, c | b in own && c in own ensures !Shadowed(a, b, c) {
      FlatMembers(f, gs, b);
      FlatMembers(f, gs, c);
    }
    BlockLeads(own, Flat(f, Without(gs, i)), a);
  }

  lemma SameHostShadowed(a: TlsEntry, x: TlsEntry, b: TlsEntry, c: TlsEntry)
    requires Shadowed(a, b, c) && x.hostname == a.hostname
    ensures Shadowed(x, b, c)
  {
  }

  lemma ShadowMatters<G(!new)>(f: G -> seq<TlsEntry>, gs: seq<G>, a: TlsEntry, b0: TlsEntry, c0: TlsEntry)
    requires SelfClean(f, gs)
    requires a in Flat(f, gs) && b0 in Flat(f, gs) && c0 in Flat(f, gs) && Shadowed(a, b0, c0)
    ensures !Independent(f, gs)
  {
    hide RegisterAll, Served, ValidDomain, SameKey, Flat, Without, Independent;
    var all := Members(Flat(f, gs));
    var b, c := LeastShadow(all, a, b0, c0);
    var i := GroupOf(f, gs, a);
    var j := GroupOf(f, gs, b);
    var l := GroupOf(f, gs, c);
    GroupLeads(f, gs, i, a);
    MovedFirst(f, gs, i);
    var q, block, rest := BothFirst(f, gs, l, j);
    assert Clean(f(gs[j]), all) && Clean(f(gs[l]), all);
    forall x | x in block ensures x in all && x.hostname != a.hostname {
      FlatMembers(f, gs, x);
      if x.hostname == a.hostname {
        SameHostShadowed(a, x, b, c);
      }
    }
    BlockHides(block, rest, a, b, c);
    Differs(f, gs, [gs[i]] + Without(gs, i), q, a.hostname);
  }

  lemma {:induction false} LongerKeys(es: seq<TlsEntry>) returns (n: nat)
    ensures forall e :: e in es && KeyOf(e.hostname).Some? ==> |KeyOf(e.hostname).value| < n
  {
    n := 0;
    if es != [] {
      n := LongerKeys(es[1..]);
      var key := KeyOf(es[0].hostname);
      if key.Some? && |key.value| >= n {
        n := |key.value| + 1;
      }
      assert es == [es[0]] + es[1..];
    }
  }

  /** Listed last, a group with a wildcard serves new names under it. */
  lemma GroupEnds<G(!new)>(f: G -> seq<TlsEntry>, gs: seq<G>, i: nat, a: TlsEntry, n: nat)
    requires SelfClean(f, gs) && i < |gs| && a in f(gs[i]) && KeyOf(a.hostname).Some? && Wild(KeyOf(a.hostname).value)
    requires forall x :: x in Flat(f, gs) ==> !Shadowed(x, a, a) && (KeyOf(x.hostname).Some? ==> |KeyOf(x.hostname).value| < n)
    ensures Served(RegisterAll(Flat(f, Without(gs, i) + [gs[i]])), As(n) + KeyOf(a.hostname).value) == Some(a)
  {
    hide RegisterAll, Served, Shadowed, KeyOf, Flat, Without;
    MovedLast(f, gs, i);
    SameMembers(f, Without(gs, i) + [gs[i]], gs);
    var es := Flat(f, Without(gs, i)) + f(gs[i]);
    assert Clean(f(gs[i]), Members(Flat(f, gs)));
    forall x | x in es ensures x in Flat(f, gs) {
      assert x in Members(es);
    }
    LastBlockLeads(Flat(f, Without(gs, i)), f(gs[i]), a, n);
  }

  lemma SharedMatters<G(!new)>(f: G -> seq<TlsEntry>, gs: seq<G>, a: TlsEntry, b: TlsEntry)
    requires SelfClean(f, gs) && a in Flat(f, gs) && b in Flat(f, gs) && a != b && SameKey(a, b)
    requires forall x, y, z :: x in Flat(f, gs) && y in Flat(f, gs) && z in Flat(f, gs) ==> !Shadowed(x, y, z)
    ensures !Independent(f, gs)
  {
    hide RegisterAll, Served, ValidDomain, Flat, Without, Independent, SelfClean, Shadowed, KeyOf;
    var i := GroupOf(f, gs, a);
    var j := GroupOf(f, gs, b);
    KeyFacts(a.hostname);
    KeyInjective(a.hostname, b.hostname);
    if Wild(KeyOf(a.hostname).value) {
      var n := LongerKeys(Flat(f, gs));
      GroupEnds(f, gs, i, a, n);
      GroupEnds(f, gs, j, b, n);
      MovedLast(f, gs, i);
      MovedLast(f, gs, j);
      Differs(f, gs, Without(gs, i) + [gs[i]], Without(gs, j) + [gs[j]], As(n) + KeyOf(a.hostname).value);
    } else {
      GroupLeads(f, gs, i, a);
      GroupLeads(f, gs, j, b);
      MovedFirst(f, gs, i);
      MovedFirst(f, gs, j);
      Differs(f, gs, [gs[i]] + Without(gs, i), [gs[j]] + Without(gs, j), a.hostname);
    }
  }

  /** If no group clashes with itself, the listing order is without effect exactly when nothing clashes at all. */
  lemma OrderIff<G(!new)>(f: G -> seq<TlsEntry>, gs: seq<G>)
    requires SelfClean(f, gs)
    ensures Independent(f, gs) <==> NoClash(Members(Flat(f, gs)))
  {
    hide Independent, Shadowed, SameKey, Flat, SelfClean;
    var es := Flat(f, gs);
    if NoClash(Members(es)) {
      ClearIsIndependent(f, gs);
    } else if a, b, c :| a in es && b in es && c in es && Shadowed(a, b, c) {
      ShadowMatters(f, gs, a, b, c);
    } else {
      var a, b :| a in es && b in es && SameKey(a, b) && a != b;
      SharedMatters(f, gs, a, b);
    }
  }

  function Single(e: TlsEntry): seq<TlsEntry> { [e] }

  lemma {:induction false} FlatSingles(es: seq<TlsEntry>)
    ensures Flat(Single, es) == es
  {
    if es != [] {
      FlatSingles(es[..|es| - 1]);
    }
  }

  lemma NotOwnShadow(a: TlsEntry, b: TlsEntry)
    ensures !Shadowed(a, a, b) && !Shadowed(a, b, a)
  {
    hide ValidDomain;
    if ValidDomain(a.hostname) {
      DomainStart(a.hostname);
    }
  }

  /** The order of the listeners themselves is without effect exactly when nothing clashes. */
  lemma ListenerOrderIff(es: seq<TlsEntry>)
    ensures Independent(Single, es) <==> NoClash(Members(es))
  {
    hide Shadowed, SameKey, Independent, NoClash, Flat;
    FlatSingles(es);
    forall a, b, c | Shadowed(a, b, c) ensures b != a && c != a {
      NotOwnShadow(a, b);
      NotOwnShadow(a, c);
    }
    assert SelfClean(Single, es);
    OrderIff(Single, es);
  }

  // ---------- Groups that clash with themselves ----------

  predicate IsWildcard(e: TlsEntry) { KeyOf(e.hostname).Some? && Wild(KeyOf(e.hostname).value) }

  predicate IsExact(e: TlsEntry) { KeyOf(e.hostname).Some? && !Wild(KeyOf(e.hostname).value) }

  /** No exact hostname is found under another exact one: only wildcards shadow. */
  ghost predicate PlainShadows(es: set<TlsEntry>) {
    forall a, b, c :: a in es && b in es && c in es && IsExact(b) ==> !Shadowed(a, b, c)
  }

  /** The wildcard `e` is above the hostname. */
  predicate Above(e: TlsEntry, hostname: string) {
    IsWildcard(e) && |KeyOf(e.hostname).value| < |hostname| && Suffix(hostname, |KeyOf(e.hostname).value|) == KeyOf(e.hostname).value
  }

  /** What becomes of a hostname: the first listener for it leads its list, unless a wildcard above it came before. */
  datatype Outcome = Undecided | Keyed(e: TlsEntry) | Hidden

  function OutcomeOf(es: seq<TlsEntry>, hostname: string): Outcome {
    if es == [] then Undecided
    else
      var before, e := OutcomeOf(es[..|es| - 1], hostname), es[|es| - 1];
      if !before.Undecided? then before
      else if e.hostname == hostname then Keyed(e)
      else if Above(e, hostname) then Hidden
      else Undecided
  }

  /** The last listener for a wildcard. */
  function LastWild(es: seq<TlsEntry>, w: string): Option<TlsEntry> {
    if es == [] then None
    else if KeyOf(es[|es| - 1].hostname) == Some(w) then Some(es[|es| - 1])
    else LastWild(es[..|es| - 1], w)
  }

  ghost predicate Decides(h: Matcher, hostname: string, o: Outcome) {
    match o
    case Keyed(e) => hostname in h.entries && h.entries[hostname] != [] && h.entries[hostname][0] == e
    case Hidden => hostname !in h.entries && Hit(h, hostname, |hostname|).Some?
    case Undecided => hostname !in h.entries && Hit(h, hostname, |hostname|).None?
  }

  ghost predicate Offers(es: set<TlsEntry>, hostname: string) { exists e :: e in es && e.hostname == hostname }

  /** A hit for a hostname on offer is a wildcard that came. */
  lemma HitIsAbove(es: seq<TlsEntry>, all: set<TlsEntry>, k: string) returns (e: TlsEntry)
    requires PlainShadows(all) && Members(es) <= all && Offers(all, k) && ValidDomain(k) && Hit(RegisterAll(es), k, |k|).Some?
    ensures e in es && Above(e, k)
  {
    hide ValidDomain, RegisterAll, KeyOf;
    RunSound(es);
    var h := RegisterAll(es);
    var s := Hit(h, k, |k|).value;
    e := h.entries[s][0];
    var c :| c in es && KeyOf(c.hostname).Some? && Wild(KeyOf(c.hostname).value) && |KeyOf(c.hostname).value| == |s|;
    var a :| a in all && a.hostname == k;
    assert e in Members(es) && c in Members(es);
    assert Shadowed(a, e, c);
  }

  lemma AboveIsHit(es: seq<TlsEntry>, k: string, e: TlsEntry)
    requires e in es && Above(e, k)
    ensures Hit(RegisterAll(es), k, |k|).Some?
  {
    hide ValidDomain, RegisterAll, KeyOf;
    var i :| 0 <= i < |es| && es[i] == e;
    WildThere(es, i);
  }

  lemma {:induction false} UndecidedMeans(es: seq<TlsEntry>, k: string)
    requires OutcomeOf(es, k).Undecided?
    ensures forall e :: e in es ==> e.hostname != k && !Above(e, k)
  {
    hide Above;
    if es != [] {
      var n := |es| - 1;
      UndecidedMeans(es[..n], k);
      assert es == es[..n] + [es[n]];
    }
  }

  lemma UndecidedDecides(es: seq<TlsEntry>, all: set<TlsEntry>, k: string)
    requires PlainShadows(all) && Members(es) <= all && Offers(all, k) && ValidDomain(k) && OutcomeOf(es, k).Undecided?
    ensures Decides(RegisterAll(es), k, Undecided)
  {
    hide ValidDomain, RegisterAll, Above, PlainShadows, Offers;
    UndecidedMeans(es, k);
    RunSound(es);
    var h := RegisterAll(es);
    if k in h.entries {
      KeyFacts(h.entries[k][0].hostname);
      DomainStart(k);
      assert false;
    }
    if Hit(h, k, |k|).Some? {
      var e := HitIsAbove(es, all, k);
    }
  }

  lemma {:induction false} RunDecides(es: seq<TlsEntry>, all: set<TlsEntry>, k: string)
    requires PlainShadows(all) && Members(es) <= all && Offers(all, k) && ValidDomain(k)
    ensures Decides(RegisterAll(es), k, OutcomeOf(es, k))
  {
    hide ValidDomain, Hit, Above, PlainShadows, Offers, KeyOf;
    if es == [] || OutcomeOf(es, k).Undecided? {
      UndecidedDecides(es, all, k);
    } else {
      var n := |es| - 1;
      var before, e := es[..n], es[n];
      assert Members(before) <= Members(es);
      RunDecides(before, all, k);
      var h := RegisterAll(before);
      match OutcomeOf(before, k)
      case Keyed(first) =>
        RunSound(es);
        KeyStays(es, n, k);
      case Hidden => NeverKeyed(es, n, k);
      case Undecided =>
        if e.hostname == k {
          DomainIsKey(k);
        } else {
          AboveIsHit(es, k, e);
          OtherKey(h, e, k);
        }
    }
  }

  /** Registering another hostname makes no list for this one. */
  lemma OtherKey(h: Matcher, e: TlsEntry, k: string)
    requires k !in h.entries && e.hostname != k && ValidDomain(k)
    ensures k !in Register(h, e).entries
  {
    hide ValidDomain, Hit;
    if KeyOf(e.hostname) == Some(k) {
      KeyFacts(e.hostname);
      DomainStart(k);
    }
  }

  lemma {:induction false} RunLastWild(es: seq<TlsEntry>, w: string)
    requires Wild(w)
    ensures match LastWild(es, w)
      case None => w !in RegisterAll(es).entries
      case Some(e) => w in RegisterAll(es).entries && RegisterAll(es).entries[w] != [] && RegisterAll(es).entries[w][0] == e
  {
    hide ValidDomain, Hit;
    if es != [] {
      var n := |es| - 1;
      RunLastWild(es[..n], w);
      if KeyOf(es[n].hostname) == Some(w) {
        KeyFacts(es[n].hostname);
      }
    }
  }

  lemma LensAre(es: seq<TlsEntry>, n: nat)
    ensures n in RegisterAll(es).lens <==> exists e :: e in Members(es) && IsWildcard(e) && |KeyOf(e.hostname).value| == n
  {
    hide RegisterAll, KeyOf;
    RunSound(es);
    if e :| e in es && IsWildcard(e) && |KeyOf(e.hostname).value| == n {
      var i :| 0 <= i < |es| && es[i] == e;
      WildThere(es, i);
    }
  }

  // ---------- Groups in a row ----------

  lemma {:induction false} OutcomeAppend(a: seq<TlsEntry>, b: seq<TlsEntry>, k: string)
    ensures OutcomeOf(a + b, k) == if OutcomeOf(a, k).Undecided? then OutcomeOf(b, k) else OutcomeOf(a, k)
  {
    hide Above;
    if b == [] {
      assert a + b == a;
    } else {
      assert (a + b)[..|a + b| - 1] == a + b[..|b| - 1];
      OutcomeAppend(a, b[..|b| - 1], k);
    }
  }

  lemma {:induction false} LastWildAppend(a: seq<TlsEntry>, b: seq<TlsEntry>, w: string)
    ensures LastWild(a + b, w) == if LastWild(b, w).Some? then LastWild(b, w) else LastWild(a, w)
  {
    hide KeyOf;
    if b == [] {
      assert a + b == a;
    } else {
      assert (a + b)[..|a + b| - 1] == a + b[..|b| - 1];
      LastWildAppend(a, b[..|b| - 1], w);
    }
  }

  ghost function Lists<G(!new)>(f: G -> seq<TlsEntry>, gs: seq<G>): set<seq<TlsEntry>> { set g | g in gs :: f(g) }

  /** One of the groups, on its own, keeps a list under this key. */
  ghost predicate Held(ls: set<seq<TlsEntry>>, key: string) {
    exists l :: l in ls && (if Wild(key) then LastWild(l, key).Some? else ValidDomain(key) && OutcomeOf(l, key).Keyed?)
  }

  /** Some wildcard's key is as long as this. */
  ghost predicate TriedLength(ls: set<seq<TlsEntry>>, n: nat) {
    exists l, e :: l in ls && e in l && IsWildcard(e) && |KeyOf(e.hostname).value| == n
  }

  /** The name is under the wildcard, and nothing longer that lookups try is held. */
  ghost predicate LeftTo(ls: set<seq<TlsEntry>>, w: string, sni: string) {
    ValidDomain(sni) && |w| < |sni| && Suffix(sni, |w|) == w && !Held(ls, sni) &&
    forall n :: |w| < n < |sni| && TriedLength(ls, n) ==> !Held(ls, Suffix(sni, n))
  }

  /** No two groups, each on its own, decide a hostname differently. */
  ghost predicate HostsAgree(ls: set<seq<TlsEntry>>) {
    forall l, l', k ::
      l in ls && l' in ls && ValidDomain(k) && !OutcomeOf(l, k).Undecided? && !OutcomeOf(l', k).Undecided? ==> OutcomeOf(l, k) == OutcomeOf(l', k)
  }

  /** No two groups end a wildcard differently that has a name left to it. */
  ghost predicate WildcardsAgree(ls: set<seq<TlsEntry>>) {
    forall l, l', w, sni ::
      l in ls && l' in ls && Wild(w) && LeftTo(ls, w, sni) && LastWild(l, w).Some? && LastWild(l', w).Some? ==> LastWild(l, w) == LastWild(l', w)
  }

  lemma {:induction false} FlatOutcome<G(!new)>(f: G -> seq<TlsEntry>, gs: seq<G>, k: string)
    ensures var o := OutcomeOf(Flat(f, gs), k);
      if o.Undecided? then forall l :: l in Lists(f, gs) ==> OutcomeOf(l, k).Undecided? else exists l :: l in Lists(f, gs) && OutcomeOf(l, k) == o
  {
    hide OutcomeOf;
    if gs == [] {
      NothingDecided(k);
    } else {
      var n := |gs| - 1;
      FlatOutcome(f, gs[..n], k);
      OutcomeAppend(Flat(f, gs[..n]), f(gs[n]), k);
      ListsStep(f, gs);
    }
  }

  lemma ListsStep<G(!new)>(f: G -> seq<TlsEntry>, gs: seq<G>)
    requires gs != []
    ensures Lists(f, gs) == Lists(f, gs[..|gs| - 1]) + {f(gs[|gs| - 1])}
  {
    var n := |gs| - 1;
    assert gs == gs[..n] + [gs[n]];
    assert gs[n] in gs;
  }

  lemma NothingDecided(k: string)
    ensures OutcomeOf([], k).Undecided?
  {
  }

  lemma {:induction false} FlatLastWild<G(!new)>(f: G -> seq<TlsEntry>, gs: seq<G>, w: string)
    ensures var e := LastWild(Flat(f, gs), w);
      if e.None? then forall l :: l in Lists(f, gs) ==> LastWild(l, w).None? else exists l :: l in Lists(f, gs) && LastWild(l, w) == e
  {
    if gs != [] {
      hide LastWild;
      var n := |gs| - 1;
      FlatLastWild(f, gs[..n], w);
      LastWildAppend(Flat(f, gs[..n]), f(gs[n]), w);
      ListsStep(f, gs);
    }
  }

  /** If the groups agree about hostnames, a run has lists for just the keys that are held. */
  lemma KeysHeld<G(!new)>(f: G -> seq<TlsEntry>, gs: seq<G>, key: string)
    requires PlainShadows(Members(Flat(f, gs))) && HostsAgree(Lists(f, gs))
    ensures key in RegisterAll(Flat(f, gs)).entries <==> Held(Lists(f, gs), key)
  {
    hide ValidDomain, RegisterAll, Flat, PlainShadows, OutcomeOf, LastWild, Hit, Lists, HostsAgree, KeyOf;
    if Wild(key) {
      RunLastWild(Flat(f, gs), key);
      FlatLastWild(f, gs, key);
    } else if ValidDomain(key) {
      ExactHeld(f, gs, key);
    } else {
      RunSound(Flat(f, gs));
      if key in RegisterAll(Flat(f, gs)).entries {
        KeyFacts(RegisterAll(Flat(f, gs)).entries[key][0].hostname);
      }
    }
  }

  lemma ExactHeld<G(!new)>(f: G -> seq<TlsEntry>, gs: seq<G>, key: string)
    requires PlainShadows(Members(Flat(f, gs))) && HostsAgree(Lists(f, gs)) && ValidDomain(key) && !Wild(key)
    ensures key in RegisterAll(Flat(f, gs)).entries <==> Held(Lists(f, gs), key)
  {
    hide ValidDomain, RegisterAll, Flat, PlainShadows, OutcomeOf, LastWild, Hit, KeyOf, Members;
    FlatOutcome(f, gs, key);
    if Offers(Members(Flat(f, gs)), key) {
      RunDecides(Flat(f, gs), Members(Flat(f, gs)), key);
    } else {
      NotOffered(f, gs, key);
    }
  }

  lemma NotOffered<G(!new)>(f: G -> seq<TlsEntry>, gs: seq<G>, key: string)
    requires !Wild(key) && !Offers(Members(Flat(f, gs)), key)
    ensures key !in RegisterAll(Flat(f, gs)).entries && !Held(Lists(f, gs), key)
  {
    hide ValidDomain, RegisterAll, Flat, OutcomeOf, Hit;
    RunSound(Flat(f, gs));
    if key in RegisterAll(Flat(f, gs)).entries {
      KeyFacts(RegisterAll(Flat(f, gs)).entries[key][0].hostname);
    }
    forall g | g in gs ensures !OutcomeOf(f(g), key).Keyed? {
      if OutcomeOf(f(g), key).Keyed? {
        var i :| 0 <= i < |gs| && gs[i] == g;
        KeyedIsOffered(f, gs, i, key);
      }
    }
  }

  lemma LengthsTried<G(!new)>(f: G -> seq<TlsEntry>, gs: seq<G>, n: nat)
    ensures n in RegisterAll(Flat(f, gs)).lens <==> TriedLength(Lists(f, gs), n)
  {
    hide RegisterAll, Flat, KeyOf, IsWildcard;
    LensAre(Flat(f, gs), n);
    forall e ensures e in Members(Flat(f, gs)) <==> exists l :: l in Lists(f, gs) && e in l {
      FlatMembers(f, gs, e);
    }
  }

  /** And finds under a wildcard just the names that are left to it. */
  lemma FoundUnder<G(!new)>(f: G -> seq<TlsEntry>, gs: seq<G>, w: string, sni: string)
    requires PlainShadows(Members(Flat(f, gs))) && HostsAgree(Lists(f, gs)) && Wild(w)
    ensures Lookup(RegisterAll(Flat(f, gs)), sni) == Some(w) <==> LeftTo(Lists(f, gs), w, sni) && Held(Lists(f, gs), w)
  {
    hide ValidDomain, RegisterAll, Flat, PlainShadows, HostsAgree, Held, TriedLength, Lists, Hit, Members;
    var h := RegisterAll(Flat(f, gs));
    forall key ensures key in h.entries <==> Held(Lists(f, gs), key) {
      KeysHeld(f, gs, key);
    }
    forall n ensures n in h.lens <==> TriedLength(Lists(f, gs), n) {
      LengthsTried(f, gs, n);
    }
    if ValidDomain(sni) {
      DomainStart(sni);
      if LeftTo(Lists(f, gs), w, sni) && Held(Lists(f, gs), w) {
        WildTried(f, gs, w);
        HitAt(h, sni, |w|);
      }
    }
  }

  lemma WildTried<G(!new)>(f: G -> seq<TlsEntry>, gs: seq<G>, w: string)
    requires Wild(w) && Held(Lists(f, gs), w)
    ensures TriedLength(Lists(f, gs), |w|)
  {
    hide ValidDomain, LastWild, OutcomeOf, Lists, KeyOf;
    var l :| l in Lists(f, gs) && LastWild(l, w).Some?;
    LastWildIs(l, w);
  }

  /** Any two listings find a name under the same key. */
  lemma SameLookups<G(!new)>(f: G -> seq<TlsEntry>, p: seq<G>, q: seq<G>, sni: string)
    requires PlainShadows(Members(Flat(f, p))) && HostsAgree(Lists(f, p)) && multiset(p) == multiset(q)
    ensures Lookup(RegisterAll(Flat(f, p)), sni) == Lookup(RegisterAll(Flat(f, q)), sni)
  {
    hide ValidDomain, RegisterAll, Flat, PlainShadows, HostsAgree, Held, TriedLength, Lists, Hit, Members;
    SameMembers(f, p, q);
    SameLists(f, p, q);
    var h, h' := RegisterAll(Flat(f, p)), RegisterAll(Flat(f, q));
    forall key ensures key in h.entries <==> key in h'.entries {
      KeysHeld(f, p, key);
      KeysHeld(f, q, key);
    }
    forall n ensures n in h.lens <==> n in h'.lens {
      LengthsTried(f, p, n);
      LengthsTried(f, q, n);
    }
    HitSame(h, h', sni, |sni|);
  }

  lemma SameLists<G(!new)>(f: G -> seq<TlsEntry>, p: seq<G>, q: seq<G>)
    requires multiset(p) == multiset(q)
    ensures Lists(f, p) == Lists(f, q)
  {
    forall g ensures g in p <==> g in q {
      assert g in multiset(p) <==> g in multiset(q);
    }
  }

  /** Lists of a hostname start alike. */
  lemma SameHost<G(!new)>(f: G -> seq<TlsEntry>, p: seq<G>, q: seq<G>, k: string)
    requires PlainShadows(Members(Flat(f, p))) && HostsAgree(Lists(f, p)) && multiset(p) == multiset(q)
    requires ValidDomain(k) && !Wild(k) && k in RegisterAll(Flat(f, p)).entries && k in RegisterAll(Flat(f, q)).entries
    ensures var a, b := RegisterAll(Flat(f, p)).entries[k], RegisterAll(Flat(f, q)).entries[k]; a != [] && b != [] && a[0] == b[0]
  {
    hide ValidDomain, RegisterAll, Flat, PlainShadows, OutcomeOf, Lists, Hit, Members, Held;
    SameMembers(f, p, q);
    SameLists(f, p, q);
    if !Offers(Members(Flat(f, p)), k) {
      NotOffered(f, p, k);
    }
    RunDecides(Flat(f, p), Members(Flat(f, p)), k);
    RunDecides(Flat(f, q), Members(Flat(f, p)), k);
    FlatOutcome(f, p, k);
    FlatOutcome(f, q, k);
  }

  /** And so do those of a wildcard, where it matters. */
  lemma SameWildcard<G(!new)>(f: G -> seq<TlsEntry>, p: seq<G>, q: seq<G>, w: string, sni: string)
    requires WildcardsAgree(Lists(f, p)) && LeftTo(Lists(f, p), w, sni) && multiset(p) == multiset(q)
    requires Wild(w) && w in RegisterAll(Flat(f, p)).entries && w in RegisterAll(Flat(f, q)).entries
    ensures var a, b := RegisterAll(Flat(f, p)).entries[w], RegisterAll(Flat(f, q)).entries[w]; a != [] && b != [] && a[0] == b[0]
  {
    hide ValidDomain, RegisterAll, Flat, LastWild, Lists, LeftTo;
    SameLists(f, p, q);
    RunLastWild(Flat(f, p), w);
    RunLastWild(Flat(f, q), w);
    FlatLastWild(f, p, w);
    FlatLastWild(f, q, w);
  }

  lemma AgreeingListings<G(!new)>(f: G -> seq<TlsEntry>, p: seq<G>, q: seq<G>, sni: string)
    requires PlainShadows(Members(Flat(f, p))) && HostsAgree(Lists(f, p)) && WildcardsAgree(Lists(f, p)) && multiset(p) == multiset(q)
    ensures Served(RegisterAll(Flat(f, p)), sni) == Served(RegisterAll(Flat(f, q)), sni)
  {
    hide ValidDomain, RegisterAll, Flat, PlainShadows, HostsAgree, WildcardsAgree, LeftTo, Lists, Hit, Members, Held, KeyOf, Lookup;
    SameLookups(f, p, q, sni);
    var key := Lookup(RegisterAll(Flat(f, p)), sni);
    if key.Some? {
      if Wild(key.value) {
        FoundUnder(f, p, key.value, sni);
        SameWildcard(f, p, q, key.value, sni);
      } else {
        RunSound(Flat(f, p));
        KeyFacts(RegisterAll(Flat(f, p)).entries[key.value][0].hostname);
        SameHost(f, p, q, key.value);
      }
    }
  }

  lemma AgreeIsIndependent<G(!new)>(f: G -> seq<TlsEntry>, gs: seq<G>)
    requires PlainShadows(Members(Flat(f, gs))) && HostsAgree(Lists(f, gs)) && WildcardsAgree(Lists(f, gs))
    ensures Independent(f, gs)
  {
    hide RegisterAll, Served, Flat, PlainShadows, HostsAgree, WildcardsAgree, Lists;
    forall p, q, sni | multiset(p) == multiset(gs) && multiset(q) == multiset(gs)
      ensures Served(RegisterAll(Flat(f, p)), sni) == Served(RegisterAll(Flat(f, q)), sni)
    {
      SameMembers(f, p, gs);
      SameLists(f, p, gs);
      AgreeingListings(f, p, q, sni);
    }
  }

  /** Listed first, a group that decides a hostname on offer decides it for good. */
  lemma GroupDecides<G(!new)>(f: G -> seq<TlsEntry>, gs: seq<G>, i: nat, k: string)
    requires PlainShadows(Members(Flat(f, gs))) && i < |gs| && ValidDomain(k) && !OutcomeOf(f(gs[i]), k).Undecided?
    requires Offers(Members(Flat(f, gs)), k)
    ensures var e := Served(RegisterAll(Flat(f, [gs[i]] + Without(gs, i))), k);
      match OutcomeOf(f(gs[i]), k)
      case Keyed(first) => e == Some(first) && first.hostname == k
      case _ => e.Some? && e.value.hostname != k
  {
    hide ValidDomain, RegisterAll, Flat, Without, PlainShadows, OutcomeOf, Hit, Members, Offers;
    var p := [gs[i]] + Without(gs, i);
    MovedFirst(f, gs, i);
    SameMembers(f, p, gs);
    OutcomeAppend(f(gs[i]), Flat(f, Without(gs, i)), k);
    RunDecides(Flat(f, p), Members(Flat(f, gs)), k);
    KeyedHost(f(gs[i]), k);
    if OutcomeOf(f(gs[i]), k).Hidden? {
      ServedElsewhere(Flat(f, p), k);
    }
  }

  /** A keyed hostname is on offer. */
  lemma KeyedIsOffered<G(!new)>(f: G -> seq<TlsEntry>, gs: seq<G>, i: nat, k: string)
    requires i < |gs| && OutcomeOf(f(gs[i]), k).Keyed?
    ensures Offers(Members(Flat(f, gs)), k)
  {
    hide Flat, OutcomeOf;
    KeyedHost(f(gs[i]), k);
    var e := OutcomeOf(f(gs[i]), k).e;
    FlatMembers(f, gs, e);
    assert e in Members(Flat(f, gs));
  }

  lemma {:induction false} KeyedHost(es: seq<TlsEntry>, k: string)
    ensures OutcomeOf(es, k).Keyed? ==> OutcomeOf(es, k).e.hostname == k && OutcomeOf(es, k).e in es
  {
    if es != [] {
      KeyedHost(es[..|es| - 1], k);
    }
  }

  lemma {:induction false} LastWildIs(es: seq<TlsEntry>, w: string)
    ensures LastWild(es, w).Some? ==> LastWild(es, w).value in es && KeyOf(LastWild(es, w).value.hostname) == Some(w)
  {
    if es != [] {
      LastWildIs(es[..|es| - 1], w);
    }
  }

  /** Listed last, a group that has the wildcard leads its list, and the names left to it are found there. */
  lemma GroupEndsWild<G(!new)>(f: G -> seq<TlsEntry>, gs: seq<G>, i: nat, w: string, sni: string)
    requires PlainShadows(Members(Flat(f, gs))) && HostsAgree(Lists(f, gs))
    requires i < |gs| && Wild(w) && LastWild(f(gs[i]), w).Some? && LeftTo(Lists(f, gs), w, sni)
    ensures Served(RegisterAll(Flat(f, Without(gs, i) + [gs[i]])), sni) == LastWild(f(gs[i]), w)
  {
    hide ValidDomain, RegisterAll, Flat, Without, LastWild, KeyOf, PlainShadows, HostsAgree, LeftTo, Lookup, OutcomeOf;
    var p := Without(gs, i) + [gs[i]];
    MovedLast(f, gs, i);
    SameMembers(f, p, gs);
    SameLists(f, p, gs);
    LastWildAppend(Flat(f, Without(gs, i)), f(gs[i]), w);
    RunLastWild(Flat(f, p), w);
    assert f(gs[i]) in Lists(f, gs);
    FoundUnder(f, p, w, sni);
  }

  lemma HostDisagreement<G(!new)>(f: G -> seq<TlsEntry>, gs: seq<G>, i: nat, j: nat, k: string)
    requires PlainShadows(Members(Flat(f, gs))) && i < |gs| && j < |gs| && ValidDomain(k)
    requires !OutcomeOf(f(gs[i]), k).Undecided? && !OutcomeOf(f(gs[j]), k).Undecided? && OutcomeOf(f(gs[i]), k) != OutcomeOf(f(gs[j]), k)
    ensures !Independent(f, gs)
  {
    hide ValidDomain, RegisterAll, Flat, Without, PlainShadows, OutcomeOf, KeyOf, Served, Independent, Offers;
    if OutcomeOf(f(gs[i]), k).Keyed? {
      KeyedIsOffered(f, gs, i, k);
    } else {
      KeyedIsOffered(f, gs, j, k);
    }
    GroupDecides(f, gs, i, k);
    GroupDecides(f, gs, j, k);
    MovedFirst(f, gs, i);
    MovedFirst(f, gs, j);
    Differs(f, gs, [gs[i]] + Without(gs, i), [gs[j]] + Without(gs, j), k);
  }

  lemma WildDisagreement<G(!new)>(f: G -> seq<TlsEntry>, gs: seq<G>, i: nat, j: nat, w: string, sni: string)
    requires PlainShadows(Members(Flat(f, gs))) && HostsAgree(Lists(f, gs))
    requires i < |gs| && j < |gs| && Wild(w) && LeftTo(Lists(f, gs), w, sni)
    requires LastWild(f(gs[i]), w).Some? && LastWild(f(gs[j]), w).Some? && LastWild(f(gs[i]), w) != LastWild(f(gs[j]), w)
    ensures !Independent(f, gs)
  {
    hide RegisterAll, Flat, Without, LastWild, Served, Independent, LeftTo, PlainShadows, HostsAgree, Lists;
    GroupEndsWild(f, gs, i, w, sni);
    GroupEndsWild(f, gs, j, w, sni);
    MovedLast(f, gs, i);
    MovedLast(f, gs, j);
    Differs(f, gs, Without(gs, i) + [gs[i]], Without(gs, j) + [gs[j]], sni);
  }

  lemma ListAt<G(!new)>(f: G -> seq<TlsEntry>, gs: seq<G>, l: seq<TlsEntry>) returns (i: nat)
    requires l in Lists(f, gs)
    ensures i < |gs| && f(gs[i]) == l
  {
    var g :| g in gs && f(g) == l;
    i :| 0 <= i < |gs| && gs[i] == g;
  }

  /** If only wildcards shadow, the listing order is without effect exactly when the groups, each taken on its own, agree
      about every hostname and about every wildcard with a name left to it, whatever clashes there are within one. */
  lemma AgreementIff<G(!new)>(f: G -> seq<TlsEntry>, gs: seq<G>)
    requires PlainShadows(Members(Flat(f, gs)))
    ensures Independent(f, gs) <==> HostsAgree(Lists(f, gs)) && WildcardsAgree(Lists(f, gs))
  {
    hide Independent, PlainShadows, Flat, Lists, LeftTo, OutcomeOf, LastWild, ValidDomain;
    var ls := Lists(f, gs);
    if !HostsAgree(ls) {
      var l, l', k :| l in ls && l' in ls && ValidDomain(k) && !OutcomeOf(l, k).Undecided? && !OutcomeOf(l', k).Undecided? &&
                      OutcomeOf(l, k) != OutcomeOf(l', k);
      var i := ListAt(f, gs, l);
      var j := ListAt(f, gs, l');
      HostDisagreement(f, gs, i, j, k);
    } else if !WildcardsAgree(ls) {
      var l, l', w, sni :| l in ls && l' in ls && Wild(w) && LeftTo(ls, w, sni) && LastWild(l, w).Some? && LastWild(l', w).Some? &&
                           LastWild(l, w) != LastWild(l', w);
      var i := ListAt(f, gs, l);
      var j := ListAt(f, gs, l');
      WildDisagreement(f, gs, i, j, w, sni);
    } else {
      AgreeIsIndependent(f, gs);
    }
  }

  // ---------- Examples ----------

  lemma OneLabelSplit(l: string)
    requires '.' !in l
    ensures Split(l) == [l]
  {
    hide Split;
    assert l[0..] == l && l[0..|l|] == l;
    SplitFrom(l, 0, |l|);
  }

  lemma ExampleDomain()
    ensures ValidDomain("example.com")
  {
    hide Split;
    OneLabelSplit("example");
    OneLabelSplit("com");
    assert ValidLabel("example") && ValidLabel("com");
    JoinedDomains("example", "com");
    assert "example" + "." + "com" == "example.com";
  }

  lemma ExampleName()
    ensures ValidDomain("www.example.com")
  {
    hide Split, ValidLabel;
    ExampleDomain();
    OneLabelSplit("www");
    assert ValidLabel("www") by {
      ExampleLabel();
    }
    JoinedDomains("www", "example.com");
    assert "www" + "." + "example.com" == "www.example.com";
  }

  lemma ExampleLabel()
    ensures ValidLabel("www")
  {
  }

  lemma ExampleKey()
    ensures KeyOf("*.example.com") == Some(".example.com")
  {
    hide ValidDomain;
    ExampleDomain();
    assert "*.example.com"[2..] == "example.com" && "." + "example.com" == ".example.com";
  }

  lemma TwoEntries(a: TlsEntry, b: TlsEntry)
    ensures RegisterAll([a, b]) == Register(Register(EMPTY, a), b) && RegisterAll([a]) == Register(EMPTY, a)
  {
    hide Register;
    RegisterOne([], a);
    RegisterOne([a], b);
    assert [] + [a] == [a] && [a] + [b] == [a, b];
  }

  /** What a matcher that knows the wildcard, but not the name, answers. */
  lemma ExampleFound(h: Matcher)
    requires ".example.com" in h.entries && h.lens == {12} && "www.example.com" !in h.entries
    ensures Lookup(h, "www.example.com") == Some(".example.com")
  {
    hide ValidDomain;
    ExampleName();
    var k := "www.example.com";
    assert Suffix(k, 12) == ".example.com";
    HitAt(h, k, 12);
  }

  /** Of two listeners for the same wildcard only the one listed last is kept. */
  lemma LastWildcardWins(a: TlsEntry, b: TlsEntry)
    requires a.hostname == "*.example.com" && b.hostname == "*.example.com"
    ensures Served(RegisterAll([a, b]), "www.example.com") == Some(b) && RegisterAll([a, b]) == RegisterAll([b])
  {
    hide ValidDomain, Hit;
    ExampleKey();
    KeyFacts("*.example.com");
    TwoEntries(a, b);
    TwoEntries(b, a);
    assert Register(EMPTY, b) == Hosts(map[".example.com" := [b]], {12});
    assert Register(Register(EMPTY, a), b) == Hosts(map[".example.com" := [b]], {12});
    ExampleFound(RegisterAll([a, b]));
  }

  /** An exact hostname listed after a wildcard above it is served the wildcard's certificate, listed before it its own. */
  lemma ExactAfterWildcard(w: TlsEntry, x: TlsEntry)
    requires w.hostname == "*.example.com" && x.hostname == "www.example.com"
    ensures Served(RegisterAll([w, x]), "www.example.com") == Some(w) && Served(RegisterAll([x, w]), "www.example.com") == Some(x)
  {
    hide ValidDomain, Hit, RegisterAll;
    ExampleKey();
    ExampleName();
    KeyFacts("*.example.com");
    DomainIsKey("www.example.com");
    TwoEntries(w, x);
    TwoEntries(x, w);
    var h := Register(EMPTY, w);
    assert h == Hosts(map[".example.com" := [w]], {12});
    ExampleFound(h);
    var both := Register(h, x);
    assert both.entries == map[".example.com" := [w] + [x]];
    ExampleFound(both);
    NothingFound("www.example.com");
    assert Register(EMPTY, x) == Hosts(map["www.example.com" := [x]], {});
  }

  lemma NothingFound(k: string)
    ensures Lookup(EMPTY, k) == None
  {
  }

  /** A hostname without a dot is registered, but never served. */
  lemma SingleLabelIgnored(e: TlsEntry)
    requires e.hostname == "localhost"
    ensures RegisterAll([e]) == EMPTY && Served(RegisterAll([e]), "localhost") == None
  {
    hide Split;
    OneLabelSplit("localhost");
    assert "localhost"[0] != "*."[0];
    TwoEntries(e, e);
  }
}
