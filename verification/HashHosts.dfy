// Hostname patterns in a hash map: exact names, and wildcards found by the lengths of their keys.

module HashHosts {
  import opened Common
  import opened Text
  import opened Labels
  import opened Domains

  /** "*.example.com" is stored as ".example.com", a valid domain as itself, anything else not at all. */
  function KeyOf(pattern: string): Option<string> {
    if "*." <= pattern then (if ValidDomain(pattern[2..]) then Some("." + pattern[2..]) else None)
    else if ValidDomain(pattern) then Some(pattern)
    else None
  }

  predicate Wild(key: string) { key != "" && key[0] == '.' }

  /** `lens` are the lengths at which a lookup tries suffixes. */
  datatype Hosts<T> = Hosts(entries: map<string, T>, lens: set<nat>)

  function Inserted<T>(h: Hosts<T>, pattern: string, v: T): Hosts<T> {
    match KeyOf(pattern)
    case None => h
    case Some(key) => Hosts(h.entries[key := v], if Wild(key) then h.lens + {|key|} else h.lens)
  }

  function Suffix(k: string, n: nat): (s: string)
    requires n <= |k|
    ensures |s| == n
  {
    k[|k| - n..]
  }

  /** The longest suffix of `k` shorter than `n` that is tried and present. */
  function Hit<T>(h: Hosts<T>, k: string, n: nat): (key: Option<string>)
    requires n <= |k|
    ensures key.Some? ==> |key.value| < n && key.value == Suffix(k, |key.value|) && key.value in h.entries && |key.value| in h.lens
    ensures forall m :: (if key.Some? then |key.value| + 1 else 0) <= m < n && m in h.lens ==> Suffix(k, m) !in h.entries
  {
    if n == 0 then None
    else if n - 1 in h.lens && Suffix(k, n - 1) in h.entries then Some(Suffix(k, n - 1))
    else Hit(h, k, n - 1)
  }

  /** Where a name is found: under itself, or else at the longest suffix. */
  function Lookup<T>(h: Hosts<T>, k: string): (key: Option<string>)
    ensures key.Some? ==> key.value in h.entries && ValidDomain(k)
  {
    if !ValidDomain(k) then None else if k in h.entries then Some(k) else Hit(h, k, |k|)
  }

  predicate Descending(ns: seq<nat>) { forall i, j :: 0 <= i < j < |ns| ==> ns[i] > ns[j] }

  class HashHost<T> {
    var entries: map<string, T>
    var lens: seq<nat>

    ghost predicate Valid()
      reads this
    {
      Descending(lens)
    }

    ghost function Value(): Hosts<T>
      reads this
    {
      Hosts(entries, set n | n in lens)
    }

    constructor ()
      ensures Valid() && Value() == Hosts(map[], {})
    {
      entries, lens := map[], [];
    }

    method Insert(pattern: string, v: T) returns (ok: bool)
      requires Valid()
      modifies this
      ensures Valid() && ok == KeyOf(pattern).Some? && Value() == Inserted(old(Value()), pattern, v)
    {
      var key;
      if "*." <= pattern {
        var valid := IsValidDomain(pattern[2..]);
        if !valid {
          return false;
        }
        key := "." + pattern[2..];
      } else {
        var valid := IsValidDomain(pattern);
        if !valid {
          return false;
        }
        key := pattern;
      }
      if Wild(key) {
        lens := WithLength(lens, |key|);
      }
      entries := entries[key := v];
      return true;
    }

    /** The search of `get` and `get_mut`: longest lengths first. */
    method FindKey(k: string) returns (key: Option<string>)
      requires Valid()
      ensures key == Lookup(Value(), k)
    {
      var valid := IsValidDomain(k);
      if !valid {
        return None;
      }
      if k in entries {
        return Some(k);
      }
      ghost var h := Value();
      var i := 0;
      while i < |lens|
        invariant 0 <= i <= |lens|
        invariant forall j :: 0 <= j < i && lens[j] < |k| ==> Suffix(k, lens[j]) !in entries
      {
        if |k| > lens[i] && k[|k| - lens[i]..] in entries {
          HitAt(h, k, lens[i]);
          return Some(k[|k| - lens[i]..]);
        }
        i := i + 1;
      }
      return None;
    }

    method Get(k: string) returns (v: Option<T>)
      requires Valid()
      ensures v == match Lookup(Value(), k) case Some(key) => Some(entries[key]) case None => None
    {
      var key := FindKey(k);
      return if key.Some? then Some(entries[key.value]) else None;
    }
  }

  /** Inserts a length where a binary search would, unless it is there. */
  method WithLength(ns: seq<nat>, n: nat) returns (ms: seq<nat>)
    requires Descending(ns)
    ensures Descending(ms) && forall m :: m in ms <==> m in ns || m == n
  {
    var i := 0;
    while i < |ns| && ns[i] > n
      invariant 0 <= i <= |ns| && forall j :: 0 <= j < i ==> ns[j] > n
    {
      i := i + 1;
    }
    if i < |ns| && ns[i] == n {
      return ns;
    }
    SlippedIn(ns, i, n);
    ms := ns[..i] + [n] + ns[i..];
  }

  lemma SlippedIn(ns: seq<nat>, i: nat, n: nat)
    requires Descending(ns) && i <= |ns| && (forall j :: 0 <= j < i ==> ns[j] > n) && (i < |ns| ==> ns[i] < n)
    ensures Descending(ns[..i] + [n] + ns[i..]) && forall m :: m in ns[..i] + [n] + ns[i..] <==> m in ns || m == n
  {
    var ms := ns[..i] + [n] + ns[i..];
    forall j, k | 0 <= j < k < |ms| ensures ms[j] > ms[k] {
      if i < k {
        assert ms[k] == ns[k - 1] && ns[k - 1] <= ns[i];
      }
    }
    SlippedMembers(ns, i, n);
  }

  lemma SlippedMembers(ns: seq<nat>, i: nat, n: nat)
    requires i <= |ns|
    ensures forall m :: m in ns[..i] + [n] + ns[i..] <==> m in ns || m == n
  {
    assert ns == ns[..i] + ns[i..];
  }

  /** A present suffix with no longer one before it is the hit. */
  lemma HitAt<T>(h: Hosts<T>, k: string, n: nat)
    requires n < |k| && n in h.lens && Suffix(k, n) in h.entries
    requires forall m :: n < m < |k| && m in h.lens ==> Suffix(k, m) !in h.entries
    ensures Hit(h, k, |k|) == Some(Suffix(k, n))
  {
    var hit := Hit(h, k, |k|);
    assert hit.Some?;
  }

  // ---------- Keys ----------

  lemma DomainStart(d: string)
    requires ValidDomain(d)
    ensures d != "" && d[0] != '.' && d[0] != '*'
  {
    var first := Split(d)[0];
    assert ValidLabel(first) && first == d[..Find(d, '.')];
    assert first[0] == d[0];
  }

  lemma KeyFacts(pattern: string)
    requires KeyOf(pattern).Some?
    ensures var key := KeyOf(pattern).value; if Wild(key) then pattern == "*" + key && !ValidDomain(pattern) else pattern == key && ValidDomain(key)
  {
    hide ValidDomain;
    var key := KeyOf(pattern).value;
    if "*." <= pattern {
      assert pattern == "*." + pattern[2..];
      if ValidDomain(pattern) {
        DomainStart(pattern);
      }
    } else {
      DomainStart(pattern);
    }
  }

  lemma KeyInjective(a: string, b: string)
    requires KeyOf(a).Some? && KeyOf(a) == KeyOf(b)
    ensures a == b
  {
    KeyFacts(a);
    KeyFacts(b);
  }

  // ---------- What a lookup finds ----------

  /** What insertions make: keys of patterns, and the lengths of the wildcards among them. */
  ghost predicate Consistent<T(!new)>(h: Hosts<T>) {
    (forall key :: key in h.entries ==> if Wild(key) then ValidDomain(key[1..]) else ValidDomain(key)) &&
    (forall n :: n in h.lens <==> exists key :: key in h.entries && Wild(key) && |key| == n)
  }

  lemma InsertedConsistent<T(!new)>(h: Hosts<T>, pattern: string, v: T)
    requires Consistent(h)
    ensures Consistent(Inserted(h, pattern, v))
  {
    hide ValidDomain;
    if KeyOf(pattern).Some? {
      var key := KeyOf(pattern).value;
      KeyFacts(pattern);
      if Wild(key) {
        assert key[1..] == pattern[2..];
      }
      var h' := Inserted(h, pattern, v);
      forall n ensures n in h'.lens <==> exists k :: k in h'.entries && Wild(k) && |k| == n {
        if n in h.lens {
          var k :| k in h.entries && Wild(k) && |k| == n;
          assert k in h'.entries;
        }
        assert key in h'.entries;
      }
    }
  }

  /** The longest suffix of `k` shorter than `n` that is a wildcard's key. */
  function Wildcard<T>(entries: map<string, T>, k: string, n: nat): (key: Option<string>)
    requires n <= |k|
    ensures key.Some? ==> Wild(key.value)
  {
    if n == 0 then None
    else if Wild(Suffix(k, n - 1)) && Suffix(k, n - 1) in entries then Some(Suffix(k, n - 1))
    else Wildcard(entries, k, n - 1)
  }

  /** The name itself, or else the most specific wildcard above it. */
  function Promised<T>(entries: map<string, T>, k: string): Option<string> {
    if !ValidDomain(k) then None else if k in entries then Some(k) else Wildcard(entries, k, |k|)
  }

  /** No exact name is as long as a wildcard's key. */
  ghost predicate LengthsApart<T>(entries: map<string, T>) {
    forall e, w :: e in entries && w in entries && !Wild(e) && Wild(w) ==> |e| != |w|
  }

  /** A present suffix is tried exactly if it is a wildcard's key. */
  lemma TriedIffWild<T(!new)>(h: Hosts<T>, s: string)
    requires Consistent(h) && LengthsApart(h.entries) && s in h.entries
    ensures |s| in h.lens <==> Wild(s)
  {
    hide ValidDomain;
    if |s| in h.lens {
      var w :| w in h.entries && Wild(w) && |w| == |s|;
    }
  }

  lemma {:induction false} HitIsWildcard<T(!new)>(h: Hosts<T>, k: string, n: nat)
    requires Consistent(h) && LengthsApart(h.entries) && n <= |k|
    ensures Hit(h, k, n) == Wildcard(h.entries, k, n)
  {
    hide Consistent, LengthsApart, Wild;
    if n > 0 {
      HitIsWildcard(h, k, n - 1);
      if Suffix(k, n - 1) in h.entries {
        TriedIffWild(h, Suffix(k, n - 1));
      }
    }
  }

  /** `n` times the letter a. */
  function As(n: nat): (s: string)
    ensures |s| == n && forall i :: 0 <= i < n ==> s[i] == 'a'
  {
    if n == 0 then "" else "a" + As(n - 1)
  }

  lemma LongerDomain(n: nat, d: string)
    requires ValidDomain(d)
    ensures ValidDomain(As(n) + d)
  {
    hide Split, ValidLabel;
    var i := Find(d, '.');
    var a := As(n);
    assert d[0..] == d && (a + d)[0..] == a + d;
    SplitFrom(d, 0, i);
    assert (a + d)[0..n + i] == a + d[0..i];
    assert i < |d| ==> (a + d)[n + i + 1..] == d[i + 1..];
    SplitFrom(a + d, 0, n + i);
    var ls, ms := Split(d), Split(a + d);
    assert ms == [a + ls[0]] + ls[1..];
    LongerLabel(a, ls[0]);
    assert AllValid(ms) by {
      forall j | 0 <= j < |ms| ensures ValidLabel(ms[j]) {
        assert j > 0 ==> ms[j] == ls[j];
      }
    }
  }

  lemma LongerLabel(a: string, l: string)
    requires ValidLabel(l) && forall i :: 0 <= i < |a| ==> a[i] == 'a'
    ensures ValidLabel(a + l)
  {
  }

  /** No key is as long as this. */
  lemma {:induction false} LongerThan<T>(entries: map<string, T>) returns (n: nat)
    ensures forall key :: key in entries ==> |key| < n
    decreases |entries|
  {
    if entries == map[] {
      n := 0;
    } else {
      var key :| key in entries;
      var m := LongerThan(entries - {key});
      n := if |key| < m then m else |key| + 1;
      assert forall k :: k in entries ==> k == key || k in entries - {key};
    }
  }

  /** An exact name as long as a wildcard's key is also found for a name that merely ends like it. */
  lemma NotAsPromised<T(!new)>(h: Hosts<T>, e: string, w: string) returns (k: string)
    requires Consistent(h) && e in h.entries && w in h.entries && !Wild(e) && Wild(w) && |e| == |w|
    ensures Lookup(h, k) != Promised(h.entries, k)
  {
    hide ValidDomain;
    var n := LongerThan(h.entries);
    k := As(n) + e;
    LongerDomain(n, e);
    assert k !in h.entries;
    assert Suffix(k, |e|) == e && |w| in h.lens;
    assert n > 0;
    var hit := Hit(h, k, |k|);
    assert hit.Some? && |hit.value| >= |e|;
    assert !Wild(hit.value) by {
      assert hit.value[0] == k[|k| - |hit.value|];
      DomainStart(e);
    }
  }

  /** Lookups find the name or the most specific wildcard above it, exactly if no exact name is as long as a
      wildcard's key. */
  lemma AsPromisedIff<T(!new)>(h: Hosts<T>)
    requires Consistent(h)
    ensures (forall k :: Lookup(h, k) == Promised(h.entries, k)) <==> LengthsApart(h.entries)
  {
    if LengthsApart(h.entries) {
      forall k ensures Lookup(h, k) == Promised(h.entries, k) {
        HitIsWildcard(h, k, |k|);
      }
    } else {
      var e, w :| e in h.entries && w in h.entries && !Wild(e) && Wild(w) && |e| == |w|;
      var k := NotAsPromised(h, e, w);
    }
  }
}
