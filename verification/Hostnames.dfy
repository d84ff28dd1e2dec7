// Hostname patterns and domain names, as labels between dots.

module Labels {
  import opened Text

  /** The labels of a name. */
  function Split(s: string): (ls: seq<string>)
    ensures |ls| >= 1
  {
    SplitOn(s, '.')
  }

  function Join(ls: seq<string>): string
    requires |ls| >= 1
  {
    if |ls| == 1 then ls[0] else ls[0] + "." + Join(ls[1..])
  }

  lemma {:induction false} JoinSplit(s: string)
    ensures Join(Split(s)) == s
  {
    var i := Find(s, '.');
    if i < |s| {
      JoinSplit(s[i + 1..]);
      assert Split(s)[1..] == Split(s[i + 1..]);
      assert s == s[..i] + "." + s[i + 1..];
    }
  }

  lemma SplitInjective(a: string, b: string)
    requires Split(a) == Split(b)
    ensures a == b
  {
    JoinSplit(a);
    JoinSplit(b);
  }

  lemma {:induction false} SplitDotFree(s: string, i: nat)
    requires i < |Split(s)|
    ensures '.' !in Split(s)[i]
  {
    var k := Find(s, '.');
    if i > 0 {
      SplitDotFree(s[k + 1..], i - 1);
    }
  }

  lemma SplitCons(part: string, rest: string)
    requires '.' !in part
    ensures Split(part + "." + rest) == [part] + Split(rest)
  {
    hide SplitOn;
    assert part + "." + rest == part + ['.'] + rest;
    SplitOnCons(part, '.', rest);
  }

  /** Splitting from a position whose label ends at `i`. */
  lemma SplitFrom(s: string, start: nat, i: nat)
    requires start <= i <= |s| && '.' !in s[start..i] && (i < |s| ==> s[i] == '.')
    ensures Split(s[start..]) == [s[start..i]] + if i == |s| then [] else Split(s[i + 1..])
  {
    hide Split;
    if i == |s| {
      assert s[start..] == s[start..i];
      SplitNone(s[start..i]);
    } else {
      SplitCons(s[start..i], s[i + 1..]);
      assert s[start..] == s[start..i] + "." + s[i + 1..];
    }
  }

  /** A name without dots is one label. */
  lemma SplitNone(part: string)
    requires '.' !in part
    ensures Split(part) == [part]
  {
    assert Find(part, '.') == |part|;
  }

  lemma SplitJoined(a: string, b: string)
    ensures Split(a + "." + b) == Split(a) + Split(b)
  {
    hide SplitOn;
    assert a + "." + b == a + ['.'] + b;
    SplitOnJoined(a, '.', b);
  }
}

module Domains {
  import opened Text
  import opened Labels

  predicate IsAlphanumeric(c: char) { 'a' <= c <= 'z' || 'A' <= c <= 'Z' || '0' <= c <= '9' }

  /** The label shape of section 2.1 of RFC 1123, without its length limit. */
  predicate ValidLabel(l: string) {
    l != "" && (forall i :: 0 <= i < |l| ==> IsAlphanumeric(l[i]) || l[i] == '-') && l[0] != '-' && l[|l| - 1] != '-'
  }

  predicate AllValid(ls: seq<string>) { forall i :: 0 <= i < |ls| ==> ValidLabel(ls[i]) }

  predicate ValidDomain(s: string) { |Split(s)| >= 2 && AllValid(Split(s)) }

  /** The checks on the label between `start` and `end`. */
  method CheckLabel(s: string, start: nat, end: nat) returns (ok: bool)
    requires start <= end <= |s|
    ensures ok <==> ValidLabel(s[start..end])
  {
    if end - start == 0 || s[start] == '-' || s[end - 1] == '-' {
      return false;
    }
    for k := start to end
      invariant forall j :: start <= j < k ==> IsAlphanumeric(s[j]) || s[j] == '-'
    {
      if !IsAlphanumeric(s[k]) && s[k] != '-' {
        assert s[start..end][k - start] == s[k];
        return false;
      }
    }
    return true;
  }

  /** The labels before `start` are `done`, they are valid, and no dot follows before `i`. */
  ghost predicate Scanned(s: string, done: seq<string>, start: nat, i: nat) {
    start <= i <= |s| && '.' !in s[start..i] && Split(s) == done + Split(s[start..]) && AllValid(done)
  }

  lemma NothingScanned(s: string)
    ensures Scanned(s, [], 0, 0)
  {
    assert s[0..] == s;
  }

  /** Reaching the dot or the end after a label. */
  lemma LabelEnds(s: string, done: seq<string>, start: nat, i: nat)
    requires Scanned(s, done, start, i) && (i < |s| ==> s[i] == '.')
    ensures !ValidLabel(s[start..i]) ==> !ValidDomain(s)
    ensures ValidLabel(s[start..i]) && i < |s| ==> Scanned(s, done + [s[start..i]], i + 1, i + 1)
    ensures ValidLabel(s[start..i]) && i == |s| ==> Split(s) == done + [s[start..i]] && AllValid(Split(s))
  {
    hide Split;
    var part := s[start..i];
    SplitFrom(s, start, i);
    assert Split(s)[|done|] == part;
    if i < |s| {
      assert Split(s) == (done + [part]) + Split(s[i + 1..]);
    }
  }

  /** `is_valid_domain`. */
  method IsValidDomain(s: string) returns (valid: bool)
    ensures valid <==> ValidDomain(s)
  {
    hide Split, ValidLabel, AllValid;
    if s == "" {
      SplitNone(s);
      return false;
    }
    var hasDot, labelStart, i := false, 0, 0;
    ghost var done: seq<string> := [];
    NothingScanned(s);
    while i <= |s|
      invariant i <= |s| + 1
      invariant i <= |s| ==> labelStart <= i && Scanned(s, done, labelStart, i) && (hasDot <==> |done| >= 1)
      invariant i == |s| + 1 ==> AllValid(Split(s)) && (hasDot <==> |Split(s)| >= 2)
    {
      if i == |s| || s[i] == '.' {
        LabelEnds(s, done, labelStart, i);
        if i < |s| {
          hasDot := true;
        }
        var ok := CheckLabel(s, labelStart, i);
        if !ok {
          return false;
        }
        done := done + [s[labelStart..i]];
        labelStart := i + 1;
      }
      i := i + 1;
    }
    return hasDot;
  }

  /** Valid domains are closed under joining, and a joined name is valid only label by label. */
  lemma JoinedDomains(a: string, b: string)
    ensures ValidDomain(a + "." + b) <==> AllValid(Split(a)) && AllValid(Split(b))
  {
    SplitJoined(a, b);
    var ls := Split(a + "." + b);
    assert ls[..|Split(a)|] == Split(a) && ls[|Split(a)|..] == Split(b);
  }
}

module Hostnames {
  import opened Text
  import opened Labels
  import opened Domains

  predicate IsStar(part: string) { part == "*" }

  predicate StarsFirst(ps: seq<string>) { forall i, j :: 0 <= i < j < |ps| && IsStar(ps[j]) ==> IsStar(ps[i]) }

  predicate NoStars(ps: seq<string>) { forall i :: 0 <= i < |ps| ==> !IsStar(ps[i]) }

  /** A star takes any non-empty label, any other label only itself. */
  predicate Takes(p: string, h: string) { if IsStar(p) then h != "" else h == p }

  /** Equally many labels, the stars form a prefix, and each label takes the one it faces. */
  predicate LabelsMatch(ps: seq<string>, hs: seq<string>) {
    |ps| == |hs| && StarsFirst(ps) && forall i :: 0 <= i < |ps| ==> Takes(ps[i], hs[i])
  }

  /** The same, label by label, `exact` saying that a label other than a star came before. */
  predicate MatchFrom(ps: seq<string>, hs: seq<string>, exact: bool) {
    if ps == [] || hs == [] then ps == hs
    else Takes(ps[0], hs[0]) && !(exact && IsStar(ps[0])) && MatchFrom(ps[1..], hs[1..], exact || !IsStar(ps[0]))
  }

  lemma StarsFirstCons(ps: seq<string>)
    requires ps != []
    ensures StarsFirst(ps) <==> (IsStar(ps[0]) || NoStars(ps[1..])) && StarsFirst(ps[1..])
  {
    hide IsStar;
    var qs := ps[1..];
    assert forall i :: 0 <= i < |qs| ==> qs[i] == ps[i + 1];
    if StarsFirst(ps) {
      forall i, j | 0 <= i < j < |qs| && IsStar(qs[j]) ensures IsStar(qs[i]) {
        assert IsStar(ps[j + 1]) && ps[i + 1] == qs[i];
      }
    }
  }

  lemma {:induction false} MatchFromIff(ps: seq<string>, hs: seq<string>, exact: bool)
    ensures MatchFrom(ps, hs, exact) <==> LabelsMatch(ps, hs) && (exact ==> NoStars(ps))
  {
    hide IsStar, Takes, StarsFirst;
    if ps == [] {
      assert StarsFirst([]) by {
        NoStarsFirst();
      }
    } else if hs != [] {
      StarsFirstCons(ps);
      MatchFromIff(ps[1..], hs[1..], exact || !IsStar(ps[0]));
      assert forall i :: 0 <= i < |ps[1..]| ==> ps[1..][i] == ps[i + 1];
      assert forall i :: 0 <= i < |hs[1..]| ==> hs[1..][i] == hs[i + 1];
    }
  }

  lemma NoStarsFirst()
    ensures StarsFirst([])
  {
  }

  lemma MatchFromCons(p: string, ps: seq<string>, h: string, hs: seq<string>, exact: bool)
    ensures MatchFrom([p] + ps, [h] + hs, exact) <==>
      Takes(p, h) && !(exact && IsStar(p)) && MatchFrom(ps, hs, exact || !IsStar(p))
    ensures ps == [] || hs == [] ==> (MatchFrom(ps, hs, exact || !IsStar(p)) <==> ps == hs)
  {
    hide Takes, IsStar;
    assert ([p] + ps)[1..] == ps && ([h] + hs)[1..] == hs;
  }

  /** The pattern from `p` on still has to match the hostname from `h` on. */
  ghost predicate Remaining(pattern: string, p: nat, hostname: string, h: nat, exact: bool) {
    p <= |pattern| && h <= |hostname| &&
    (LabelsMatch(Split(pattern), Split(hostname)) <==> MatchFrom(Split(pattern[p..]), Split(hostname[h..]), exact))
  }

  /** One more label of the pattern ends at `q`; `k` is where the hostname's label of equal standing ends. */
  lemma LabelStep(pattern: string, p: nat, q: nat, hostname: string, h: nat, k: nat, exact: bool)
    requires Remaining(pattern, p, hostname, h, exact)
    requires p <= q <= |pattern| && '.' !in pattern[p..q] && (q < |pattern| ==> pattern[q] == '.')
    requires h <= k <= |hostname| && '.' !in hostname[h..k] && (k < |hostname| ==> hostname[k] == '.')
    ensures var seg := pattern[p..q];
      var matching := LabelsMatch(Split(pattern), Split(hostname));
      if !Takes(seg, hostname[h..k]) || (exact && IsStar(seg)) then !matching
      else if q == |pattern| || k == |hostname| then matching <==> q == |pattern| && k == |hostname|
      else Remaining(pattern, q + 1, hostname, k + 1, exact || !IsStar(seg))
  {
    hide Split, LabelsMatch, IsStar, Takes, MatchFrom;
    SplitFrom(pattern, p, q);
    SplitFrom(hostname, h, k);
    var ps := if q == |pattern| then [] else Split(pattern[q + 1..]);
    var hs := if k == |hostname| then [] else Split(hostname[k + 1..]);
    MatchFromCons(pattern[p..q], ps, hostname[h..k], hs, exact);
  }

  /** End of the label that starts at `i`. */
  method LabelEnd(s: string, i: nat) returns (end: nat)
    requires i <= |s|
    ensures i <= end <= |s| && '.' !in s[i..end] && (end < |s| ==> s[end] == '.')
  {
    end := i;
    while end < |s| && s[end] != '.'
      invariant i <= end <= |s| && '.' !in s[i..end]
    {
      end := end + 1;
    }
  }

  /** Nothing is left of the pattern but an empty label. */
  lemma PatternEnds(pattern: string, hostname: string, h: nat, exact: bool)
    requires Remaining(pattern, |pattern|, hostname, h, exact)
    ensures LabelsMatch(Split(pattern), Split(hostname)) <==> h == |hostname|
  {
    hide Split, LabelsMatch, MatchFrom;
    var k := h + Find(hostname[h..], '.');
    assert hostname[h..k] == hostname[h..][..k - h] && pattern[|pattern|..|pattern|] == "";
    LabelStep(pattern, |pattern|, |pattern|, hostname, h, k, exact);
  }

  /** What comparing the bytes of an exact label `pattern[p..q]` with those at `h` tells. */
  lemma ExactStep(pattern: string, p: nat, q: nat, hostname: string, h: nat, exact: bool)
    requires p <= q <= |pattern| && '.' !in pattern[p..q] && (q < |pattern| ==> pattern[q] == '.')
    requires Remaining(pattern, p, hostname, h, exact) && !IsStar(pattern[p..q])
    ensures var matching := LabelsMatch(Split(pattern), Split(hostname));
      var k := h + (q - p);
      if k > |hostname| || hostname[h..k] != pattern[p..q] then !matching
      else if q == |pattern| then matching <==> k == |hostname|
      else if k == |hostname| || hostname[k] != '.' then !matching
      else Remaining(pattern, q + 1, hostname, k + 1, true)
  {
    hide Split, LabelsMatch, MatchFrom;
    var e := h + Find(hostname[h..], '.');
    assert hostname[h..e] == hostname[h..][..e - h];
    LabelStep(pattern, p, q, hostname, h, e, exact);
    var k := h + (q - p);
    if k <= |hostname| && hostname[h..k] == pattern[p..q] {
      assert forall i :: h <= i < k ==> hostname[i] == pattern[p..q][i - h];
      assert k <= e;
    }
  }

  /** The inner loop: whether the `n` characters at `p` are those at `h`. */
  method SameAt(pattern: string, p: nat, hostname: string, h: nat, n: nat) returns (same: bool)
    requires p + n <= |pattern| && h + n <= |hostname|
    ensures same <==> hostname[h..h + n] == pattern[p..p + n]
  {
    for i := 0 to n
      invariant hostname[h..h + i] == pattern[p..p + i]
    {
      if pattern[p + i] != hostname[h + i] {
        assert pattern[p..p + n][i] != hostname[h..h + n][i];
        return false;
      }
      assert hostname[h..h + i + 1] == hostname[h..h + i] + [hostname[h + i]];
      assert pattern[p..p + i + 1] == pattern[p..p + i] + [pattern[p + i]];
    }
    return true;
  }

  /** `wildcard_match`: two pointers, one label of the pattern per round. */
  method WildcardMatch(pattern: string, hostname: string) returns (matching: bool)
    ensures matching <==> LabelsMatch(Split(pattern), Split(hostname))
  {
    hide Split, LabelsMatch, MatchFrom;
    var p: nat, h: nat, exact := 0, 0, false;
    assert pattern[0..] == pattern && hostname[0..] == hostname;
    MatchFromIff(Split(pattern), Split(hostname), false);
    if pattern == "" {
      PatternEnds(pattern, hostname, 0, false);
    }
    while p < |pattern|
      invariant p <= |pattern| && h <= |hostname|
      invariant p < |pattern| ==> Remaining(pattern, p, hostname, h, exact)
      invariant p == |pattern| ==> (LabelsMatch(Split(pattern), Split(hostname)) <==> h == |hostname|)
    {
      var q := LabelEnd(pattern, p);
      if q - p == 1 && pattern[p] == '*' {
        assert pattern[p..q] == "*";
        var k := LabelEnd(hostname, h);
        LabelStep(pattern, p, q, hostname, h, k, exact);
        if exact {
          return false;
        }
        if h >= |hostname| || k == h {
          return false;
        }
        h := k;
      } else {
        assert pattern[p..q] != "*";
        ExactStep(pattern, p, q, hostname, h, exact);
        exact := true;
        if h + (q - p) > |hostname| {
          return false;
        }
        var same := SameAt(pattern, p, hostname, h, q - p);
        if !same {
          return false;
        }
        h := h + (q - p);
      }
      p := q;
      if p < |pattern| {
        if h >= |hostname| || hostname[h] != '.' {
          return false;
        }
        p, h := p + 1, h + 1;
        if p == |pattern| {
          PatternEnds(pattern, hostname, h, exact);
        }
      }
    }
    return h == |hostname|;
  }

  // ---------- Patterns built from valid domains ----------

  lemma PlainPattern(ps: seq<string>, hs: seq<string>)
    requires NoStars(ps)
    ensures LabelsMatch(ps, hs) <==> hs == ps
  {
  }

  lemma DomainHasNoStars(d: string)
    requires AllValid(Split(d))
    ensures NoStars(Split(d))
  {
    forall i | 0 <= i < |Split(d)| ensures !IsStar(Split(d)[i]) {
      assert ValidLabel(Split(d)[i]);
    }
  }

  /** A valid domain is a pattern for itself alone. */
  lemma DomainMatchesItself(d: string, h: string)
    requires ValidDomain(d)
    ensures LabelsMatch(Split(d), Split(h)) <==> h == d
  {
    hide Split, LabelsMatch;
    DomainHasNoStars(d);
    PlainPattern(Split(d), Split(h));
    if Split(h) == Split(d) {
      SplitInjective(h, d);
    }
  }

  /** `k` times "*.". */
  function Stars(k: nat): string { if k == 0 then "" else "*." + Stars(k - 1) }

  /** Labels, each followed by a dot. */
  function Dotted(ls: seq<string>): string { if ls == [] then "" else ls[0] + "." + Dotted(ls[1..]) }

  ghost predicate Subdomain(h: string, ls: seq<string>, d: string) {
    h == Dotted(ls) + d && forall i :: 0 <= i < |ls| ==> ls[i] != "" && '.' !in ls[i]
  }

  lemma LabelsMatchCons(p: string, ps: seq<string>, h: string, hs: seq<string>)
    ensures LabelsMatch([p] + ps, [h] + hs) <==> Takes(p, h) && (IsStar(p) || NoStars(ps)) && LabelsMatch(ps, hs)
  {
    hide Takes, IsStar;
    MatchFromIff([p] + ps, [h] + hs, false);
    MatchFromIff(ps, hs, !IsStar(p));
    MatchFromCons(p, ps, h, hs, false);
  }

  lemma StarStep(ps: seq<string>, h: string, hs: seq<string>)
    ensures LabelsMatch(["*"] + ps, [h] + hs) <==> h != "" && LabelsMatch(ps, hs)
  {
    LabelsMatchCons("*", ps, h, hs);
  }

  lemma SplitStars(k: nat, d: string)
    requires k > 0
    ensures Split(Stars(k) + d) == ["*"] + Split(Stars(k - 1) + d)
  {
    hide Split;
    SplitCons("*", Stars(k - 1) + d);
    assert Stars(k) + d == "*" + "." + (Stars(k - 1) + d);
  }

  /** `h` lies exactly `k` labels below `d`. */
  ghost predicate Below(k: nat, h: string, d: string) { exists ls :: |ls| == k && Subdomain(h, ls, d) }

  lemma NoLabels(h: string, d: string)
    ensures Below(0, h, d) <==> h == d
  {
    assert Dotted([]) + d == d;
    if h == d {
      var none: seq<string> := [];
      assert |none| == 0 && Subdomain(h, none, d);
    }
  }

  /** Without a dot, `h` is nobody's subdomain, nor matched by a pattern that starts with a star and a dot. */
  lemma NotDeepEnough(k: nat, d: string, h: string)
    requires k > 0 && '.' !in h
    ensures !LabelsMatch(Split(Stars(k) + d), Split(h)) && !Below(k, h, d)
  {
    hide Split;
    SplitStars(k, d);
    SplitNone(h);
    assert |Split(Stars(k) + d)| > 1;
    forall ls | |ls| == k ensures !Subdomain(h, ls, d) {
      assert '.' in Dotted(ls);
    }
  }

  lemma SubdomainTail(h: string, i: nat, ls: seq<string>, d: string)
    requires i == Find(h, '.') < |h| && ls != [] && Subdomain(h, ls, d)
    ensures h[..i] != "" && Subdomain(h[i + 1..], ls[1..], d)
  {
    hide Find, Dotted;
    var first, rest := ls[0], Dotted(ls[1..]) + d;
    DottedCons(ls, d);
    FindAfter(first, '.', rest);
    assert h[i + 1..] == rest;
  }

  lemma DottedCons(ls: seq<string>, d: string)
    requires ls != []
    ensures Dotted(ls) + d == ls[0] + ['.'] + (Dotted(ls[1..]) + d)
  {
    hide Find;
    assert ls[0] + "." + Dotted(ls[1..]) + d == ls[0] + ['.'] + (Dotted(ls[1..]) + d);
  }

  lemma SubdomainOf(first: string, rest: string, ls: seq<string>, d: string)
    requires first != "" && '.' !in first && Subdomain(rest, ls, d)
    ensures Subdomain(first + "." + rest, [first] + ls, d)
  {
    assert ([first] + ls)[1..] == ls;
    assert first + "." + (Dotted(ls) + d) == first + "." + Dotted(ls) + d;
  }

  lemma BelowTail(k: nat, d: string, h: string, i: nat)
    requires k > 0 && i == Find(h, '.') < |h| && Below(k, h, d)
    ensures h[..i] != "" && Below(k - 1, h[i + 1..], d)
  {
    hide Find, Subdomain;
    var ls :| |ls| == k && Subdomain(h, ls, d);
    SubdomainTail(h, i, ls, d);
    assert |ls[1..]| == k - 1;
  }

  lemma BelowOf(k: nat, d: string, first: string, rest: string)
    requires k > 0 && first != "" && '.' !in first && Below(k - 1, rest, d)
    ensures Below(k, first + "." + rest, d)
  {
    hide Subdomain;
    var ls :| |ls| == k - 1 && Subdomain(rest, ls, d);
    SubdomainOf(first, rest, ls, d);
    assert |[first] + ls| == k;
  }

  /** Taking off the first label of a subdomain, or putting it back. */
  lemma SubdomainCons(k: nat, d: string, h: string, i: nat)
    requires k > 0 && i == Find(h, '.') < |h|
    ensures Below(k, h, d) <==> h[..i] != "" && Below(k - 1, h[i + 1..], d)
  {
    hide Find, Below;
    if Below(k, h, d) {
      BelowTail(k, d, h, i);
    }
    if h[..i] != "" && Below(k - 1, h[i + 1..], d) {
      BelowOf(k, d, h[..i], h[i + 1..]);
      assert h == h[..i] + "." + h[i + 1..];
    }
  }

  /** `k` stars before a valid domain match exactly its subdomains `k` labels deep. */
  lemma {:induction false} StarsMatchSubdomains(k: nat, d: string, h: string)
    requires ValidDomain(d)
    ensures LabelsMatch(Split(Stars(k) + d), Split(h)) <==> Below(k, h, d)
  {
    hide LabelsMatch, Below, Takes, Split;
    if k == 0 {
      DomainMatchesItself(d, h);
      assert Stars(0) + d == d;
      NoLabels(h, d);
    } else {
      SplitStars(k, d);
      var i := Find(h, '.');
      if i == |h| {
        NotDeepEnough(k, d, h);
      } else {
        var first, rest := h[..i], h[i + 1..];
        assert h[0..] == h && h[0..i] == first;
        SplitFrom(h, 0, i);
        StarStep(Split(Stars(k - 1) + d), first, Split(rest));
        StarsMatchSubdomains(k - 1, d, rest);
        SubdomainCons(k, d, h, i);
      }
    }
  }

  // ---------- Host lists ----------

  // Lower-casing a text is a parameter, of which only the effect on ASCII matters.

  function LowerChar(c: char): char { if 'A' <= c <= 'Z' then c - 'A' + 'a' else c }

  function Lower(s: string): string { seq(|s|, i requires 0 <= i < |s| => LowerChar(s[i])) }

  predicate Ascii(s: string) { forall i :: 0 <= i < |s| ==> s[i] as int < 128 }

  ghost predicate LowersAscii(lower: string -> string) { forall s :: Ascii(s) ==> lower(s) == Lower(s) }

  ghost predicate HostMatches(lower: string -> string, host: string, hostname: string) {
    lower(host) == lower(hostname) ||
    (lower(host) != "" && lower(host)[0] == '*' && LabelsMatch(Split(lower(host)), Split(lower(hostname))))
  }

  /** `matches_hostname`. */
  method MatchesHostname(lower: string -> string, hosts: seq<string>, hostname: string) returns (found: bool)
    ensures found <==> exists host :: host in hosts && HostMatches(lower, host, hostname)
  {
    hide LabelsMatch, Split;
    var name := lower(hostname);
    for i := 0 to |hosts|
      invariant forall j :: 0 <= j < i ==> !HostMatches(lower, hosts[j], hostname)
    {
      var host := lower(hosts[i]);
      if host == name {
        assert hosts[i] in hosts;
        return true;
      }
      if host != "" && host[0] == '*' {
        var matching := WildcardMatch(host, name);
        if matching {
          assert hosts[i] in hosts;
          return true;
        }
      }
    }
    return false;
  }

  /** The hosts of a list, without letter case, order or repetition. */
  function LowerSet(lower: string -> string, hosts: seq<string>): set<string> { set h | h in hosts :: lower(h) }

  /** Neither letter case nor the order of the list matters. */
  lemma HostListInvariance(lower: string -> string, hosts: seq<string>, hosts': seq<string>, hostname: string, hostname': string)
    requires lower(hostname) == lower(hostname')
    requires LowerSet(lower, hosts) == LowerSet(lower, hosts')
    ensures (exists h :: h in hosts && HostMatches(lower, h, hostname)) <==> (exists h :: h in hosts' && HostMatches(lower, h, hostname'))
  {
    hide LabelsMatch, Split;
    SameHosts(lower, hosts, hosts', hostname, hostname');
    SameHosts(lower, hosts', hosts, hostname', hostname);
  }

  lemma SameHosts(lower: string -> string, hosts: seq<string>, hosts': seq<string>, hostname: string, hostname': string)
    requires lower(hostname) == lower(hostname')
    requires LowerSet(lower, hosts) == LowerSet(lower, hosts')
    ensures (exists h :: h in hosts && HostMatches(lower, h, hostname)) ==> (exists h :: h in hosts' && HostMatches(lower, h, hostname'))
  {
    hide LabelsMatch, Split;
    if h :| h in hosts && HostMatches(lower, h, hostname) {
      assert lower(h) in LowerSet(lower, hosts');
      var h' :| h' in hosts' && lower(h') == lower(h);
      assert HostMatches(lower, h', hostname');
    }
  }

  /** A certificate for `k` stars and a valid domain serves the domain's subdomains, both in any case. */
  lemma WildcardHost(lower: string -> string, k: nat, d: string, hostname: string)
    requires LowersAscii(lower) && ValidDomain(d) && k > 0
    ensures HostMatches(lower, Stars(k) + d, hostname) <==>
      lower(hostname) == Stars(k) + Lower(d) || Below(k, lower(hostname), Lower(d))
  {
    hide LabelsMatch, Split, Below, Lower, ValidDomain, Ascii;
    StarsAscii(k, d);
    LowerStars(k, d);
    LowerDomain(d);
    StarsMatchSubdomains(k, Lower(d), lower(hostname));
    assert (Stars(k) + Lower(d))[0] == '*';
  }

  lemma LabelAscii(l: string)
    requires ValidLabel(l)
    ensures Ascii(l)
  {
  }

  lemma AsciiJoined(a: string, b: string)
    requires Ascii(a) && Ascii(b)
    ensures Ascii(a + "." + b)
  {
  }

  lemma {:induction false} LabelsAscii(s: string)
    requires AllValid(Split(s))
    ensures Ascii(s)
  {
    hide Split, ValidLabel, Ascii, Find;
    var i := Find(s, '.');
    assert s[0..] == s;
    SplitFrom(s, 0, i);
    var labels := Split(s);
    assert labels[0] == s[0..i];
    LabelAscii(labels[0]);
    if i < |s| {
      var rest := s[i + 1..];
      assert labels[1..] == Split(rest);
      LabelsAscii(rest);
      AsciiJoined(s[0..i], rest);
      assert s == s[0..i] + "." + rest;
    } else {
      assert s[0..i] == s;
    }
  }

  lemma {:induction false} StarsAscii(k: nat, d: string)
    requires ValidDomain(d)
    ensures Ascii(Stars(k) + d)
  {
    if k == 0 {
      LabelsAscii(d);
      assert Stars(0) + d == d;
    } else {
      StarsAscii(k - 1, d);
      assert Stars(k) + d == "*." + (Stars(k - 1) + d);
    }
  }

  lemma {:induction false} LowerStars(k: nat, d: string)
    ensures Lower(Stars(k) + d) == Stars(k) + Lower(d)
  {
    if k > 0 {
      LowerStars(k - 1, d);
      assert Stars(k) + d == "*." + (Stars(k - 1) + d);
      assert Lower("*." + (Stars(k - 1) + d)) == "*." + Lower(Stars(k - 1) + d);
    } else {
      assert Stars(0) + d == d;
    }
  }

  lemma LowerDomain(d: string)
    requires ValidDomain(d)
    ensures ValidDomain(Lower(d))
  {
    hide Split;
    LowerLabels(d);
    forall i | 0 <= i < |Split(Lower(d))| ensures ValidLabel(Split(Lower(d))[i]) {
      assert Split(Lower(d))[i] == Lower(Split(d)[i]);
      LowerLabel(Split(d)[i]);
    }
  }

  lemma LowerLabel(l: string)
    requires ValidLabel(l)
    ensures ValidLabel(Lower(l))
  {
    forall i | 0 <= i < |l| ensures IsAlphanumeric(Lower(l)[i]) || Lower(l)[i] == '-' {
      assert IsAlphanumeric(l[i]) || l[i] == '-';
    }
  }

  /** Lower-casing works label by label. */
  lemma {:induction false} LowerLabels(s: string)
    ensures |Split(Lower(s))| == |Split(s)| && forall i :: 0 <= i < |Split(s)| ==> Split(Lower(s))[i] == Lower(Split(s)[i])
  {
    hide Split;
    var i := Find(s, '.');
    assert s[0..] == s && Lower(s)[0..] == Lower(s);
    assert Lower(s)[0..i] == Lower(s[0..i]);
    assert '.' !in Lower(s[0..i]) by {
      LowerNoDot(s[0..i]);
    }
    SplitFrom(s, 0, i);
    SplitFrom(Lower(s), 0, i);
    if i < |s| {
      assert Lower(s)[i + 1..] == Lower(s[i + 1..]);
      LowerLabels(s[i + 1..]);
    }
  }

  lemma LowerNoDot(s: string)
    requires '.' !in s
    ensures '.' !in Lower(s)
  {
    forall i | 0 <= i < |s| ensures Lower(s)[i] != '.' {
      assert s[i] in s;
    }
  }
}
