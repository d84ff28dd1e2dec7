// Longest-prefix matching of addresses: rules go into a binary tree, the tree is flattened into an
// array, and lookups walk the array. An address is its bits, most significant first, so one model
// serves the 32-bit and the 128-bit tree.

module IpRadix {
  import opened Common

  type Bits = seq<bool>

  const U32_MAX: nat := 0xFFFF_FFFF

  /** The first `length` bits of `bits`; the rest is zeroed when a rule is read and never looked at. */
  datatype Rule = Rule(bits: Bits, length: nat, allow: bool)

  predicate Covers(r: Rule, ip: Bits) { r.length <= |r.bits| && r.length <= |ip| && r.bits[..r.length] == ip[..r.length] }

  // ---------- The meaning of a rule list ----------

  /** The latest rule for exactly this prefix. */
  function LatestFor(rules: seq<Rule>, prefix: Bits): Option<bool> {
    if rules == [] then None
    else
      var r := rules[|rules| - 1];
      if r.length == |prefix| && Covers(r, prefix) then Some(r.allow) else LatestFor(rules[..|rules| - 1], prefix)
  }

  /** The rule for the longest prefix of `ip` with at most `n` bits that has one. */
  function LongestUpTo(rules: seq<Rule>, ip: Bits, n: nat): Option<bool>
    requires n <= |ip|
  {
    match LatestFor(rules, ip[..n])
    case Some(v) => Some(v)
    case None => if n == 0 then None else LongestUpTo(rules, ip, n - 1)
  }

  function Longest(rules: seq<Rule>, ip: Bits): Option<bool> { LongestUpTo(rules, ip, |ip|) }

  // ---------- The build tree ----------

  datatype Tree = Absent | Node(left: Tree, right: Tree, value: Option<bool>)

  const EMPTY := Node(Absent, Absent, None)

  /** `insert_helper`; a missing child is created on the way. */
  function Insert(t: Tree, path: Bits, allow: bool): Tree
    decreases |path|
  {
    var node := if t.Absent? then EMPTY else t;
    if path == [] then Node(node.left, node.right, Some(allow))
    else if path[0] then Node(node.left, Insert(node.right, path[1..], allow), node.value)
    else Node(Insert(node.left, path[1..], allow), node.right, node.value)
  }

  function InsertAll(rules: seq<Rule>): Tree
    requires forall i :: 0 <= i < |rules| ==> rules[i].length <= |rules[i].bits|
  {
    if rules == [] then EMPTY
    else
      var r := rules[|rules| - 1];
      Insert(InsertAll(rules[..|rules| - 1]), r.bits[..r.length], r.allow)
  }

  function ValueAt(t: Tree, path: Bits): Option<bool> {
    if t.Absent? then None
    else if path == [] then t.value
    else ValueAt(if path[0] then t.right else t.left, path[1..])
  }

  lemma {:induction false} InsertValue(t: Tree, path: Bits, allow: bool, q: Bits)
    ensures ValueAt(Insert(t, path, allow), q) == if q == path then Some(allow) else ValueAt(t, q)
    decreases |path|
  {
    if path != [] && q != [] {
      var node := if t.Absent? then EMPTY else t;
      if q[0] == path[0] {
        InsertValue(if path[0] then node.right else node.left, path[1..], allow, q[1..]);
        assert q == [q[0]] + q[1..] && path == [path[0]] + path[1..];
      }
    }
  }

  /** The tree holds at each node the latest rule for that prefix. */
  lemma {:induction false} TreeMeaning(rules: seq<Rule>, q: Bits)
    requires forall i :: 0 <= i < |rules| ==> rules[i].length <= |rules[i].bits|
    ensures ValueAt(InsertAll(rules), q) == LatestFor(rules, q)
  {
    if rules != [] {
      var r := rules[|rules| - 1];
      TreeMeaning(rules[..|rules| - 1], q);
      InsertValue(InsertAll(rules[..|rules| - 1]), r.bits[..r.length], r.allow, q);
      assert q[..|q|] == q;
    }
  }

  // ---------- Lookup in the tree ----------

  /** Walks down, remembering the last value seen. */
  function Walk(t: Tree, ip: Bits, last: Option<bool>): Option<bool>
    decreases |ip|
  {
    if t.Absent? then last
    else
      var seen := if t.value.Some? then t.value else last;
      if ip == [] then seen else Walk(if ip[0] then t.right else t.left, ip[1..], seen)
  }

  /** Deepest value on the first `n` steps of a path. */
  function Deepest(t: Tree, ip: Bits, n: nat): Option<bool>
    requires n <= |ip|
  {
    match ValueAt(t, ip[..n])
    case Some(v) => Some(v)
    case None => if n == 0 then None else Deepest(t, ip, n - 1)
  }

  lemma {:induction false} DeepestBelow(t: Tree, ip: Bits, n: nat)
    requires t.Node? && ip != [] && 1 <= n <= |ip|
    ensures Deepest(t, ip, n) ==
      var below := Deepest(if ip[0] then t.right else t.left, ip[1..], n - 1); if below.Some? then below else t.value
  {
    assert ip[..n][1..] == ip[1..][..n - 1] && ip[..n][0] == ip[0];
    if n == 1 {
      assert ip[..0] == [] && ip[1..][..0] == [];
    } else {
      DeepestBelow(t, ip, n - 1);
    }
  }

  lemma {:induction false} DeepestAbsent(ip: Bits, n: nat)
    requires n <= |ip|
    ensures Deepest(Absent, ip, n) == None
  {
    if n > 0 {
      DeepestAbsent(ip, n - 1);
    }
  }

  lemma {:induction false} WalkIsDeepest(t: Tree, ip: Bits, last: Option<bool>)
    ensures Walk(t, ip, last) == var d := Deepest(t, ip, |ip|); if d.Some? then d else last
    decreases |ip|
  {
    if t.Absent? {
      DeepestAbsent(ip, |ip|);
    } else if ip == [] {
      assert ip[..0] == [];
    } else {
      WalkIsDeepest(if ip[0] then t.right else t.left, ip[1..], if t.value.Some? then t.value else last);
      DeepestBelow(t, ip, |ip|);
    }
  }

  lemma {:induction false} DeepestIsLongest(rules: seq<Rule>, ip: Bits, n: nat)
    requires n <= |ip| && forall i :: 0 <= i < |rules| ==> rules[i].length <= |rules[i].bits|
    ensures Deepest(InsertAll(rules), ip, n) == LongestUpTo(rules, ip, n)
  {
    TreeMeaning(rules, ip[..n]);
    if n > 0 {
      DeepestIsLongest(rules, ip, n - 1);
    }
  }

  // ---------- The flat array ----------

  /** A child index of 0 means no child; flags hold "has a value" and the value. */
  datatype Flat = Flat(left: nat, right: nat, flags: nat)

  function EncodeFlags(v: Option<bool>): nat {
    match v case None => 0 case Some(b) => if b then 3 else 1
  }

  predicate HasValue(n: Flat) { n.flags % 2 != 0 }

  predicate GetValue(n: Flat) { n.flags / 2 % 2 != 0 }

  function Size(t: Tree): nat { if t.Absent? then 0 else 1 + Size(t.left) + Size(t.right) }

  /** A tree laid out from position `base`: the node, its left subtree, its right subtree. */
  function Layout(t: Tree, base: nat): (nodes: seq<Flat>)
    ensures |nodes| == Size(t)
  {
    if t.Absent? then []
    else
      var right := base + 1 + Size(t.left);
      [Flat(if t.left.Absent? then 0 else base + 1, if t.right.Absent? then 0 else right, EncodeFlags(t.value))]
      + Layout(t.left, base + 1) + Layout(t.right, right)
  }

  lemma LayoutNode(t: Tree, base: nat)
    requires t.Node?
    ensures Layout(Absent, base + 1) == [] && Layout(Absent, base + 1 + Size(t.left)) == []
    ensures Layout(t, base) ==
      [Flat(if t.left.Absent? then 0 else base + 1, if t.right.Absent? then 0 else base + 1 + Size(t.left), EncodeFlags(t.value))]
      + Layout(t.left, base + 1) + Layout(t.right, base + 1 + Size(t.left))
  {
  }

  class FlatTreeBuilder {
    var nodes: seq<Flat>

    constructor ()
      ensures nodes == []
    {
      nodes := [];
    }

    /** Reserves the node, flattens the children behind it, then fills in their positions. */
    method FlattenNode(t: Tree) returns (index: nat)
      requires t.Node?
      modifies this
      ensures index == |old(nodes)| && nodes == old(nodes) + Layout(t, |old(nodes)|)
      decreases t
    {
      hide Layout, Size;
      index := |nodes|;
      ghost var before := nodes;
      LayoutNode(t, index);
      var flags := EncodeFlags(t.value);
      nodes := nodes + [Flat(0, 0, flags)];
      var left := 0;
      if t.left.Node? {
        left := FlattenNode(t.left);
      }
      ghost var ls := Layout(t.left, index + 1);
      assert nodes == before + [Flat(0, 0, flags)] + ls;
      var right := 0;
      if t.right.Node? {
        right := FlattenNode(t.right);
      }
      ghost var rs := Layout(t.right, index + 1 + Size(t.left));
      assert nodes == before + [Flat(0, 0, flags)] + ls + rs;
      nodes := nodes[index := nodes[index].(left := left, right := right)];
      assert nodes == before + ([Flat(left, right, flags)] + ls + rs);
    }
  }

  /** The subtree `t` lies at `i` in the array. */
  ghost predicate LaidOut(nodes: seq<Flat>, i: nat, t: Tree) {
    t.Node? && i + Size(t) <= |nodes| && nodes[i..i + Size(t)] == Layout(t, i)
  }

  lemma Slice(nodes: seq<Flat>, i: nat, n: nat, a: nat, b: nat)
    requires a <= b <= n && i + n <= |nodes|
    ensures nodes[i..i + n][a..b] == nodes[i + a..i + b]
  {
    var x, y := nodes[i..i + n][a..b], nodes[i + a..i + b];
    forall k | 0 <= k < |x| ensures x[k] == y[k] {
      assert x[k] == nodes[i..i + n][a + k];
    }
  }

  lemma LaidOutNode(nodes: seq<Flat>, i: nat, t: Tree)
    requires LaidOut(nodes, i, t)
    ensures t.Node? && i < |nodes| && nodes[i].flags == EncodeFlags(t.value)
    ensures if t.left.Absent? then nodes[i].left == 0 else nodes[i].left > 0 && LaidOut(nodes, nodes[i].left, t.left)
    ensures if t.right.Absent? then nodes[i].right == 0 else nodes[i].right > 0 && LaidOut(nodes, nodes[i].right, t.right)
  {
    hide Layout, EncodeFlags;
    var part := nodes[i..i + Size(t)];
    var l, r := Size(t.left), Size(t.right);
    LayoutNode(t, i);
    assert nodes[i] == part[0];
    var ls, rs := Layout(t.left, i + 1), Layout(t.right, i + 1 + l);
    assert part == [part[0]] + ls + rs;
    assert part[1..1 + l] == ls && part[1 + l..1 + l + r] == rs;
    Slice(nodes, i, Size(t), 1, 1 + l);
    Slice(nodes, i, Size(t), 1 + l, 1 + l + r);
  }

  /** `match_ip`: walks the array from the root. */
  method MatchIp(nodes: seq<Flat>, ip: Bits, ghost t: Tree) returns (last: Option<bool>)
    requires LaidOut(nodes, 0, t)
    ensures last == Walk(t, ip, None)
  {
    hide LaidOut, EncodeFlags;
    var index: nat, bit := 0, 0;
    last := None;
    ghost var sub := t;
    assert ip[0..] == ip;
    LaidOutNode(nodes, 0, t);
    while true
      invariant bit <= |ip| && LaidOut(nodes, index, sub) && sub.Node? && index < |nodes|
      invariant Walk(sub, ip[bit..], last) == Walk(t, ip, None)
      decreases |ip| - bit
    {
      var node := nodes[index];
      LaidOutNode(nodes, index, sub);
      FlagsDecode(sub.value);
      if HasValue(node) {
        last := Some(GetValue(node));
      }
      if bit >= |ip| {
        return;
      }
      assert ip[bit..][1..] == ip[bit + 1..];
      var next := if ip[bit] then node.right else node.left;
      sub := if ip[bit] then sub.right else sub.left;
      if next == 0 {
        return;
      }
      LaidOutNode(nodes, next, sub);
      index, bit := next, bit + 1;
    }
  }

  lemma FlagsDecode(v: Option<bool>)
    ensures var n := Flat(0, 0, EncodeFlags(v)); HasValue(n) == v.Some? && (v.Some? ==> GetValue(n) == v.value)
  {
  }

  // ---------- From rules to answers ----------

  predicate WellFormed(rules: seq<Rule>) { forall i :: 0 <= i < |rules| ==> rules[i].length <= |rules[i].bits| }

  class RadixBuilder {
    var root: Tree
    var ruleCount: nat

    constructor ()
      ensures root == InsertAll([]) && ruleCount == 0
    {
      root, ruleCount := EMPTY, 0;
    }

    method InsertRule(r: Rule, ghost before: seq<Rule>)
      requires r.length <= |r.bits| && WellFormed(before) && root == InsertAll(before) && ruleCount == |before|
      modifies this
      ensures WellFormed(before + [r]) && root == InsertAll(before + [r]) && ruleCount == |before + [r]|
    {
      assert (before + [r])[..|before|] == before;
      root := Insert(root, r.bits[..r.length], r.allow);
      ruleCount := ruleCount + 1;
    }

    /** Fails only for no rules at all, or for more nodes than a 32-bit index can name. */
    method Freeze() returns (nodes: Option<seq<Flat>>)
      requires root.Node?
      ensures nodes.Some? <==> ruleCount > 0 && Size(root) <= U32_MAX
      ensures nodes.Some? ==> LaidOut(nodes.value, 0, root)
    {
      if ruleCount == 0 || Size(root) > U32_MAX {
        return None;
      }
      var flat := new FlatTreeBuilder();
      var index := flat.FlattenNode(root);
      assert flat.nodes[0..Size(root)] == Layout(root, 0);
      nodes := Some(flat.nodes);
    }
  }

  lemma RootIsNode(rules: seq<Rule>)
    requires WellFormed(rules)
    ensures InsertAll(rules).Node?
  {
  }

  /** Inserting, freezing and walking answer with the latest rule of the longest matching prefix. */
  method BuildAndMatch(rules: seq<Rule>, ip: Bits) returns (answer: Option<Option<bool>>)
    requires WellFormed(rules)
    ensures answer.Some? <==> rules != [] && Size(InsertAll(rules)) <= U32_MAX
    ensures answer.Some? ==> answer.value == Longest(rules, ip)
  {
    var builder := new RadixBuilder();
    for i := 0 to |rules|
      invariant builder.root == InsertAll(rules[..i]) && builder.ruleCount == i
    {
      assert rules[..i + 1] == rules[..i] + [rules[i]];
      builder.InsertRule(rules[i], rules[..i]);
    }
    assert rules[..|rules|] == rules;
    RootIsNode(rules);
    var nodes := builder.Freeze();
    if nodes.None? {
      return None;
    }
    var found := MatchIp(nodes.value, ip, builder.root);
    WalkIsDeepest(builder.root, ip, None);
    DeepestIsLongest(rules, ip, |ip|);
    answer := Some(found);
  }

  /** Rule `i` covers `ip`, no covering rule is longer, and none as long comes later. */
  ghost predicate Decides(rules: seq<Rule>, ip: Bits, i: nat) {
    i < |rules| && Covers(rules[i], ip) &&
    (forall j :: 0 <= j < |rules| && Covers(rules[j], ip) ==> rules[j].length <= rules[i].length) &&
    (forall j :: i < j < |rules| && Covers(rules[j], ip) ==> rules[j].length < rules[i].length)
  }

  lemma {:induction false} LatestForIs(rules: seq<Rule>, prefix: Bits) returns (i: nat)
    ensures LatestFor(rules, prefix).None? ==> i == |rules|
    ensures LatestFor(rules, prefix).Some? ==>
      i < |rules| && rules[i].length == |prefix| && Covers(rules[i], prefix) && LatestFor(rules, prefix) == Some(rules[i].allow)
    ensures forall j :: 0 <= j < |rules| && rules[j].length == |prefix| && Covers(rules[j], prefix) ==> j <= i < |rules|
  {
    hide Covers;
    if rules == [] {
      i := 0;
    } else {
      var n := |rules| - 1;
      if rules[n].length == |prefix| && Covers(rules[n], prefix) {
        i := n;
      } else {
        i := LatestForIs(rules[..n], prefix);
        if i == n {
          i := n + 1;
        }
      }
    }
  }

  lemma CoversPrefix(r: Rule, ip: Bits, n: nat)
    requires n <= |ip| && r.length == n
    ensures Covers(r, ip[..n]) <==> Covers(r, ip)
  {
    assert ip[..n][..n] == ip[..n];
  }

  /** The answer is that of the deciding rule, and there is none exactly when no rule covers the address. */
  lemma LongestDecides(rules: seq<Rule>, ip: Bits)
    ensures Longest(rules, ip).None? <==> forall i :: 0 <= i < |rules| ==> !Covers(rules[i], ip)
    ensures Longest(rules, ip).Some? ==> exists i: nat :: Decides(rules, ip, i) && Longest(rules, ip) == Some(rules[i].allow)
  {
    hide Covers, LongestUpTo, Decides;
    var i := LongestUpToIs(rules, ip, |ip|);
    forall j | 0 <= j < |rules| && Covers(rules[j], ip) ensures rules[j].length <= |ip| {
      CoversLength(rules[j], ip);
    }
    if Longest(rules, ip).Some? {
      DecidesWhen(rules, ip, i);
    }
  }

  lemma CoversLength(r: Rule, ip: Bits)
    requires Covers(r, ip)
    ensures r.length <= |ip|
  {
  }

  lemma DecidesWhen(rules: seq<Rule>, ip: Bits, i: nat)
    requires i < |rules| && Covers(rules[i], ip)
    requires forall j :: 0 <= j < |rules| && Covers(rules[j], ip) ==>
      rules[j].length <= rules[i].length && (rules[j].length == rules[i].length ==> j <= i)
    ensures Decides(rules, ip, i)
  {
  }

  lemma {:induction false} LongestUpToIs(rules: seq<Rule>, ip: Bits, n: nat) returns (i: nat)
    requires n <= |ip|
    ensures LongestUpTo(rules, ip, n).Some? ==>
      i < |rules| && Covers(rules[i], ip) && rules[i].length <= n && LongestUpTo(rules, ip, n) == Some(rules[i].allow) &&
      forall j :: 0 <= j < |rules| && Covers(rules[j], ip) && rules[j].length <= n ==>
        rules[j].length <= rules[i].length && (rules[j].length == rules[i].length ==> j <= i)
    ensures LongestUpTo(rules, ip, n).None? ==> forall j :: 0 <= j < |rules| && rules[j].length <= n ==> !Covers(rules[j], ip)
  {
    hide Covers, LatestFor;
    i := LatestForIs(rules, ip[..n]);
    forall j | 0 <= j < |rules| && rules[j].length == n ensures Covers(rules[j], ip[..n]) <==> Covers(rules[j], ip) {
      CoversPrefix(rules[j], ip, n);
    }
    if LatestFor(rules, ip[..n]).None? && n > 0 {
      i := LongestUpToIs(rules, ip, n - 1);
    }
  }
}

/** Client address from a forwarding header, trusting only proxies in configured address ranges. */
module RealIp {
  import opened Common
  import opened Text
  import opened IpRadix

  datatype Ip = V4(bits: Bits) | V6(bits: Bits)

  datatype Cidr = CidrV4(prefix: Bits) | CidrV6(prefix: Bits)

  predicate InRange(c: Cidr, ip: Ip) { c.CidrV4? == ip.V4? && c.prefix <= ip.bits }

  /** The rules of one address family, all of them "allow". */
  function RulesOf(cidrs: seq<Cidr>, v4: bool): (rules: seq<Rule>)
    ensures WellFormed(rules)
  {
    if cidrs == [] then []
    else
      var c := cidrs[|cidrs| - 1];
      var rest := RulesOf(cidrs[..|cidrs| - 1], v4);
      if c.CidrV4? == v4 then rest + [Rule(c.prefix, |c.prefix|, true)] else rest
  }

  /** `is_trusted_proxy`: the matcher of the address's family says "allow". */
  function Trusted(cidrs: seq<Cidr>, ip: Ip): bool { Longest(RulesOf(cidrs, ip.V4?), ip.bits) == Some(true) }

  lemma {:induction false} RulesOfMembers(cidrs: seq<Cidr>, v4: bool, ip: Bits)
    ensures forall i :: 0 <= i < |RulesOf(cidrs, v4)| ==> RulesOf(cidrs, v4)[i].allow
    ensures (exists i :: 0 <= i < |RulesOf(cidrs, v4)| && Covers(RulesOf(cidrs, v4)[i], ip)) <==>
      (exists c :: c in cidrs && c.CidrV4? == v4 && c.prefix <= ip)
  {
    if cidrs != [] {
      var n := |cidrs| - 1;
      var c, rest := cidrs[n], RulesOf(cidrs[..n], v4);
      RulesOfMembers(cidrs[..n], v4, ip);
      assert cidrs == cidrs[..n] + [c];
      var rules := RulesOf(cidrs, v4);
      if c.CidrV4? == v4 {
        assert c.prefix[..|c.prefix|] == c.prefix;
        assert Covers(rules[|rest|], ip) <==> c.prefix <= ip;
        assert forall i :: 0 <= i < |rest| ==> rules[i] == rest[i];
      }
    }
  }

  /** Exactly the addresses in one of the ranges are trusted. */
  lemma TrustedIff(cidrs: seq<Cidr>, ip: Ip)
    ensures Trusted(cidrs, ip) <==> exists c :: c in cidrs && InRange(c, ip)
  {
    hide Longest, RulesOf, Covers;
    var rules := RulesOf(cidrs, ip.V4?);
    RulesOfMembers(cidrs, ip.V4?, ip.bits);
    LongestDecides(rules, ip.bits);
    if Longest(rules, ip.bits).Some? {
      var i: nat :| Decides(rules, ip.bits, i) && Longest(rules, ip.bits) == Some(rules[i].allow);
      assert rules[i].allow;
    }
  }

  // ---------- Extraction ----------

  function Entries(header: string): seq<string> { TrimAll(SplitOn(header, ',')) }

  function TrimAll(parts: seq<string>): (es: seq<string>)
    ensures |es| == |parts| && forall i :: 0 <= i < |parts| ==> es[i] == Trim(parts[i])
  {
    seq(|parts|, i requires 0 <= i < |parts| => Trim(parts[i]))
  }

  /** An entry that is an address of somebody we do not trust. */
  predicate Foreign(parse: string -> Option<Ip>, cidrs: seq<Cidr>, entry: string) {
    parse(entry).Some? && !Trusted(cidrs, parse(entry).value)
  }

  /** The rightmost foreign entry, if any. */
  function Chosen(parse: string -> Option<Ip>, cidrs: seq<Cidr>, es: seq<string>): (r: Option<nat>)
    ensures r.Some? ==> r.value < |es| && Foreign(parse, cidrs, es[r.value])
    ensures forall j :: (if r.Some? then r.value + 1 else 0) <= j < |es| ==> !Foreign(parse, cidrs, es[j])
  {
    if es == [] then None
    else if Foreign(parse, cidrs, es[|es| - 1]) then Some(|es| - 1)
    else Chosen(parse, cidrs, es[..|es| - 1])
  }

  function RealClient(parse: string -> Option<Ip>, cidrs: seq<Cidr>, client: Ip, header: Option<string>): Ip {
    if !Trusted(cidrs, client) || header.None? then client
    else
      var es := Entries(header.value);
      match Chosen(parse, cidrs, es)
      case Some(i) => parse(es[i]).value
      case None => client
  }

  /** `extract_real_ip`: without ranges there is no matcher and nothing is trusted. */
  method ExtractRealIp(parse: string -> Option<Ip>, cidrs: seq<Cidr>, client: Ip, header: Option<string>) returns (ip: Ip)
    ensures ip == RealClient(parse, cidrs, client, header)
  {
    hide Trusted, Entries;
    if !Trusted(cidrs, client) {
      return client;
    }
    if header.Some? {
      var es := Entries(header.value);
      var i: nat := |es|;
      while i > 0
        invariant i <= |es| && forall j :: i <= j < |es| ==> !Foreign(parse, cidrs, es[j])
      {
        i := i - 1;
        var parsed := parse(es[i]);
        if parsed.Some? {
          if !Trusted(cidrs, parsed.value) {
            return parsed.value;
          }
        }
      }
    }
    return client;
  }

  lemma {:induction false} ChosenAppend(parse: string -> Option<Ip>, cidrs: seq<Cidr>, a: seq<string>, b: seq<string>)
    ensures Chosen(parse, cidrs, b).Some? ==> Chosen(parse, cidrs, a + b) == Some(|a| + Chosen(parse, cidrs, b).value)
  {
    hide Foreign;
    if b != [] && !Foreign(parse, cidrs, b[|b| - 1]) {
      assert (a + b)[..|a + b| - 1] == a + b[..|b| - 1];
      ChosenAppend(parse, cidrs, a, b[..|b| - 1]);
    }
  }

  lemma EntriesJoined(text: string, header: string)
    ensures Entries(text + "," + header) == Entries(text) + Entries(header)
  {
    hide SplitOn, Trim;
    assert text + "," + header == text + [','] + header;
    SplitOnJoined(text, ',', header);
  }

  /** Once some entry is foreign, nothing written to the left of the header changes the answer. */
  lemma PrependingIsIdle(parse: string -> Option<Ip>, cidrs: seq<Cidr>, client: Ip, text: string, header: string)
    requires Chosen(parse, cidrs, Entries(header)).Some?
    ensures RealClient(parse, cidrs, client, Some(text + "," + header)) == RealClient(parse, cidrs, client, Some(header))
  {
    hide Trusted, Chosen, Entries, Foreign;
    EntriesJoined(text, header);
    ChosenAppend(parse, cidrs, Entries(text), Entries(header));
  }

  /** Trusting more ranges moves the chosen entry left, or falls back to the client. */
  lemma TrustingMoreMovesLeft(parse: string -> Option<Ip>, cidrs: seq<Cidr>, more: seq<Cidr>, es: seq<string>)
    requires forall c :: c in cidrs ==> c in more
    ensures var a, b := Chosen(parse, cidrs, es), Chosen(parse, more, es); b.Some? ==> a.Some? && b.value <= a.value
  {
    hide Trusted;
    forall ip ensures Trusted(cidrs, ip) ==> Trusted(more, ip) {
      TrustedIff(cidrs, ip);
      TrustedIff(more, ip);
    }
    var a, b := Chosen(parse, cidrs, es), Chosen(parse, more, es);
    if b.Some? {
      assert Foreign(parse, cidrs, es[b.value]);
    }
  }
}
