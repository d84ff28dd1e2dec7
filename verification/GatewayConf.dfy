// `GatewayBaseConf`: a list of gateways with an index of their keys.

module GatewayConf {
  import opened Common
  import opened GatewayKeys

  function KeysOf(gs: seq<Gateway>): seq<string> { seq(|gs|, i requires 0 <= i < |gs| => KeyName(gs[i])) }

  predicate Distinct(gs: seq<Gateway>) { forall i, j :: 0 <= i < j < |gs| ==> KeyName(gs[i]) != KeyName(gs[j]) }

  function KeyFromParts(namespace: Option<string>, name: Option<string>): string {
    var n := if name.Some? then name.value else "";
    if namespace.Some? then namespace.value + "/" + n else n
  }

  /** Position of the first gateway with that key, or |gs|. */
  function IndexOf(gs: seq<Gateway>, key: string): (i: nat)
    ensures i <= |gs| && (i < |gs| ==> KeyName(gs[i]) == key) && forall j :: 0 <= j < i ==> KeyName(gs[j]) != key
  {
    if gs == [] then 0
    else
      var i := IndexOf(gs[..|gs| - 1], key);
      if i < |gs| - 1 then i else if KeyName(gs[|gs| - 1]) == key then |gs| - 1 else |gs|
  }

  /** The first gateway with that key is replaced in place; a new key goes to the end. */
  function Inserted(gs: seq<Gateway>, g: Gateway): seq<Gateway> {
    var i := IndexOf(gs, KeyName(g));
    if i < |gs| then gs[i := g] else gs + [g]
  }

  function Without(gs: seq<Gateway>, key: string): seq<Gateway> {
    if gs == [] then []
    else
      var rest := Without(gs[..|gs| - 1], key);
      if KeyName(gs[|gs| - 1]) == key then rest else rest + [gs[|gs| - 1]]
  }

  // ---------- An ordered map ----------

  /** The same list seen as a map that remembers the order its keys came in. */
  datatype Ordered = Ordered(order: seq<string>, entries: map<string, Gateway>)

  function AsOrdered(gs: seq<Gateway>): Ordered {
    Ordered(KeysOf(gs), map k | k in KeysOf(gs) :: Lookup(gs, k))
  }

  function Lookup(gs: seq<Gateway>, key: string): Gateway
    requires key in KeysOf(gs)
  {
    InKeys(gs, key);
    gs[IndexOf(gs, key)]
  }

  lemma InKeys(gs: seq<Gateway>, key: string)
    ensures key in KeysOf(gs) <==> IndexOf(gs, key) < |gs|
  {
    var i := IndexOf(gs, key);
    if i < |gs| {
      assert KeysOf(gs)[i] == key;
    } else {
      assert forall j :: 0 <= j < |gs| ==> KeysOf(gs)[j] != key;
    }
  }

  function Put(m: Ordered, key: string, g: Gateway): Ordered {
    Ordered(if key in m.order then m.order else m.order + [key], m.entries[key := g])
  }

  function Drop(m: Ordered, key: string): Ordered { Ordered(Filtered(m.order, key), m.entries - {key}) }

  function Filtered(keys: seq<string>, key: string): seq<string> {
    if keys == [] then []
    else
      var rest := Filtered(keys[..|keys| - 1], key);
      if keys[|keys| - 1] == key then rest else rest + [keys[|keys| - 1]]
  }

  class GatewayBaseConf {
    var gateways: seq<Gateway>
    var index: set<string>

    /** The index holds exactly the keys of the list. */
    ghost predicate Agreed()
      reads this
    {
      forall k :: k in index <==> k in KeysOf(gateways)
    }

    constructor (gs: seq<Gateway>)
      ensures gateways == gs && Agreed()
    {
      gateways, index := gs, {};
      new;
      RebuildGatewayMap();
    }

    /** From any state, for example one just deserialized without its index. */
    method RebuildGatewayMap()
      modifies this`index
      ensures Agreed()
    {
      index := {};
      for i := 0 to |gateways|
        invariant forall k :: k in index <==> k in KeysOf(gateways[..i])
      {
        assert gateways[..i + 1] == gateways[..i] + [gateways[i]];
        KeysAppend(gateways[..i], gateways[i]);
        index := index + {KeyName(gateways[i])};
      }
      assert gateways[..|gateways|] == gateways;
    }

    method AddGateway(g: Gateway)
      requires Agreed()
      modifies this
      ensures Agreed()
      ensures gateways == Inserted(old(gateways), g)
    {
      var key := KeyName(g);
      InKeys(gateways, key);
      if key !in index {
        index := index + {key};
        KeysAppend(gateways, g);
        gateways := gateways + [g];
      } else {
        var i := FindKey(key);
        KeysReplace(gateways, i, g);
        gateways := gateways[i := g];
      }
    }

    /** `iter_mut().find`, on a key that is listed. */
    method FindKey(key: string) returns (i: nat)
      requires key in KeysOf(gateways)
      ensures i == IndexOf(gateways, key) < |gateways|
    {
      InKeys(gateways, key);
      i := 0;
      while KeyName(gateways[i]) != key
        invariant i <= IndexOf(gateways, key) < |gateways|
        decreases |gateways| - i
      {
        i := i + 1;
      }
    }

    method RemoveGateway(namespace: Option<string>, name: Option<string>)
      requires Agreed()
      modifies this
      ensures Agreed() && gateways == Without(old(gateways), KeyFromParts(namespace, name))
    {
      var key := KeyFromParts(namespace, name);
      index := index - {key};
      var kept := [];
      for i := 0 to |gateways|
        invariant kept == Without(gateways[..i], key)
      {
        assert gateways[..i + 1][..i] == gateways[..i];
        if KeyName(gateways[i]) != key {
          kept := kept + [gateways[i]];
        }
      }
      assert gateways[..|gateways|] == gateways;
      forall k { WithoutKeys(gateways, key, k); }
      gateways := kept;
    }

    method HasGateway(namespace: Option<string>, name: Option<string>) returns (found: bool)
      requires Agreed()
      ensures found <==> KeyFromParts(namespace, name) in KeysOf(gateways)
    {
      found := KeyFromParts(namespace, name) in index;
    }
  }

  lemma KeysAppend(gs: seq<Gateway>, g: Gateway)
    ensures KeysOf(gs + [g]) == KeysOf(gs) + [KeyName(g)]
  {
  }

  lemma KeysReplace(gs: seq<Gateway>, i: nat, g: Gateway)
    requires i < |gs| && KeyName(gs[i]) == KeyName(g)
    ensures KeysOf(gs[i := g]) == KeysOf(gs)
  {
  }

  lemma {:induction false} KeysWithout(gs: seq<Gateway>, key: string)
    ensures KeysOf(Without(gs, key)) == Filtered(KeysOf(gs), key)
  {
    if gs != [] {
      var n := |gs| - 1;
      KeysWithout(gs[..n], key);
      assert KeysOf(gs)[..n] == KeysOf(gs[..n]);
      KeysAppend(Without(gs[..n], key), gs[n]);
    }
  }

  lemma {:induction false} FilteredMembers(keys: seq<string>, key: string, k: string)
    ensures k in Filtered(keys, key) <==> k in keys && k != key
  {
    if keys != [] {
      var n := |keys| - 1;
      FilteredMembers(keys[..n], key, k);
      assert keys == keys[..n] + [keys[n]];
    }
  }

  lemma WithoutKeys(gs: seq<Gateway>, key: string, k: string)
    ensures k in KeysOf(Without(gs, key)) <==> k in KeysOf(gs) && k != key
  {
    KeysWithout(gs, key);
    FilteredMembers(KeysOf(gs), key, k);
  }

  // ---------- Refinement ----------

  lemma IndexOfIs(gs: seq<Gateway>, key: string, i: nat)
    requires i <= |gs| && (i < |gs| ==> KeyName(gs[i]) == key) && forall j :: 0 <= j < i ==> KeyName(gs[j]) != key
    ensures IndexOf(gs, key) == i
  {
    hide IndexOf;
  }

  lemma InsertedKeys(gs: seq<Gateway>, g: Gateway)
    ensures KeysOf(Inserted(gs, g)) == if KeyName(g) in KeysOf(gs) then KeysOf(gs) else KeysOf(gs) + [KeyName(g)]
  {
    hide IndexOf;
    var i := IndexOf(gs, KeyName(g));
    InKeys(gs, KeyName(g));
    if i < |gs| {
      KeysReplace(gs, i, g);
    } else {
      KeysAppend(gs, g);
    }
  }

  lemma InsertedLookup(gs: seq<Gateway>, g: Gateway, k: string)
    requires k == KeyName(g) || k in KeysOf(gs)
    ensures k in KeysOf(Inserted(gs, g))
    ensures Lookup(Inserted(gs, g), k) == if k == KeyName(g) then g else Lookup(gs, k)
  {
    hide IndexOf, KeysOf;
    var gs' := Inserted(gs, g);
    InKeys(gs, k);
    IndexOfIs(gs', k, IndexOf(gs, k));
    InKeys(gs', k);
  }

  /** An ordered map is known by its order and its entries. */
  lemma OrderedBy(gs: seq<Gateway>, m: Ordered)
    requires KeysOf(gs) == m.order && forall k :: k in m.entries <==> k in m.order
    requires forall k :: k in m.entries ==> k in KeysOf(gs) && Lookup(gs, k) == m.entries[k]
    ensures AsOrdered(gs) == m
  {
    hide KeysOf, Lookup;
  }

  lemma InsertedDistinct(gs: seq<Gateway>, g: Gateway)
    requires Distinct(gs)
    ensures Distinct(Inserted(gs, g))
  {
    hide IndexOf;
  }

  /** Adding a gateway puts it into the ordered map: an update keeps its position, a new key comes last. */
  lemma AddRefines(gs: seq<Gateway>, g: Gateway)
    ensures AsOrdered(Inserted(gs, g)) == Put(AsOrdered(gs), KeyName(g), g)
    ensures Distinct(gs) ==> Distinct(Inserted(gs, g))
  {
    hide KeysOf, Lookup, Inserted, Distinct, KeyName;
    InsertedKeys(gs, g);
    var m := Put(AsOrdered(gs), KeyName(g), g);
    forall k | k in m.entries ensures k in KeysOf(Inserted(gs, g)) && Lookup(Inserted(gs, g), k) == m.entries[k] {
      InsertedLookup(gs, g, k);
    }
    OrderedBy(Inserted(gs, g), m);
    if Distinct(gs) {
      InsertedDistinct(gs, g);
    }
  }

  lemma {:induction false} WithoutLookup(gs: seq<Gateway>, key: string, k: string)
    requires k != key && k in KeysOf(gs)
    ensures k in KeysOf(Without(gs, key)) && Lookup(Without(gs, key), k) == Lookup(gs, k)
  {
    WithoutKeys(gs, key, k);
    InKeys(gs, k);
    var n := |gs| - 1;
    var i := IndexOf(gs, k);
    if i < n {
      IndexOfIs(gs[..n], k, i);
      InKeys(gs[..n], k);
      WithoutLookup(gs[..n], key, k);
      var rest := Without(gs[..n], key);
      InKeys(rest, k);
      IndexOfIs(Without(gs, key), k, IndexOf(rest, k));
    } else {
      IndexOfIs(gs[..n], k, n);
      InKeys(gs[..n], k);
      var rest := Without(gs[..n], key);
      WithoutKeys(gs[..n], key, k);
      InKeys(rest, k);
      IndexOfIs(Without(gs, key), k, |rest|);
    }
  }

  lemma {:induction false} WithoutDistinct(gs: seq<Gateway>, key: string)
    requires Distinct(gs)
    ensures Distinct(Without(gs, key))
  {
    if gs != [] {
      var n := |gs| - 1;
      WithoutDistinct(gs[..n], key);
      var rest, k := Without(gs[..n], key), KeyName(gs[n]);
      IndexOfIs(gs[..n], k, n);
      InKeys(gs[..n], k);
      WithoutKeys(gs[..n], key, k);
      InKeys(rest, k);
    }
  }

  /** Removing deletes exactly that key and keeps the order of the others. */
  lemma RemoveRefines(gs: seq<Gateway>, key: string)
    ensures AsOrdered(Without(gs, key)) == Drop(AsOrdered(gs), key)
    ensures Distinct(gs) ==> Distinct(Without(gs, key))
  {
    hide KeysOf, Lookup, Without, Distinct, Filtered;
    KeysWithout(gs, key);
    var m := Drop(AsOrdered(gs), key);
    forall k ensures k in m.entries <==> k in m.order {
      FilteredMembers(KeysOf(gs), key, k);
    }
    forall k | k in m.entries ensures k in KeysOf(Without(gs, key)) && Lookup(Without(gs, key), k) == m.entries[k] {
      WithoutLookup(gs, key, k);
    }
    OrderedBy(Without(gs, key), m);
    if Distinct(gs) {
      WithoutDistinct(gs, key);
    }
  }

  datatype Op = AddOp(gateway: Gateway) | RemoveOp(key: string)

  function RunList(gs: seq<Gateway>, ops: seq<Op>): seq<Gateway> {
    if ops == [] then gs
    else
      var before := RunList(gs, ops[..|ops| - 1]);
      match ops[|ops| - 1] case AddOp(g) => Inserted(before, g) case RemoveOp(k) => Without(before, k)
  }

  function RunOrdered(m: Ordered, ops: seq<Op>): Ordered {
    if ops == [] then m
    else
      var before := RunOrdered(m, ops[..|ops| - 1]);
      match ops[|ops| - 1] case AddOp(g) => Put(before, KeyName(g), g) case RemoveOp(k) => Drop(before, k)
  }

  /** Every run of additions and removals is one of the ordered map, and distinct keys stay distinct. */
  lemma {:induction false} RunRefines(gs: seq<Gateway>, ops: seq<Op>)
    ensures AsOrdered(RunList(gs, ops)) == RunOrdered(AsOrdered(gs), ops)
    ensures Distinct(gs) ==> Distinct(RunList(gs, ops))
  {
    hide AsOrdered, Put, Drop, Inserted, Without, Distinct;
    if ops != [] {
      RunRefines(gs, ops[..|ops| - 1]);
      var before := RunList(gs, ops[..|ops| - 1]);
      match ops[|ops| - 1]
      case AddOp(g) => AddRefines(before, g);
      case RemoveOp(k) => RemoveRefines(before, k);
    }
  }
}
