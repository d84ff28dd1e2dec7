// The controller's event store: current resources, a version, and a ring of the latest events
// from which watchers catch up.

module EventLog {
  import opened Common

  datatype Kind = Add | Update | Delete

  datatype Event = Event(kind: Kind, key: string, resource: string, version: nat)

  type Data = map<string, string>

  function Applied(data: Data, e: Event): Data {
    if e.kind.Delete? then data - {e.key} else data[e.key := e.resource]
  }

  function AppliedAll(data: Data, es: seq<Event>): Data {
    if es == [] then data else Applied(AppliedAll(data, es[..|es| - 1]), es[|es| - 1])
  }

  datatype WatchError = VersionUnexpected | TooOldVersion

  /** Events newer than `from`, in order. */
  function Newer(es: seq<Event>, from: nat): seq<Event> {
    if es == [] then []
    else
      var rest := Newer(es[..|es| - 1], from);
      if es[|es| - 1].version > from then rest + [es[|es| - 1]] else rest
  }

  ghost predicate Sorted(es: seq<Event>) { forall i, j :: 0 <= i < j < |es| ==> es[i].version <= es[j].version }

  /** First event still in a ring of this capacity, and the version of the last one that is not. */
  function Start(log: seq<Event>, capacity: nat): nat { if |log| <= capacity then 0 else |log| - capacity }

  function Expire(log: seq<Event>, capacity: nat): nat {
    if Start(log, capacity) == 0 then 0 else log[Start(log, capacity) - 1].version
  }

  lemma SortedAppend(log: seq<Event>, e: Event)
    requires Sorted(log) && forall i :: 0 <= i < |log| ==> log[i].version <= e.version
    ensures Sorted(log + [e])
  {
  }

  // ---------- Modular positions ----------

  /** `i % c`, computed by stepping back. */
  function Slot(i: nat, c: nat): nat
    requires c > 0
  {
    if i < c then i else Slot(i - c, c)
  }

  lemma {:induction false} SlotIsMod(i: nat, c: nat)
    requires c > 0
    ensures Slot(i, c) == i % c
  {
    if i >= c {
      SlotIsMod(i - c, c);
      StepBack(i, c);
    }
  }

  lemma StepBack(i: nat, c: nat)
    requires 0 < c <= i
    ensures (i - c) % c == i % c
  {
    var q, r := (i - c) / c, (i - c) % c;
    assert i - c == q * c + r;
    assert i == (q + 1) * c + r;
    Remainder(i, c, q + 1, r);
  }

  lemma Remainder(n: nat, c: nat, q: nat, r: nat)
    requires c > 0 && r < c && n == q * c + r
    ensures n % c == r
  {
    var d := n / c - q;
    assert n == (n / c) * c + n % c;
    assert d * c == (n / c) * c - q * c;
    if d >= 1 {
      Multiple(d, c);
    } else if d <= -1 {
      Multiple(-d, c);
    }
  }

  lemma {:induction false} Multiple(d: int, c: nat)
    requires d >= 1
    ensures d * c >= c
  {
    if d > 1 {
      Multiple(d - 1, c);
      assert d * c == (d - 1) * c + c;
    }
  }

  lemma SameSlot(i: nat, capacity: nat)
    requires capacity > 0
    ensures (i + capacity) % capacity == i % capacity
  {
    SlotIsMod(i, capacity);
    SlotIsMod(i + capacity, capacity);
  }

  lemma {:induction false} OtherSlot(i: nat, j: nat, capacity: nat)
    requires capacity > 0 && i < j < i + capacity
    ensures i % capacity != j % capacity
  {
    SlotsDiffer(i, j, capacity);
    SlotIsMod(i, capacity);
    SlotIsMod(j, capacity);
  }

  lemma {:induction false} SlotsDiffer(i: nat, j: nat, c: nat)
    requires c > 0 && i < j < i + c
    ensures Slot(i, c) != Slot(j, c)
  {
    if i >= c {
      SlotsDiffer(i - c, j - c, c);
    } else if j >= c {
      assert Slot(j, c) == j - c;
    }
  }

  class EventStore {
    const capacity: nat
    var cache: array<Option<Event>>
    var startIndex: nat
    var endIndex: nat
    var syncVersion: nat
    var expireSyncVersion: nat
    var data: Data
    /** All events accepted since the store was last cleared. */
    ghost var log: seq<Event>

    ghost predicate Valid()
      reads this, cache
    {
      capacity > 0 && cache.Length == capacity && endIndex == |log| &&
      startIndex == Start(log, capacity) && expireSyncVersion == Expire(log, capacity) &&
      (forall i :: startIndex <= i < endIndex ==> cache[i % capacity] == Some(log[i])) &&
      Sorted(log) && (forall i :: 0 <= i < |log| ==> log[i].version <= syncVersion)
    }

    constructor (requested: nat)
      ensures Valid() && fresh(cache) && log == [] && data == map[] && syncVersion == 0
      ensures capacity == if requested == 0 then 200 else if requested < 10 then 10 else requested
    {
      var c := if requested == 0 then 200 else if requested < 10 then 10 else requested;
      capacity := c;
      cache := new Option<Event>[c](_ => None);
      startIndex, endIndex, syncVersion, expireSyncVersion := 0, 0, 0, 0;
      data, log := map[], [];
    }

    /** Initial resources are not logged. */
    method InitAdd(key: string, resource: string, version: nat)
      requires Valid()
      modifies this
      ensures Valid() && cache == old(cache) && log == old(log) && data == old(data)[key := resource]
      ensures syncVersion == if version > old(syncVersion) then version else old(syncVersion)
    {
      data := data[key := resource];
      if version > syncVersion {
        syncVersion := version;
      }
    }

    method Clear()
      requires Valid()
      modifies this
      ensures Valid() && fresh(cache) && log == [] && data == map[] && syncVersion == 0
    {
      cache := new Option<Event>[capacity](_ => None);
      startIndex, endIndex, syncVersion, expireSyncVersion := 0, 0, 0, 0;
      data, log := map[], [];
    }

    /** `mut_update`: a full ring drops its oldest event and remembers that event's version. */
    method MutUpdate(e: Event)
      requires Valid() && e.version == syncVersion
      modifies this, cache
      ensures Valid() && cache == old(cache) && log == old(log) + [e] && data == old(data) && syncVersion == old(syncVersion)
    {
      hide Sorted;
      SortedAppend(log, e);
      var index := endIndex % capacity;
      if endIndex - startIndex >= capacity {
        SameSlot(startIndex, capacity);
        var last := cache[index];
        if last.Some? {
          expireSyncVersion := last.value.version;
        }
        startIndex := startIndex + 1;
      }
      forall i | startIndex <= i < endIndex ensures i % capacity != index {
        OtherSlot(i, endIndex, capacity);
      }
      cache[index] := Some(e);
      endIndex := endIndex + 1;
      log := log + [e];
    }

    /** An event older than the store's version is dropped, whatever resource it is about. */
    method ApplyEvent(e: Event)
      requires Valid()
      modifies this, cache
      ensures Valid() && cache == old(cache)
      ensures e.version < old(syncVersion) ==> log == old(log) && data == old(data) && syncVersion == old(syncVersion)
      ensures e.version >= old(syncVersion) ==>
        log == old(log) + [e] && data == Applied(old(data), e) && syncVersion == e.version
    {
      if e.version < syncVersion {
        return;
      }
      data := if e.kind.Delete? then data - {e.key} else data[e.key := e.resource];
      if e.version > syncVersion {
        syncVersion := e.version;
      }
      MutUpdate(e);
    }

    /** `get_events_from_sync_version`. */
    method GetEvents(from: nat) returns (r: Result<Option<seq<Event>>, WatchError>)
      requires Valid()
      ensures r == Answer(log, capacity, syncVersion, from)
    {
      if from > syncVersion {
        return Err(VersionUnexpected);
      } else if from == syncVersion {
        return Ok(None);
      }
      if from != 0 && from < expireSyncVersion {
        return Err(TooOldVersion);
      }
      if endIndex == startIndex {
        return Ok(None);
      }
      var scan := ScanBack(from);
      var events := CollectFrom(scan, from);
      return Ok(Some(events));
    }

    /** The forward loop over the ring. */
    method CollectFrom(scan: nat, from: nat) returns (events: seq<Event>)
      requires Valid() && startIndex <= scan <= endIndex && forall i :: startIndex <= i < scan ==> log[i].version <= from
      ensures events == Newer(log[startIndex..], from)
    {
      hide Newer;
      events := [];
      var i := scan;
      NewerNone(log[startIndex..scan], from);
      while i < endIndex
        invariant scan <= i <= endIndex && events == Newer(log[startIndex..i], from)
      {
        var e := cache[i % capacity];
        NewerMore(log, startIndex, i, from);
        if e.Some? && e.value.version > from {
          events := events + [e.value];
        }
        i := i + 1;
      }
      assert log[startIndex..endIndex] == log[startIndex..];
    }

    /** The backward loop: earliest position from which all events are newer. */
    method ScanBack(from: nat) returns (scan: nat)
      requires Valid()
      ensures startIndex <= scan <= endIndex && forall i :: startIndex <= i < scan ==> log[i].version <= from
    {
      scan := endIndex;
      while scan > startIndex
        invariant startIndex <= scan <= endIndex
      {
        var e := cache[(scan - 1) % capacity];
        assert e == Some(log[scan - 1]);
        if e.Some? && e.value.version > from {
          scan := scan - 1;
        } else {
          break;
        }
      }
    }
  }

  /** What a watcher at `from` is told by a store of this capacity. */
  function Answer(log: seq<Event>, capacity: nat, version: nat, from: nat): Result<Option<seq<Event>>, WatchError> {
    if from > version then Err(VersionUnexpected)
    else if from == version then Ok(None)
    else if from != 0 && from < Expire(log, capacity) then Err(TooOldVersion)
    else if Start(log, capacity) == |log| then Ok(None)
    else Ok(Some(Newer(log[Start(log, capacity)..], from)))
  }

  lemma NewerMore(log: seq<Event>, start: nat, i: nat, from: nat)
    requires start <= i < |log|
    ensures Newer(log[start..i + 1], from) ==
      if log[i].version > from then Newer(log[start..i], from) + [log[i]] else Newer(log[start..i], from)
  {
    assert log[start..i + 1][..i - start] == log[start..i];
  }

  lemma {:induction false} NewerNone(es: seq<Event>, from: nat)
    requires forall i :: 0 <= i < |es| ==> es[i].version <= from
    ensures Newer(es, from) == []
  {
    if es != [] {
      NewerNone(es[..|es| - 1], from);
    }
  }
}

/** A watcher keeps a copy of the store by applying the events it is sent. */
module Replication {
  import opened Common
  import opened Decimal
  import opened EventLog

  datatype Server = Server(log: seq<Event>, version: nat, data: Data)

  /** `connected` until an error tells the watcher to list again. */
  datatype Watcher = Watcher(data: Data, from: nat, connected: bool)

  datatype World = World(server: Server, watcher: Watcher)

  datatype Step = Publish(event: Event) | Poll | Relist

  function Published(s: Server, e: Event): Server {
    if e.version < s.version then s else Server(s.log + [e], e.version, Applied(s.data, e))
  }

  /** Without events to show for a higher version, the server reports lost events. */
  function Polled(capacity: nat, s: Server, w: Watcher): Watcher {
    if !w.connected then w
    else
      match Answer(s.log, capacity, s.version, w.from)
      case Err(_) => w.(connected := false)
      case Ok(events) =>
        if events.Some? && events.value != [] then Watcher(AppliedAll(w.data, events.value), s.version, true)
        else if s.version > w.from then w.(connected := false)
        else w
  }

  function Next(capacity: nat, w: World, step: Step): World {
    match step
    case Publish(e) => w.(server := Published(w.server, e))
    case Poll => w.(watcher := Polled(capacity, w.server, w.watcher))
    case Relist => w.(watcher := Watcher(w.server.data, w.server.version, true))
  }

  /** A run from a store with these initial resources, listed once. */
  function Run(capacity: nat, initial: Data, version: nat, steps: seq<Step>): World {
    if steps == [] then World(Server([], version, initial), Watcher(initial, version, true))
    else Next(capacity, Run(capacity, initial, version, steps[..|steps| - 1]), steps[|steps| - 1])
  }

  // ---------- What the ring still knows ----------

  lemma {:induction false} NewerAppend(a: seq<Event>, b: seq<Event>, from: nat)
    ensures Newer(a + b, from) == Newer(a, from) + Newer(b, from)
  {
    if b == [] {
      assert a + b == a;
    } else {
      assert (a + b)[..|a + b| - 1] == a + b[..|b| - 1];
      NewerAppend(a, b[..|b| - 1], from);
    }
  }

  lemma {:induction false} NewerSome(es: seq<Event>, from: nat, i: nat)
    requires i < |es| && es[i].version > from
    ensures Newer(es, from) != []
  {
    if i < |es| - 1 {
      NewerSome(es[..|es| - 1], from, i);
    }
  }

  /** The ring holds every event newer than `from` exactly when nothing newer has been dropped. */
  lemma RingCompleteIff(log: seq<Event>, capacity: nat, from: nat)
    requires Sorted(log)
    ensures Newer(log[Start(log, capacity)..], from) == Newer(log, from) <==> Expire(log, capacity) <= from
  {
    hide Newer;
    var start := Start(log, capacity);
    var old_, kept := log[..start], log[start..];
    assert log == old_ + kept;
    NewerAppend(old_, kept, from);
    if Expire(log, capacity) <= from {
      NewerNone(old_, from);
    } else {
      NewerSome(old_, from, start - 1);
    }
  }

  // ---------- Copies follow the store ----------

  lemma {:induction false} AppliedAppend(data: Data, a: seq<Event>, b: seq<Event>)
    ensures AppliedAll(data, a + b) == AppliedAll(AppliedAll(data, a), b)
  {
    if b == [] {
      assert a + b == a;
    } else {
      assert (a + b)[..|a + b| - 1] == a + b[..|b| - 1];
      AppliedAppend(data, a, b[..|b| - 1]);
    }
  }

  lemma {:induction false} NewerAll(es: seq<Event>, from: nat)
    requires forall i :: 0 <= i < |es| ==> es[i].version > from
    ensures Newer(es, from) == es
  {
    if es != [] {
      NewerAll(es[..|es| - 1], from);
    }
  }

  /** The store is its initial resources plus the log, and the watcher has seen the first `n` events. */
  ghost predicate Tracks(initial: Data, w: World, n: nat) {
    var s := w.server;
    s.data == AppliedAll(initial, s.log) && Sorted(s.log) && (forall i :: 0 <= i < |s.log| ==> s.log[i].version <= s.version) &&
    (w.watcher.connected ==>
      n <= |s.log| && w.watcher.from <= s.version && w.watcher.data == AppliedAll(initial, s.log[..n]) &&
      (forall i :: 0 <= i < n ==> s.log[i].version <= w.watcher.from) &&
      (forall i :: n <= i < |s.log| ==> s.log[i].version > w.watcher.from))
  }

  /** What is newer than `from` is a tail of the log. */
  lemma TailIsNewer(log: seq<Event>, n: nat, from: nat)
    requires n <= |log| && (forall i :: 0 <= i < n ==> log[i].version <= from) && (forall i :: n <= i < |log| ==> log[i].version > from)
    ensures Newer(log, from) == log[n..]
  {
    hide Newer;
    assert log == log[..n] + log[n..];
    NewerNone(log[..n], from);
    NewerAll(log[n..], from);
    NewerAppend(log[..n], log[n..], from);
  }

  /** A poll by a watcher that can be served ends the watch, brings the missing tail, or finds nothing to do. */
  lemma PolledIs(capacity: nat, s: Server, c: Watcher)
    requires c.connected && Sorted(s.log) && c.from <= s.version && (c.from > 0 || Expire(s.log, capacity) == 0)
    ensures var c' := Polled(capacity, s, c);
      c'.connected ==> c' == if c.from < s.version then Watcher(AppliedAll(c.data, Newer(s.log, c.from)), s.version, true) else c
  {
    hide Newer, AppliedAll, Sorted, Start, Expire;
    RingCompleteIff(s.log, capacity, c.from);
  }

  lemma PollTracks(capacity: nat, initial: Data, w: World, n: nat) returns (n': nat)
    requires Tracks(initial, w, n) && Served(capacity, w)
    ensures var w' := Next(capacity, w, Poll);
      Tracks(initial, w', n') &&
      (w'.watcher.connected ==> w'.watcher.data == w.server.data && w'.watcher.from == w.server.version)
  {
    hide Newer, AppliedAll, Polled, Sorted;
    n' := n;
    var s, c := w.server, w.watcher;
    if c.connected {
      PolledIs(capacity, s, c);
      TailIsNewer(s.log, n, c.from);
      AppliedAppend(initial, s.log[..n], s.log[n..]);
      assert s.log == s.log[..n] + s.log[n..];
      if c.from < s.version {
        n' := |s.log|;
        assert s.log[..|s.log|] == s.log;
      } else {
        NewerNone(s.log, c.from);
        assert s.log[n..] == [] && s.log[..n] == s.log;
      }
    } else {
      StaysAway(capacity, s, c);
    }
  }

  lemma StaysAway(capacity: nat, s: Server, c: Watcher)
    requires !c.connected
    ensures Polled(capacity, s, c) == c
  {
  }

  /** The watcher is not one at version 0 for whom an event has been dropped. */
  ghost predicate Served(capacity: nat, w: World) {
    w.watcher.connected ==> w.watcher.from > 0 || Expire(w.server.log, capacity) == 0
  }

  /** Unless the event has the store's version and the watcher is there already, the watcher is told of it, or has
      to list again, or the store drops it too. */
  predicate Heard(w: World, e: Event) {
    e.version != w.server.version || !w.watcher.connected || w.watcher.from < w.server.version
  }

  /** The watcher hears of the event or has nothing to miss. */
  predicate Harmless(w: World, e: Event) { Heard(w, e) || Applied(w.server.data, e) == w.server.data }

  ghost predicate AllHarmless(capacity: nat, initial: Data, version: nat, steps: seq<Step>) {
    forall i :: 0 <= i < |steps| && steps[i].Publish? ==> Harmless(Run(capacity, initial, version, steps[..i]), steps[i].event)
  }

  /** Besides, whoever polls can be served. */
  ghost predicate Orderly(capacity: nat, initial: Data, version: nat, steps: seq<Step>) {
    AllHarmless(capacity, initial, version, steps) &&
    forall i :: 0 <= i < |steps| && steps[i].Poll? ==> Served(capacity, Run(capacity, initial, version, steps[..i]))
  }

  /** If the watcher polls now, its watch ends or it has exactly the store's resources and version. */
  predicate Exact(capacity: nat, w: World) {
    var c := Polled(capacity, w.server, w.watcher);
    c.connected ==> c.data == w.server.data && c.from == w.server.version
  }

  lemma AppliedMore(data: Data, log: seq<Event>, e: Event)
    ensures AppliedAll(data, log + [e]) == Applied(AppliedAll(data, log), e)
  {
    assert (log + [e])[..|log|] == log;
  }

  lemma PublishTracks(capacity: nat, initial: Data, w: World, n: nat, e: Event) returns (n': nat)
    requires Tracks(initial, w, n) && Harmless(w, e)
    ensures Tracks(initial, Next(capacity, w, Publish(e)), n')
  {
    hide AppliedAll, Sorted, Applied;
    n' := n;
    if e.version >= w.server.version {
      var log := w.server.log;
      SortedAppend(log, e);
      AppliedMore(initial, log, e);
      if w.watcher.connected {
        if Heard(w, e) {
          assert (log + [e])[..n] == log[..n];
        } else {
          SeenAll(initial, w, n);
          n' := |log| + 1;
          assert (log + [e])[..n'] == log + [e] && log[..n] == log;
        }
      }
    }
  }

  /** A watcher at the store's version has seen the whole log. */
  lemma SeenAll(initial: Data, w: World, n: nat)
    requires Tracks(initial, w, n) && w.watcher.connected && w.watcher.from == w.server.version
    ensures n == |w.server.log| && w.watcher.data == w.server.data
  {
    hide AppliedAll, Sorted, Newer;
    TailIsNewer(w.server.log, n, w.watcher.from);
    NewerNone(w.server.log, w.watcher.from);
    assert w.server.log[..|w.server.log|] == w.server.log;
  }

  lemma {:induction false} RunTracks(capacity: nat, initial: Data, version: nat, steps: seq<Step>) returns (n: nat)
    requires Orderly(capacity, initial, version, steps)
    ensures Tracks(initial, Run(capacity, initial, version, steps), n)
  {
    n := 0;
    if steps != [] {
      hide Tracks, Published, Polled;
      var before, step := steps[..|steps| - 1], steps[|steps| - 1];
      OrderlyPrefix(capacity, initial, version, steps);
      n := RunTracks(capacity, initial, version, before);
      var w := Run(capacity, initial, version, before);
      n := StepTracks(capacity, initial, w, n, step);
    } else {
      assert AppliedAll(initial, []) == initial;
    }
  }

  lemma OrderlyPrefix(capacity: nat, initial: Data, version: nat, steps: seq<Step>)
    requires steps != [] && Orderly(capacity, initial, version, steps)
    ensures Orderly(capacity, initial, version, steps[..|steps| - 1])
    ensures var last, w := steps[|steps| - 1], Run(capacity, initial, version, steps[..|steps| - 1]);
      (last.Publish? ==> Harmless(w, last.event)) && (last.Poll? ==> Served(capacity, w))
  {
    hide Run, Served, Harmless;
    var before := steps[..|steps| - 1];
    assert forall i :: 0 <= i < |before| ==> before[..i] == steps[..i] && before[i] == steps[i];
  }

  lemma StepTracks(capacity: nat, initial: Data, w: World, n: nat, step: Step) returns (n': nat)
    requires Tracks(initial, w, n)
    requires (step.Publish? ==> Harmless(w, step.event)) && (step.Poll? ==> Served(capacity, w))
    ensures Tracks(initial, Next(capacity, w, step), n')
  {
    match step
    case Publish(e) =>
      n' := PublishTracks(capacity, initial, w, n, e);
    case Poll =>
      n' := PollTracks(capacity, initial, w, n);
    case Relist =>
      n' := |w.server.log|;
      assert w.server.log[..n'] == w.server.log;
  }

  /** In every orderly run, whatever is evicted or arrives late in between, a poll that does not end the watch
      leaves the watcher with exactly the store's resources and version. */
  lemma PollIsExact(capacity: nat, initial: Data, version: nat, steps: seq<Step>)
    requires Orderly(capacity, initial, version, steps) && Served(capacity, Run(capacity, initial, version, steps))
    ensures Exact(capacity, Run(capacity, initial, version, steps))
  {
    hide Tracks, Orderly;
    var n := RunTracks(capacity, initial, version, steps);
    var n' := PollTracks(capacity, initial, Run(capacity, initial, version, steps), n);
  }

  /** An event leaves a watcher that is up to date with the log exact, if and only if it is harmless. */
  lemma MissedIff(capacity: nat, initial: Data, w: World, n: nat, e: Event)
    requires Tracks(initial, w, n) && Served(capacity, Next(capacity, w, Publish(e)))
    ensures Exact(capacity, Next(capacity, w, Publish(e))) <==> Harmless(w, e)
  {
    hide AppliedAll, Applied, Newer, Served;
    if Harmless(w, e) {
      var n' := PublishTracks(capacity, initial, w, n, e);
      var n'' := PollTracks(capacity, initial, Next(capacity, w, Publish(e)), n');
    } else {
      SeenAll(initial, w, n);
    }
  }

  /** Everyone who may poll can be served. */
  ghost predicate AllServed(capacity: nat, initial: Data, version: nat, steps: seq<Step>) {
    forall i :: 0 <= i <= |steps| ==> Served(capacity, Run(capacity, initial, version, steps[..i]))
  }

  /** A poll at any moment of a run is exact, or ends the watch, if and only if every event is harmless when it is published. */
  lemma {:induction false} AlwaysExactIff(capacity: nat, initial: Data, version: nat, steps: seq<Step>)
    requires AllServed(capacity, initial, version, steps)
    ensures (forall i :: 0 <= i <= |steps| ==> Exact(capacity, Run(capacity, initial, version, steps[..i]))) <==>
      AllHarmless(capacity, initial, version, steps)
  {
    hide Served, Exact, Harmless, Run;
    if AllHarmless(capacity, initial, version, steps) {
      forall i | 0 <= i <= |steps| ensures Exact(capacity, Run(capacity, initial, version, steps[..i])) {
        assert forall j :: 0 <= j < i ==> steps[..i][..j] == steps[..j];
        PollIsExact(capacity, initial, version, steps[..i]);
      }
    } else {
      var i := FirstHarm(capacity, initial, version, steps);
      var w, e := Run(capacity, initial, version, steps[..i]), steps[i].event;
      assert forall j :: 0 <= j < i ==> steps[..i][..j] == steps[..j];
      var n := RunTracks(capacity, initial, version, steps[..i]);
      RunMore(capacity, initial, version, steps, i);
      MissedIff(capacity, initial, w, n, e);
      assert !Exact(capacity, Run(capacity, initial, version, steps[..i + 1]));
    }
  }

  lemma {:induction false} FirstHarm(capacity: nat, initial: Data, version: nat, steps: seq<Step>) returns (i: nat)
    requires !AllHarmless(capacity, initial, version, steps)
    ensures i < |steps| && steps[i].Publish? && !Harmless(Run(capacity, initial, version, steps[..i]), steps[i].event)
    ensures AllHarmless(capacity, initial, version, steps[..i])
  {
    hide Harmless, Run;
    var before := steps[..|steps| - 1];
    assert forall j :: 0 <= j < |before| ==> before[..j] == steps[..j];
    if AllHarmless(capacity, initial, version, before) {
      i := |steps| - 1;
    } else {
      i := FirstHarm(capacity, initial, version, before);
      assert before[..i] == steps[..i];
    }
  }

  lemma RunMore(capacity: nat, initial: Data, version: nat, steps: seq<Step>, i: nat)
    requires i < |steps|
    ensures Run(capacity, initial, version, steps[..i + 1]) == Next(capacity, Run(capacity, initial, version, steps[..i]), steps[i])
  {
    assert steps[..i + 1][..i] == steps[..i];
  }

  /** A watcher that listed at a version other than 0 can always be served. */
  lemma {:induction false} PositiveIsServed(capacity: nat, initial: Data, version: nat, steps: seq<Step>)
    requires version > 0
    ensures var w := Run(capacity, initial, version, steps); w.server.version > 0 && w.watcher.from > 0 && Served(capacity, w)
  {
    if steps != [] {
      PositiveIsServed(capacity, initial, version, steps[..|steps| - 1]);
    }
  }

  /** No event carries the version the store has already. */
  ghost predicate Distinct(capacity: nat, initial: Data, version: nat, steps: seq<Step>) {
    forall i :: 0 <= i < |steps| && steps[i].Publish? ==> steps[i].event.version != Run(capacity, initial, version, steps[..i]).server.version
  }

  lemma DistinctIsExact(capacity: nat, initial: Data, version: nat, steps: seq<Step>)
    requires Distinct(capacity, initial, version, steps) && AllServed(capacity, initial, version, steps)
    ensures forall i :: 0 <= i <= |steps| ==> Exact(capacity, Run(capacity, initial, version, steps[..i]))
  {
    hide Run, Served, Exact, Applied;
    AlwaysExactIff(capacity, initial, version, steps);
  }

  /** So from such a version on, polls are exact as soon as versions are distinct. */
  lemma PositiveIsExact(capacity: nat, initial: Data, version: nat, steps: seq<Step>)
    requires version > 0 && Distinct(capacity, initial, version, steps)
    ensures forall i :: 0 <= i <= |steps| ==> Exact(capacity, Run(capacity, initial, version, steps[..i]))
  {
    hide Run, Served, Exact, Distinct;
    forall i | 0 <= i <= |steps| ensures Served(capacity, Run(capacity, initial, version, steps[..i])) {
      PositiveIsServed(capacity, initial, version, steps[..i]);
    }
    DistinctIsExact(capacity, initial, version, steps);
  }

  // ---------- Where the guarantees stop ----------

  /** After any run that was exact so far, an event with the store's own version that changes anything is applied
      but not sent: a watcher that is already there keeps its watch and misses it. */
  lemma SameVersionMissed(capacity: nat, initial: Data, version: nat, steps: seq<Step>, e: Event)
    requires Orderly(capacity, initial, version, steps)
    requires var w := Run(capacity, initial, version, steps);
      w.watcher.connected && w.watcher.from == w.server.version == e.version && Applied(w.server.data, e) != w.server.data
    ensures var w := Run(capacity, initial, version, steps + [Publish(e), Poll]);
      w.watcher.connected && w.watcher.from == w.server.version && w.watcher.data != w.server.data
  {
    hide Tracks, Orderly, Applied, AppliedAll;
    var n := RunTracks(capacity, initial, version, steps);
    SeenAll(initial, Run(capacity, initial, version, steps), n);
    var more := steps + [Publish(e), Poll];
    RunMore(capacity, initial, version, more, |steps|);
    RunMore(capacity, initial, version, more, |steps| + 1);
    assert more[..|steps|] == steps && more[..|steps| + 2] == more;
  }

  /** What a watcher behind the store is told is an error or everything it needs, exactly unless it is at
      version 0 and something has been dropped. */
  lemma AnswerExactIff(log: seq<Event>, capacity: nat, version: nat, from: nat)
    requires capacity > 0 && log != [] && Sorted(log) && from < version
    ensures var answer := Answer(log, capacity, version, from);
      answer.Err? || answer == Ok(Some(Newer(log, from))) <==> from > 0 || Expire(log, capacity) == 0
  {
    hide Newer;
    RingCompleteIff(log, capacity, from);
  }

  /** A watcher that listed an empty store at version 0 is never told that it is too old: of a full ring's worth
      of additions and one more, it misses the first and still counts as up to date. */
  lemma ZeroIsNeverTooOld(capacity: nat) returns (steps: seq<Step>)
    requires capacity > 0
    ensures |steps| == capacity + 2 && steps[capacity + 1] == Poll
    ensures forall i :: 0 <= i <= capacity ==> steps[i] == Publish(Event(Add, Print(i), "", i + 1))
    ensures var w := Run(capacity, map[], 0, steps);
      w.watcher.connected && w.watcher.from == w.server.version && Print(0) in w.server.data && Print(0) !in w.watcher.data
  {
    hide Print, AppliedAll, Newer, Sorted, KeyIn, Run, Polled, Published;
    var n := capacity + 1;
    var log := Additions(n);
    AdditionsLog(n);
    var before := Publishes(log);
    PublishingRun(capacity, n);
    steps := before + [Poll];
    assert steps[..n] == before;
    LastStep(capacity, before, Poll);
    PolledAtZero(capacity, log);
    AddedKeys(log, n, 0, Print(0));
    AddedKeys(log, n, 1, Print(0));
    assert log[0..] == log;
    OnlyFirst(n);
  }

  function Publishes(log: seq<Event>): seq<Step> { seq(|log|, i requires 0 <= i < |log| => Publish(log[i])) }

  lemma LastStep(capacity: nat, before: seq<Step>, step: Step)
    ensures Run(capacity, map[], 0, before + [step]) == Next(capacity, Run(capacity, map[], 0, before), step)
  {
    assert (before + [step])[..|before|] == before;
  }

  lemma AdditionsMore(n: nat)
    requires n > 0
    ensures Additions(n) == Additions(n - 1) + [Event(Add, Print(n - 1), "", n)]
  {
    hide Print;
  }

  lemma PublishesMore(log: seq<Event>, e: Event)
    ensures Publishes(log + [e]) == Publishes(log) + [Publish(e)]
  {
  }

  /** Additions in version order are all logged. */
  lemma {:induction false} PublishingRun(capacity: nat, n: nat)
    ensures var log := Additions(n);
      Run(capacity, map[], 0, Publishes(log)) == World(Server(log, n, AppliedAll(map[], log)), Watcher(map[], 0, true))
  {
    if n == 0 {
      assert Publishes(Additions(0)) == [];
    } else {
      hide Print, Run, Additions, Publishes, AppliedAll;
      PublishingRun(capacity, n - 1);
      var before, e := Additions(n - 1), Event(Add, Print(n - 1), "", n);
      AdditionsMore(n);
      PublishesMore(before, e);
      LastStep(capacity, Publishes(before), Publish(e));
      AppliedMore(map[], before, e);
    }
  }

  lemma PolledAtZero(capacity: nat, log: seq<Event>)
    requires capacity > 0 && |log| == capacity + 1 && forall i :: 0 <= i < |log| ==> log[i].version > 0
    ensures Polled(capacity, Server(log, capacity + 1, AppliedAll(map[], log)), Watcher(map[], 0, true)) ==
      Watcher(AppliedAll(map[], log[1..]), capacity + 1, true)
  {
    hide AppliedAll, Newer;
    NewerAll(log[1..], 0);
  }

  lemma OnlyFirst(n: nat)
    requires n > 0
    ensures KeyIn(0, n, Print(0)) && !KeyIn(1, n, Print(0))
  {
    hide Print;
    forall i: nat | 1 <= i < n ensures Print(i) != Print(0) {
      if Print(i) == Print(0) {
        PrintInjective(i, 0);
      }
    }
  }

  function Additions(n: nat): seq<Event> { seq(n, i requires 0 <= i < n => Event(Add, Print(i), "", i + 1)) }

  lemma AdditionsLog(n: nat)
    ensures Sorted(Additions(n)) && |Additions(n)| == n && forall i :: 0 <= i < n ==> Additions(n)[i].version == i + 1
  {
    hide Print;
  }

  ghost predicate KeyIn(from: nat, n: nat, k: string) { exists i: nat :: from <= i < n && Print(i) == k }

  lemma {:induction false} AddedKeys(log: seq<Event>, n: nat, from: nat, k: string)
    requires from <= n && log == Additions(n)
    ensures k in AppliedAll(map[], log[from..]) <==> KeyIn(from, n, k)
    decreases n
  {
    hide Print;
    if from < n {
      var es := log[from..];
      assert Additions(n)[..n - 1] == Additions(n - 1);
      assert es[..|es| - 1] == log[..n - 1][from..];
      assert es[|es| - 1] == log[n - 1];
      AddedKeys(log[..n - 1], n - 1, from, k);
      assert KeyIn(from, n, k) <==> KeyIn(from, n - 1, k) || Print(n - 1) == k;
    }
  }

  function PublishedAll(s: Server, es: seq<Event>): Server {
    if es == [] then s else Published(PublishedAll(s, es[..|es| - 1]), es[|es| - 1])
  }

  /** Events reach the store in the order of their versions, from the store's own on. */
  ghost predicate InOrder(version: nat, es: seq<Event>) {
    Sorted(es) && forall i :: 0 <= i < |es| ==> version <= es[i].version
  }

  lemma {:induction false} PublishedLength(s: Server, es: seq<Event>)
    ensures |PublishedAll(s, es).log| <= |s.log| + |es| && PublishedAll(s, es).version >= s.version
  {
    if es != [] {
      PublishedLength(s, es[..|es| - 1]);
    }
  }

  lemma OrderPrefix(version: nat, es: seq<Event>)
    requires es != [] && InOrder(version, es)
    ensures InOrder(version, es[..|es| - 1])
    ensures var last := if |es| == 1 then version else es[|es| - 2].version; last <= es[|es| - 1].version
  {
  }

  lemma {:induction false} OrderedAreKept(s: Server, es: seq<Event>)
    requires InOrder(s.version, es)
    ensures var p := PublishedAll(s, es);
      p.log == s.log + es && p.data == AppliedAll(s.data, es) && p.version == if es == [] then s.version else es[|es| - 1].version
  {
    hide InOrder, Applied;
    if es == [] {
      assert s.log + es == s.log;
    } else {
      var n := |es| - 1;
      OrderPrefix(s.version, es);
      OrderedAreKept(s, es[..n]);
      assert s.log + es[..n] + [es[n]] == s.log + es;
    }
  }

  /** The last event was kept, and so were all before it. */
  lemma LastKept(s: Server, es: seq<Event>)
    requires es != [] && PublishedAll(s, es).log == s.log + es
    ensures var p := PublishedAll(s, es[..|es| - 1]); p.log == s.log + es[..|es| - 1] && p.version <= es[|es| - 1].version
  {
    hide Applied;
    var n := |es| - 1;
    PublishedLength(s, es[..n]);
    var p := PublishedAll(s, es[..n]);
    assert |PublishedAll(s, es).log| == |s.log| + n + 1;
    assert (p.log + [es[n]])[..|p.log|] == p.log;
    assert (s.log + es)[..|s.log| + n] == s.log + es[..n];
  }

  lemma {:induction false} KeptAreOrdered(s: Server, es: seq<Event>)
    requires PublishedAll(s, es).log == s.log + es
    ensures InOrder(s.version, es)
  {
    if es != [] {
      hide PublishedAll, InOrder;
      var n := |es| - 1;
      LastKept(s, es);
      KeptAreOrdered(s, es[..n]);
      OrderedAreKept(s, es[..n]);
      OrderMore(s.version, es[..n], es[n], PublishedAll(s, es[..n]).version);
      assert es == es[..n] + [es[n]];
    }
  }

  /** No event is dropped exactly when they arrive in version order. */
  lemma NothingDroppedIff(s: Server, es: seq<Event>)
    ensures PublishedAll(s, es).log == s.log + es <==> InOrder(s.version, es)
    ensures InOrder(s.version, es) ==>
      PublishedAll(s, es).data == AppliedAll(s.data, es) && PublishedAll(s, es).version == if es == [] then s.version else es[|es| - 1].version
  {
    hide PublishedAll, AppliedAll, InOrder;
    if InOrder(s.version, es) {
      OrderedAreKept(s, es);
    } else if PublishedAll(s, es).log == s.log + es {
      KeptAreOrdered(s, es);
    }
  }

  lemma OrderMore(version: nat, es: seq<Event>, e: Event, last: nat)
    requires InOrder(version, es) && last == (if es == [] then version else es[|es| - 1].version) && last <= e.version
    ensures InOrder(version, es + [e])
  {
  }

  /** An update that was given its version first but arrives second is lost, although it concerns another resource. */
  lemma LateUpdateLost(s: Server, first: Event, second: Event)
    requires s.version <= first.version < second.version && first.key != second.key && !first.kind.Delete?
    requires first.key !in s.data || s.data[first.key] != first.resource
    ensures var p := PublishedAll(s, [second, first]);
      p == Published(s, second) && (first.key in p.data ==> p.data[first.key] != first.resource)
  {
    assert [second, first][..1] == [second] && [second][..0] == [];
    assert PublishedAll(s, [second]) == Published(s, second);
  }
}
