// Changes on their way to the watchers: a thread draws a version from the generator and then pushes its event. In
// between, other threads draw and push theirs, so events reach a store in any order.

module Publishing {
  import opened Common
  import Decimal
  import Versions
  import EventLog
  import Replication

  /** What the generator's threads have done, the call (by its return event) from which a thread holds a version,
      and what has happened at the store. */
  datatype System = System(drawn: seq<Versions.Action>, held: map<nat, nat>, steps: seq<Replication.Step>)

  /** The generator is shared: some versions go to other stores. */
  datatype Action =
    | Draw(action: Versions.Action)
    | Push(thread: nat, kind: EventLog.Kind, key: string, resource: string)
    | PushElsewhere(thread: nat)
    | Poll
    | Relist

  predicate Returned(s: Versions.State, k: nat) { k < |s.log| && s.log[k].Return? && s.log[k].index < |s.history| }

  function VersionOf(s: Versions.State, k: nat): nat { if Returned(s, k) then Versions.Version(s, k) else 0 }

  function AfterDraw(threads: nat, sys: System, a: Versions.Action): System {
    var s, s' := Versions.Run(threads, sys.drawn), Versions.Run(threads, sys.drawn + [a]);
    sys.(drawn := sys.drawn + [a],
         held := if |s.log| < |s'.log| && s'.log[|s.log|].Return? then sys.held[a.thread := |s.log|] else sys.held)
  }

  /** A thread that holds a version pushes it before it draws another. */
  function Next(threads: nat, sys: System, a: Action): System {
    match a
    case Draw(draw) => if draw.Call? && draw.thread in sys.held then sys else AfterDraw(threads, sys, draw)
    case Push(t, kind, key, resource) =>
      if t !in sys.held then sys
      else
        var version := VersionOf(Versions.Run(threads, sys.drawn), sys.held[t]);
        sys.(held := sys.held - {t}, steps := sys.steps + [Replication.Publish(EventLog.Event(kind, key, resource, version))])
    case PushElsewhere(t) => sys.(held := sys.held - {t})
    case Poll => sys.(steps := sys.steps + [Replication.Poll])
    case Relist => sys.(steps := sys.steps + [Replication.Relist])
  }

  function Run(threads: nat, sys: System, actions: seq<Action>): System {
    if actions == [] then sys else Next(threads, Run(threads, sys, actions[..|actions| - 1]), actions[|actions| - 1])
  }

  /** The clock and the successes stay below the largest version. */
  predicate Unsaturated(s: Versions.State) { s.clockMax + |s.history| <= Decimal.U64_MAX + 1 }

  // ---------- What the generator keeps ----------

  predicate Extends(s: Versions.State, s': Versions.State) {
    s.log <= s'.log && s.history <= s'.history && s.clockMax <= s'.clockMax
  }

  lemma {:induction false} DrawnExtends(threads: nat, before: seq<Versions.Action>, a: Versions.Action)
    ensures Extends(Versions.Run(threads, before), Versions.Run(threads, before + [a]))
  {
    Versions.OneMore(threads, before, a);
  }

  lemma ExtendsKeeps(s: Versions.State, s': Versions.State, k: nat)
    requires Extends(s, s') && Returned(s, k)
    ensures Returned(s', k) && VersionOf(s', k) == VersionOf(s, k)
  {
  }

  /** Only swapped values are returned. */
  ghost predicate Swapped(s: Versions.State) {
    (forall t :: 0 <= t < |s.threads| && s.threads[t].phase.Won? ==> s.threads[t].phase.index > 0) &&
    (forall k :: 0 <= k < |s.log| && s.log[k].Return? ==> s.log[k].index > 0)
  }

  lemma {:induction false} AllSwapped(threads: nat, drawn: seq<Versions.Action>)
    ensures Swapped(Versions.Run(threads, drawn))
  {
    if drawn != [] {
      AllSwapped(threads, drawn[..|drawn| - 1]);
    }
  }

  lemma ReturnedVersions(threads: nat, drawn: seq<Versions.Action>)
    requires Unsaturated(Versions.Run(threads, drawn))
    ensures var s := Versions.Run(threads, drawn);
      (forall k :: Returned(s, k) ==> VersionOf(s, k) > 0) &&
      (forall j, k :: Returned(s, j) && Returned(s, k) && j != k ==> VersionOf(s, j) != VersionOf(s, k))
  {
    hide Versions.Run;
    Versions.UniqueAndOrdered(threads, drawn);
    Versions.NoSaturation(threads, drawn);
    AllSwapped(threads, drawn);
    var s := Versions.Run(threads, drawn);
    forall k: nat | Returned(s, k) ensures VersionOf(s, k) > 0 {
      assert s.history[0] < s.history[s.log[k].index];
    }
    forall j, k | Returned(s, j) && Returned(s, k) && j != k ensures VersionOf(s, j) != VersionOf(s, k) {
      assert j < k || k < j;
    }
  }

  // ---------- Every version reaches the store once ----------

  /** Threads hold versions of different calls, none of which has been used. */
  ghost predicate Holding(s: Versions.State, held: map<nat, nat>, used: set<nat>) {
    (forall t :: t in held ==> Returned(s, held[t]) && held[t] !in used) &&
    (forall t, u :: t in held && u in held && t != u ==> held[t] != held[u])
  }

  /** The store has a used version, or none. */
  ghost predicate Known(s: Versions.State, version: nat, used: set<nat>) {
    (forall k :: k in used ==> Returned(s, k)) && (version == 0 || exists k :: k in used && VersionOf(s, k) == version)
  }

  lemma HoldingExtends(s: Versions.State, s': Versions.State, held: map<nat, nat>, used: set<nat>, version: nat)
    requires Extends(s, s') && Holding(s, held, used) && Known(s, version, used)
    ensures Holding(s', held, used) && Known(s', version, used)
  {
    hide Extends, Returned, VersionOf;
    forall k | Returned(s, k) ensures Returned(s', k) && VersionOf(s', k) == VersionOf(s, k) {
      ExtendsKeeps(s, s', k);
    }
  }

  lemma HoldingMore(s: Versions.State, held: map<nat, nat>, used: set<nat>, t: nat, k: nat)
    requires Holding(s, held, used) && Returned(s, k) && k !in used && (forall u :: u in held ==> held[u] != k)
    ensures Holding(s, held[t := k], used)
  {
  }

  lemma DrawKeeps(threads: nat, sys: System, a: Versions.Action, used: set<nat>, version: nat)
    requires var s := Versions.Run(threads, sys.drawn); Holding(s, sys.held, used) && Known(s, version, used)
    ensures var sys' := AfterDraw(threads, sys, a); var s' := Versions.Run(threads, sys'.drawn);
      Holding(s', sys'.held, used) && Known(s', version, used)
  {
    hide Versions.Run, Holding, Known, Extends;
    var s, s' := Versions.Run(threads, sys.drawn), Versions.Run(threads, sys.drawn + [a]);
    DrawnExtends(threads, sys.drawn, a);
    HoldingExtends(s, s', sys.held, used, version);
    Versions.LogInvRun(threads, sys.drawn + [a]);
    var k := |s.log|;
    if k < |s'.log| && s'.log[k].Return? {
      NewIsUnused(s, sys.held, used, version);
      HoldingMore(s', sys.held, used, a.thread, k);
    }
  }

  lemma NewIsUnused(s: Versions.State, held: map<nat, nat>, used: set<nat>, version: nat)
    requires Holding(s, held, used) && Known(s, version, used)
    ensures |s.log| !in used && forall u :: u in held ==> held[u] != |s.log|
  {
  }

  /** Where the store is after some steps. */
  function StoreVersion(capacity: nat, initial: EventLog.Data, version: nat, steps: seq<Replication.Step>): nat {
    Replication.Run(capacity, initial, version, steps).server.version
  }

  lemma StoreStep(capacity: nat, initial: EventLog.Data, version: nat, steps: seq<Replication.Step>, step: Replication.Step)
    requires Replication.Distinct(capacity, initial, version, steps)
    requires step.Publish? ==> step.event.version != StoreVersion(capacity, initial, version, steps)
    ensures Replication.Distinct(capacity, initial, version, steps + [step])
    ensures var v, v' := StoreVersion(capacity, initial, version, steps), StoreVersion(capacity, initial, version, steps + [step]);
      v' == v || (step.Publish? && v' == step.event.version)
  {
    var more := steps + [step];
    Replication.RunMore(capacity, initial, version, more, |steps|);
    assert more[..|steps|] == steps && more[..|more|] == more;
    hide Replication.Run;
    assert forall i :: 0 <= i < |steps| ==> more[..i] == steps[..i] && more[i] == steps[i];
  }

  /** A version that is pushed is new to the store. */
  lemma PushedIsNew(threads: nat, drawn: seq<Versions.Action>, held: map<nat, nat>, used: set<nat>, version: nat, t: nat)
    requires var s := Versions.Run(threads, drawn); Unsaturated(s) && Holding(s, held, used) && Known(s, version, used)
    requires t in held
    ensures var s := Versions.Run(threads, drawn); var v := VersionOf(s, held[t]);
      v != version && Holding(s, held - {t}, used + {held[t]}) && Known(s, version, used + {held[t]}) && Known(s, v, used + {held[t]})
  {
    hide Versions.Run, Returned, VersionOf;
    ReturnedVersions(threads, drawn);
    var s, k := Versions.Run(threads, drawn), held[t];
    assert k in used + {k};
    if version != 0 {
      var u :| u in used && VersionOf(s, u) == version;
      assert u in used + {k};
    }
  }

  /** What holds throughout a run. */
  ghost predicate Fair(threads: nat, capacity: nat, initial: EventLog.Data, version: nat, sys: System, used: set<nat>) {
    var s := Versions.Run(threads, sys.drawn);
    Holding(s, sys.held, used) && Known(s, StoreVersion(capacity, initial, version, sys.steps), used) &&
    Replication.Distinct(capacity, initial, version, sys.steps)
  }

  lemma PushFair(threads: nat, capacity: nat, initial: EventLog.Data, version: nat, sys: System, used: set<nat>, a: Action)
    requires Fair(threads, capacity, initial, version, sys, used) && Unsaturated(Versions.Run(threads, sys.drawn))
    requires a.Push? && a.thread in sys.held
    ensures Fair(threads, capacity, initial, version, Next(threads, sys, a), used + {sys.held[a.thread]})
  {
    hide Versions.Run, Holding, Known, VersionOf, Unsaturated, StoreVersion, Replication.Distinct;
    PushedIsNew(threads, sys.drawn, sys.held, used, StoreVersion(capacity, initial, version, sys.steps), a.thread);
    var e := EventLog.Event(a.kind, a.key, a.resource, VersionOf(Versions.Run(threads, sys.drawn), sys.held[a.thread]));
    StoreStep(capacity, initial, version, sys.steps, Replication.Publish(e));
  }

  lemma StepFair(threads: nat, capacity: nat, initial: EventLog.Data, version: nat, sys: System, used: set<nat>, a: Action)
    returns (used': set<nat>)
    requires Fair(threads, capacity, initial, version, sys, used) && Unsaturated(Versions.Run(threads, sys.drawn))
    ensures Fair(threads, capacity, initial, version, Next(threads, sys, a), used')
  {
    hide Versions.Run, Known, VersionOf, Unsaturated, StoreVersion, Replication.Distinct, AfterDraw, Returned;
    used' := used;
    match a
    case Draw(draw) =>
      DrawKeeps(threads, sys, draw, used, StoreVersion(capacity, initial, version, sys.steps));
      assert AfterDraw(threads, sys, draw).steps == sys.steps by {
        DrawIsElsewhere(threads, sys, draw);
      }
    case Push(t, _, _, _) =>
      if t in sys.held {
        PushFair(threads, capacity, initial, version, sys, used, a);
        used' := used + {sys.held[t]};
      }
    case PushElsewhere(t) =>
    case Poll => StoreStep(capacity, initial, version, sys.steps, Replication.Poll);
    case Relist => StoreStep(capacity, initial, version, sys.steps, Replication.Relist);
  }

  lemma DrawIsElsewhere(threads: nat, sys: System, a: Versions.Action)
    ensures AfterDraw(threads, sys, a).steps == sys.steps
  {
  }

  lemma EarlierUnsaturated(threads: nat, sys: System, a: Action)
    requires Unsaturated(Versions.Run(threads, Next(threads, sys, a).drawn))
    ensures Unsaturated(Versions.Run(threads, sys.drawn))
  {
    hide Versions.Run;
    if a.Draw? {
      DrawnExtends(threads, sys.drawn, a.action);
    }
  }

  lemma {:induction false} RunFair(
    threads: nat, capacity: nat, initial: EventLog.Data, version: nat, sys: System, used: set<nat>, actions: seq<Action>)
    returns (used': set<nat>)
    requires Fair(threads, capacity, initial, version, sys, used) && Unsaturated(Versions.Run(threads, Run(threads, sys, actions).drawn))
    ensures Fair(threads, capacity, initial, version, Run(threads, sys, actions), used')
  {
    used' := used;
    if actions != [] {
      hide Versions.Run, Fair, Unsaturated, Next;
      var n := |actions| - 1;
      var before := Run(threads, sys, actions[..n]);
      EarlierUnsaturated(threads, before, actions[n]);
      used' := RunFair(threads, capacity, initial, version, sys, used, actions[..n]);
      used' := StepFair(threads, capacity, initial, version, before, used', actions[n]);
    }
  }

  /** A watch may begin at any moment: some versions have been used, the store's among them, and threads hold others. */
  lemma StartFair(threads: nat, capacity: nat, initial: EventLog.Data, version: nat, sys: System, used: set<nat>)
    requires sys.steps == []
    requires var s := Versions.Run(threads, sys.drawn); Holding(s, sys.held, used) && Known(s, version, used)
    ensures Fair(threads, capacity, initial, version, sys, used)
  {
    hide Versions.Run, Holding, Known;
  }

  /** As long as the generator does not saturate, however draws, pushes and polls interleave, no event repeats the
      store's version, and so a poll at any moment is exact or ends the watch, if whoever polls can be served. A watcher
      that listed at a version other than 0 always can. */
  lemma WatchersAreExact(
    threads: nat, capacity: nat, initial: EventLog.Data, version: nat, sys: System, used: set<nat>, actions: seq<Action>)
    requires sys.steps == []
    requires var s := Versions.Run(threads, sys.drawn); Holding(s, sys.held, used) && Known(s, version, used)
    requires Unsaturated(Versions.Run(threads, Run(threads, sys, actions).drawn))
    ensures var steps := Run(threads, sys, actions).steps;
      Replication.Distinct(capacity, initial, version, steps) &&
      (version > 0 || Replication.AllServed(capacity, initial, version, steps) ==>
        forall i :: 0 <= i <= |steps| ==> Replication.Exact(capacity, Replication.Run(capacity, initial, version, steps[..i])))
  {
    hide Versions.Run, Holding, Known, Unsaturated, Run, Replication.Exact, Replication.Run, Replication.AllServed;
    StartFair(threads, capacity, initial, version, sys, used);
    var used' := RunFair(threads, capacity, initial, version, sys, used, actions);
    var steps := Run(threads, sys, actions).steps;
    if version > 0 {
      Replication.PositiveIsExact(capacity, initial, version, steps);
    } else if Replication.AllServed(capacity, initial, version, steps) {
      Replication.DistinctIsExact(capacity, initial, version, steps);
    }
  }
}
