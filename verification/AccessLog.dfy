// The access-log store: a map with expiry, a capacity, and opportunistic cleanup.

module AccessLog {
  import opened Common

  const TTL: nat := 300_000
  const MAX_CAPACITY: nat := 10_000

  datatype Entry = Entry(json: string, storedAt: nat)

  datatype Config = Config(ttl: nat, maxCapacity: nat)

  datatype State = State(entries: map<string, Entry>, totalStored: nat)

  predicate Fresh(c: Config, e: Entry, now: nat) { now - e.storedAt < c.ttl }

  function CleanupExpired(c: Config, s: State, now: nat): State {
    s.(entries := map k | k in s.entries && Fresh(c, s.entries[k], now) :: s.entries[k])
  }

  /** The map after the cleanups a store may make, before it inserts. */
  function Tidied(c: Config, s: State, first: nat, second: nat): State {
    var s1 := (if s.totalStored % 100 == 0 then CleanupExpired(c, s, first) else s).(totalStored := s.totalStored + 1);
    if |s1.entries| >= c.maxCapacity then CleanupExpired(c, s1, second) else s1
  }

  /** The call reads the clock for each cleanup it makes and for the entry it inserts. */
  function Store(c: Config, s: State, key: string, json: string, first: nat, second: nat, at: nat): (State, bool) {
    var s' := Tidied(c, s, first, second);
    if |s'.entries| >= c.maxCapacity then (s', false) else (s'.(entries := s'.entries[key := Entry(json, at)]), true)
  }

  function Get(c: Config, s: State, key: string, now: nat): Option<string> {
    if key in s.entries && Fresh(c, s.entries[key], now) then Some(s.entries[key].json) else None
  }

  function Listed(c: Config, s: State, now: nat): set<string> {
    set k | k in s.entries && Fresh(c, s.entries[k], now)
  }

  /** The store as the gateway holds it; each call is given the clock readings it makes. */
  class AccessLogStore {
    const config: Config
    var state: State

    constructor ()
      ensures config == Config(TTL, MAX_CAPACITY) && state == State(map[], 0)
    {
      config, state := Config(TTL, MAX_CAPACITY), State(map[], 0);
    }

    method StoreEntry(key: string, json: string, first: nat, second: nat, at: nat) returns (ok: bool)
      modifies this
      ensures (state, ok) == Store(config, old(state), key, json, first, second, at)
    {
      var count := state.totalStored;
      state := state.(totalStored := count + 1);
      if count % 100 == 0 {
        state := CleanupExpired(config, state, first);
      }
      if |state.entries| >= config.maxCapacity {
        state := CleanupExpired(config, state, second);
        if |state.entries| >= config.maxCapacity {
          return false;
        }
      }
      state := state.(entries := state.entries[key := Entry(json, at)]);
      return true;
    }

    method GetEntry(key: string, now: nat) returns (json: Option<string>)
      ensures json == Get(config, state, key, now)
    {
      json := if key in state.entries && Fresh(config, state.entries[key], now) then Some(state.entries[key].json) else None;
    }

    method DeleteEntry(key: string) returns (removed: bool)
      modifies this
      ensures removed == (key in old(state).entries) && state == old(state).(entries := old(state).entries - {key})
    {
      removed := key in state.entries;
      state := state.(entries := state.entries - {key});
    }

    method ClearAll()
      modifies this
      ensures state == old(state).(entries := map[])
    {
      state := state.(entries := map[]);
    }
  }

  // ---------- Runs ----------

  datatype Op =
    | StoreOp(key: string, json: string, first: nat, second: nat, at: nat)
    | DeleteOp(key: string, at: nat)
    | ClearOp(at: nat)

  /** What a plain record of the calls remembers: nothing about counters, cleanups or capacity. */
  datatype Event = Stored(key: string, entry: Entry) | Deleted(key: string) | Cleared

  datatype Trace = Trace(state: State, history: seq<Event>)

  function Apply(c: Config, t: Trace, op: Op): Trace {
    match op
    case StoreOp(k, json, first, second, at) =>
      var (s, ok) := Store(c, t.state, k, json, first, second, at);
      Trace(s, if ok then t.history + [Stored(k, Entry(json, at))] else t.history)
    case DeleteOp(k, _) => t.(state := t.state.(entries := t.state.entries - {k}), history := t.history + [Deleted(k)])
    case ClearOp(_) => t.(state := t.state.(entries := map[]), history := t.history + [Cleared])
  }

  function Run(c: Config, ops: seq<Op>): Trace {
    if ops == [] then Trace(State(map[], 0), []) else Apply(c, Run(c, ops[..|ops| - 1]), ops[|ops| - 1])
  }

  /** Clock readings never decrease, within a call or from one call to the next. */
  predicate Timed(ops: seq<Op>) {
    if ops == [] then true
    else
      var last := ops[|ops| - 1];
      Timed(ops[..|ops| - 1]) &&
      (match last
       case StoreOp(_, _, first, second, at) => Now(ops[..|ops| - 1]) <= first <= second <= at
       case _ => Now(ops[..|ops| - 1]) <= last.at)
  }

  /** The latest clock reading of a run. */
  function Now(ops: seq<Op>): nat { if ops == [] then 0 else ops[|ops| - 1].at }

  /** The latest successful store of `k` not deleted or cleared since. */
  function Latest(history: seq<Event>, k: string): Option<Entry> {
    if history == [] then None
    else
      match history[|history| - 1]
      case Stored(key, e) => if key == k then Some(e) else Latest(history[..|history| - 1], k)
      case Deleted(key) => if key == k then None else Latest(history[..|history| - 1], k)
      case Cleared => None
  }

  function Remembered(c: Config, history: seq<Event>, k: string, now: nat): Option<string> {
    match Latest(history, k)
    case Some(e) => if Fresh(c, e, now) then Some(e.json) else None
    case None => None
  }

  /** The map holds the latest stores, except that expired ones may already be gone. */
  ghost predicate Agrees(c: Config, s: State, history: seq<Event>, now: nat) {
    (forall k :: k in s.entries ==> Latest(history, k) == Some(s.entries[k])) &&
    (forall k :: k !in s.entries && Latest(history, k).Some? ==> !Fresh(c, Latest(history, k).value, now))
  }

  lemma CleanupAgrees(c: Config, s: State, history: seq<Event>, now: nat, t: nat)
    requires Agrees(c, s, history, now) && now <= t
    ensures Agrees(c, CleanupExpired(c, s, t), history, t)
    ensures Agrees(c, s, history, t)
  {
  }

  lemma LatestMore(history: seq<Event>, e: Event, k: string)
    ensures Latest(history + [e], k) ==
      match e
      case Stored(key, entry) => if key == k then Some(entry) else Latest(history, k)
      case Deleted(key) => if key == k then None else Latest(history, k)
      case Cleared => None
  {
    assert (history + [e])[..|history|] == history;
  }

  lemma TidiedAgrees(c: Config, s: State, history: seq<Event>, now: nat, first: nat, second: nat)
    requires Agrees(c, s, history, now) && now <= first <= second
    ensures Agrees(c, Tidied(c, s, first, second), history, second)
  {
    hide Latest, Fresh;
    CleanupAgrees(c, s, history, now, first);
    var s1 := (if s.totalStored % 100 == 0 then CleanupExpired(c, s, first) else s).(totalStored := s.totalStored + 1);
    assert Agrees(c, s1, history, first);
    CleanupAgrees(c, s1, history, first, second);
  }

  /** A store is refused exactly when that many entries are still alive. */
  lemma RefusedIff(c: Config, s: State, key: string, json: string, first: nat, second: nat, at: nat)
    requires first <= second
    ensures Store(c, s, key, json, first, second, at).1 <==> |Listed(c, s, second)| < c.maxCapacity
  {
    var s1 := (if s.totalStored % 100 == 0 then CleanupExpired(c, s, first) else s).(totalStored := s.totalStored + 1);
    assert Listed(c, s1, second) == Listed(c, s, second);
    assert CleanupExpired(c, s1, second).entries.Keys == Listed(c, s1, second);
    Smaller(Listed(c, s1, second), s1.entries.Keys);
  }

  lemma {:induction false} Smaller(a: set<string>, b: set<string>)
    requires a <= b
    ensures |a| <= |b|
    decreases a
  {
    if a != {} {
      var x :| x in a;
      Smaller(a - {x}, b - {x});
    }
  }

  lemma ApplyAgrees(c: Config, t: Trace, op: Op, now: nat)
    requires Agrees(c, t.state, t.history, now)
    requires if op.StoreOp? then now <= op.first <= op.second <= op.at else now <= op.at
    ensures Agrees(c, Apply(c, t, op).state, Apply(c, t, op).history, op.at)
  {
    hide Latest, Fresh;
    match op
    case StoreOp(k, json, first, second, at) =>
      TidiedAgrees(c, t.state, t.history, now, first, second);
      var s := Tidied(c, t.state, first, second);
      CleanupAgrees(c, s, t.history, second, at);
      forall j { LatestMore(t.history, Stored(k, Entry(json, at)), j); }
    case DeleteOp(k, at) =>
      CleanupAgrees(c, t.state, t.history, now, at);
      forall j { LatestMore(t.history, Deleted(k), j); }
    case ClearOp(at) =>
      forall j { LatestMore(t.history, Cleared, j); }
  }

  lemma {:induction false} RunAgrees(c: Config, ops: seq<Op>)
    requires Timed(ops)
    ensures Agrees(c, Run(c, ops).state, Run(c, ops).history, Now(ops))
  {
    if ops != [] {
      RunAgrees(c, ops[..|ops| - 1]);
      ApplyAgrees(c, Run(c, ops[..|ops| - 1]), ops[|ops| - 1], Now(ops[..|ops| - 1]));
    }
  }

  /** After any run, a lookup answers from the plain record alone, whenever cleanups happened to run. */
  lemma GetIsRemembered(c: Config, ops: seq<Op>, k: string, now: nat)
    requires Timed(ops) && Now(ops) <= now
    ensures Get(c, Run(c, ops).state, k, now) == Remembered(c, Run(c, ops).history, k, now)
    ensures k in Listed(c, Run(c, ops).state, now) <==> Remembered(c, Run(c, ops).history, k, now).Some?
  {
    RunAgrees(c, ops);
  }
}

/** Concurrent callers of `store`: the capacity check and the insertion are separate steps. */
module AccessLogRace {

  datatype Phase = Idle | Entered(key: nat) | Full(key: nat) | Inserting(key: nat)

  datatype State = State(entries: set<nat>, callers: seq<Phase>)

  /** `Remove` stands for deletes, clears and cleanups by anyone. */
  datatype Action =
    | Enter(caller: nat, key: nat)
    | Check(caller: nat)
    | Recheck(caller: nat)
    | Insert(caller: nat)
    | Remove(keys: set<nat>)

  function Apply(capacity: nat, s: State, a: Action): State {
    match a
    case Remove(keys) => s.(entries := s.entries - keys)
    case Enter(c, key) =>
      if c < |s.callers| && s.callers[c].Idle? then s.(callers := s.callers[c := Entered(key)]) else s
    case Check(c) =>
      if c < |s.callers| && s.callers[c].Entered? then
        var key := s.callers[c].key;
        s.(callers := s.callers[c := if |s.entries| >= capacity then Full(key) else Inserting(key)])
      else s
    case Recheck(c) =>
      if c < |s.callers| && s.callers[c].Full? then
        s.(callers := s.callers[c := if |s.entries| >= capacity then Idle else Inserting(s.callers[c].key)])
      else s
    case Insert(c) =>
      if c < |s.callers| && s.callers[c].Inserting? then
        State(s.entries + {s.callers[c].key}, s.callers[c := Idle])
      else s
  }

  function Init(callers: nat): State { State({}, seq(callers, _ => Idle)) }

  function Run(capacity: nat, callers: nat, actions: seq<Action>): State {
    if actions == [] then Init(callers)
    else Apply(capacity, Run(capacity, callers, actions[..|actions| - 1]), actions[|actions| - 1])
  }

  /** Callers that have passed the check and not yet inserted. */
  function Pending(callers: seq<Phase>): (n: nat)
    ensures n <= |callers|
  {
    if callers == [] then 0
    else Pending(callers[..|callers| - 1]) + if callers[|callers| - 1].Inserting? then 1 else 0
  }

  lemma {:induction false} PendingUpdate(callers: seq<Phase>, c: nat, p: Phase)
    requires c < |callers|
    ensures Pending(callers[c := p]) ==
      Pending(callers) - (if callers[c].Inserting? then 1 else 0) + if p.Inserting? then 1 else 0
  {
    var n := |callers| - 1;
    if c == n {
      assert callers[c := p][..n] == callers[..n];
    } else {
      assert callers[c := p][..n] == callers[..n][c := p];
      PendingUpdate(callers[..n], c, p);
    }
  }

  lemma {:induction false} NonePending(callers: seq<Phase>)
    requires forall c :: 0 <= c < |callers| ==> callers[c].Idle?
    ensures Pending(callers) == 0
  {
    if callers != [] {
      NonePending(callers[..|callers| - 1]);
    }
  }

  lemma Shrinks(a: set<nat>, b: set<nat>)
    ensures |a - b| <= |a|
  {
    assert a == (a - b) + (a * b) && (a - b) !! (a * b);
  }

  /** Entries and pending insertions together. */
  ghost predicate Bounded(capacity: nat, s: State) {
    s.callers != [] && |s.entries| + Pending(s.callers) <= capacity + |s.callers| - 1
  }

  lemma BoundedStep(capacity: nat, s: State, a: Action)
    requires Bounded(capacity, s)
    ensures Bounded(capacity, Apply(capacity, s, a)) && |Apply(capacity, s, a).callers| == |s.callers|
  {
    if a.Remove? {
      Shrinks(s.entries, a.keys);
    } else if a.caller < |s.callers| {
      PendingUpdate(s.callers, a.caller, Apply(capacity, s, a).callers[a.caller]);
    }
  }

  /** Whatever the interleaving, `callers` concurrent stores overshoot the capacity by less than `callers`. */
  lemma {:induction false} CapacityBound(capacity: nat, callers: nat, actions: seq<Action>)
    requires callers > 0
    ensures var s := Run(capacity, callers, actions);
      |s.callers| == callers && Bounded(capacity, s) && |s.entries| <= capacity + callers - 1
  {
    if actions == [] {
      NonePending(Init(callers).callers);
    } else {
      CapacityBound(capacity, callers, actions[..|actions| - 1]);
      BoundedStep(capacity, Run(capacity, callers, actions[..|actions| - 1]), actions[|actions| - 1]);
    }
  }

  // ---------- The bound is reached ----------

  function Below(n: nat): (b: set<nat>)
    ensures forall i: nat :: i in b <==> i < n
  {
    if n == 0 then {} else Below(n - 1) + {n - 1}
  }

  lemma {:induction false} BelowSize(n: nat)
    ensures |Below(n)| == n
  {
    if n > 0 {
      BelowSize(n - 1);
    }
  }

  lemma OneMore(capacity: nat, callers: nat, actions: seq<Action>, a: Action)
    ensures Run(capacity, callers, actions + [a]) == Apply(capacity, Run(capacity, callers, actions), a)
  {
    assert (actions + [a])[..|actions|] == actions;
  }

  /** An idle caller passes the check. */
  lemma Passes(capacity: nat, callers: nat, before: seq<Action>, c: nat, key: nat) returns (after: seq<Action>)
    requires var s := Run(capacity, callers, before); c < |s.callers| && s.callers[c].Idle? && |s.entries| < capacity
    ensures var s := Run(capacity, callers, before);
      Run(capacity, callers, after) == s.(callers := s.callers[c := Inserting(key)])
  {
    hide Run;
    OneMore(capacity, callers, before, Enter(c, key));
    var entered := before + [Enter(c, key)];
    OneMore(capacity, callers, entered, Check(c));
    after := entered + [Check(c)];
    var s := Run(capacity, callers, before);
    assert s.callers[c := Entered(key)][c := Inserting(key)] == s.callers[c := Inserting(key)];
  }

  lemma Inserts(capacity: nat, callers: nat, before: seq<Action>, c: nat)
    requires var s := Run(capacity, callers, before); c < |s.callers| && s.callers[c].Inserting?
    ensures var s := Run(capacity, callers, before);
      Run(capacity, callers, before + [Insert(c)]) == State(s.entries + {s.callers[c].key}, s.callers[c := Idle])
  {
    OneMore(capacity, callers, before, Insert(c));
  }

  lemma IdleAgain(callers: nat, key: nat)
    requires callers > 0
    ensures var idle := Init(callers).callers; |idle| == callers && idle[0].Idle? && idle[0 := Inserting(key)][0 := Idle] == idle
  {
  }

  lemma EmptyRun(capacity: nat, callers: nat)
    ensures Run(capacity, callers, []) == State(Below(0), Init(callers).callers)
  {
  }

  lemma {:induction false} Filled(capacity: nat, callers: nat, n: nat) returns (actions: seq<Action>)
    requires n < capacity && callers > 0
    ensures Run(capacity, callers, actions) == State(Below(n), Init(callers).callers)
  {
    hide Run, Apply, Init;
    if n == 0 {
      actions := [];
      EmptyRun(capacity, callers);
    } else {
      IdleAgain(callers, n - 1);
      var before := Filled(capacity, callers, n - 1);
      BelowSize(n - 1);
      var checked := Passes(capacity, callers, before, 0, n - 1);
      Inserts(capacity, callers, checked, 0);
      actions := checked + [Insert(0)];
    }
  }

  /** The first `k` callers have passed the check with keys from `base` on, the first `j` of them have inserted. */
  function Poised(callers: nat, base: nat, j: nat, k: nat): seq<Phase> {
    seq(callers, i requires 0 <= i < callers => if j <= i < k then Inserting(base + i) else Idle)
  }

  lemma PoisedSteps(callers: nat, base: nat, i: nat)
    requires i < callers
    ensures var p := Poised(callers, base, 0, i);
      |p| == callers && p[i].Idle? && p[i := Inserting(base + i)] == Poised(callers, base, 0, i + 1)
    ensures var p := Poised(callers, base, i, callers);
      |p| == callers && p[i] == Inserting(base + i) && p[i := Idle] == Poised(callers, base, i + 1, callers)
    ensures Poised(callers, base, 0, 0) == Init(callers).callers
  {
  }

  lemma {:induction false} AllChecked(capacity: nat, callers: nat, k: nat) returns (actions: seq<Action>)
    requires capacity > 0 && callers > 0 && k <= callers
    ensures Run(capacity, callers, actions) == State(Below(capacity - 1), Poised(callers, capacity - 1, 0, k))
  {
    hide Run, Apply, Poised, Below, Init;
    if k == 0 {
      actions := Filled(capacity, callers, capacity - 1);
      PoisedSteps(callers, capacity - 1, 0);
    } else {
      PoisedSteps(callers, capacity - 1, k - 1);
      var before := AllChecked(capacity, callers, k - 1);
      BelowSize(capacity - 1);
      actions := Passes(capacity, callers, before, k - 1, capacity - 1 + (k - 1));
    }
  }

  lemma {:induction false} AllInserted(capacity: nat, callers: nat, j: nat) returns (actions: seq<Action>)
    requires capacity > 0 && callers > 0 && j <= callers
    ensures Run(capacity, callers, actions) == State(Below(capacity - 1 + j), Poised(callers, capacity - 1, j, callers))
  {
    hide Run, Apply, Poised, Init;
    if j == 0 {
      actions := AllChecked(capacity, callers, callers);
    } else {
      PoisedSteps(callers, capacity - 1, j - 1);
      var before := AllInserted(capacity, callers, j - 1);
      Inserts(capacity, callers, before, j - 1);
      actions := before + [Insert(j - 1)];
    }
  }

  /** The overshoot really happens, for every capacity and every number of callers. */
  lemma BoundReached(capacity: nat, callers: nat) returns (actions: seq<Action>)
    requires capacity > 0 && callers > 0
    ensures |Run(capacity, callers, actions).entries| == capacity + callers - 1
  {
    hide Run, Poised, Below;
    actions := AllInserted(capacity, callers, callers);
    BelowSize(capacity + callers - 1);
  }
}
