// The lock-free version generator: any number of threads repeat "read clock, load, compare-and-swap"
// on one shared word until their swap succeeds.
//
// A run is any sequence of actions of any threads; an action that is not enabled changes nothing.
// Clock readings are arbitrary 64-bit values, and a relaxed load may return any value the word has ever held.

module Versions {
  import opened Common
  import opened Decimal

  /** Where a call stands. `since` is how many values had been published when it was invoked. */
  datatype Phase =
    | Idle
    | Invoked(since: nat)
    | Clocked(since: nat, timestamp: nat)
    | Loaded(since: nat, timestamp: nat, index: nat)
    | Won(since: nat, index: nat)

  /** `seen` is the newest value a thread has observed, by its position in the history. */
  datatype Thread = Thread(phase: Phase, seen: nat, failures: nat, successes: nat)

  /** `index` is the position in the history of the version that was returned. */
  datatype Event = Invoke(thread: nat, since: nat) | Return(thread: nat, index: nat)

  /** `history` lists the values of the shared word, oldest first; `coherent` says that so far no
      load went back behind a value its own thread had already observed. */
  datatype State = State(
    history: seq<nat>, threads: seq<Thread>, log: seq<Event>, clockMax: nat, coherent: bool)

  datatype Action =
    | Call(thread: nat)
    | ReadClock(thread: nat, timestamp: nat)
    | Load(thread: nat, index: nat)
    | CompareExchange(thread: nat)
    | Answer(thread: nat)

  function Last(s: seq<nat>): nat
    requires s != []
  {
    s[|s| - 1]
  }

  function SaturatingAdd1(n: nat): nat { if n < U64_MAX then n + 1 else n }

  function Candidate(timestamp: nat, current: nat): nat {
    if timestamp > current then timestamp else SaturatingAdd1(current)
  }

  function Init(threads: nat): State {
    State([0], seq(threads, _ => Thread(Idle, 0, 0, 0)), [], 0, true)
  }

  function Move(s: State, t: nat, thread: Thread): State
    requires t < |s.threads|
  {
    s.(threads := s.threads[t := thread])
  }

  function Apply(s: State, a: Action): State {
    var t := a.thread;
    if t >= |s.threads| || s.history == [] then s
    else
      var th := s.threads[t];
      var newest := |s.history| - 1;
      match a
      case Call(_) =>
        if !th.phase.Idle? then s
        else Move(s, t, th.(phase := Invoked(|s.history|))).(log := s.log + [Invoke(t, |s.history|)])
      case ReadClock(_, timestamp) =>
        if !th.phase.Invoked? || timestamp > U64_MAX then s
        else Move(s, t, th.(phase := Clocked(th.phase.since, timestamp)))
             .(clockMax := if timestamp > s.clockMax then timestamp else s.clockMax)
      case Load(_, index) =>
        if !th.phase.Clocked? || index > newest then s
        else Move(s, t, th.(phase := Loaded(th.phase.since, th.phase.timestamp, index),
                            seen := if index > th.seen then index else th.seen))
             .(coherent := s.coherent && th.seen <= index)
      case CompareExchange(_) =>
        if !th.phase.Loaded? || th.phase.index > newest then s
        else if s.history[th.phase.index] != s.history[newest] then
          Move(s, t, th.(phase := Invoked(th.phase.since), seen := newest, failures := th.failures + 1))
        else
          Move(s, t, th.(phase := Won(th.phase.since, newest + 1), seen := newest + 1, successes := th.successes + 1))
          .(history := s.history + [Candidate(th.phase.timestamp, s.history[newest])])
      case Answer(_) =>
        if !th.phase.Won? || th.phase.index > newest then s
        else Move(s, t, th.(phase := Idle)).(log := s.log + [Return(t, th.phase.index)])
  }

  function Run(threads: nat, actions: seq<Action>): State {
    if actions == [] then Init(threads) else Apply(Run(threads, actions[..|actions| - 1]), actions[|actions| - 1])
  }

  // ---------- What every step keeps ----------

  ghost predicate PhaseValid(p: Phase, s: State) {
    match p
    case Idle => true
    case Invoked(since) => since <= |s.history|
    case Clocked(since, ts) => since <= |s.history| && ts <= s.clockMax
    case Loaded(since, ts, i) => since <= |s.history| && ts <= s.clockMax && i < |s.history|
    case Won(since, i) => since <= i < |s.history|
  }

  /** The word never decreases, and stays within one of the clock per success. */
  ghost predicate Inv(s: State) {
    |s.history| >= 1 && s.clockMax <= U64_MAX &&
    (forall i :: 0 <= i < |s.history| ==> s.history[i] <= U64_MAX && s.history[i] <= s.clockMax + i) &&
    (forall i, j :: 0 <= i < j < |s.history| ==>
      s.history[i] < s.history[j] || s.history[i] == s.history[j] == U64_MAX) &&
    (forall t :: 0 <= t < |s.threads| ==> PhaseValid(s.threads[t].phase, s))
  }

  /** A successful swap publishes one more value. */
  lemma SwapInv(s: State, a: Action)
    requires Inv(s) && a.CompareExchange?
    ensures Inv(Apply(s, a))
  {
  }

  lemma InvStep(s: State, a: Action)
    requires Inv(s)
    ensures Inv(Apply(s, a))
  {
    if a.CompareExchange? {
      SwapInv(s, a);
    } else {
      assert Apply(s, a).history == s.history && Apply(s, a).clockMax >= s.clockMax;
    }
  }

  lemma {:induction false} InvRun(threads: nat, actions: seq<Action>)
    ensures Inv(Run(threads, actions))
  {
    if actions != [] {
      InvRun(threads, actions[..|actions| - 1]);
      InvStep(Run(threads, actions[..|actions| - 1]), actions[|actions| - 1]);
    }
  }

  // ---------- Published values ----------

  ghost predicate Increasing(h: seq<nat>) {
    forall i, j :: 0 <= i < j < |h| ==> h[i] < h[j]
  }

  /** Published versions strictly increase exactly when nothing is published over the largest value. */
  lemma IncreasingIff(threads: nat, actions: seq<Action>)
    ensures var h := Run(threads, actions).history;
      Increasing(h) <==> forall i :: 0 <= i < |h| - 1 ==> h[i] != U64_MAX
  {
    InvRun(threads, actions);
    var h := Run(threads, actions).history;
    if Increasing(h) {
      forall i | 0 <= i < |h| - 1 ensures h[i] != U64_MAX {
        assert h[i] < h[i + 1];
      }
    }
  }

  /** The clock and the number of successes bound the word, so far from 2^64 no increment saturates. */
  lemma NoSaturation(threads: nat, actions: seq<Action>)
    ensures var s := Run(threads, actions);
      s.history != [] && Last(s.history) <= s.clockMax + (|s.history| - 1) &&
      (s.clockMax + (|s.history| - 1) <= U64_MAX ==> Increasing(s.history))
  {
    InvRun(threads, actions);
  }

  lemma OneMore(threads: nat, before: seq<Action>, a: Action)
    ensures Run(threads, before + [a]) == Apply(Run(threads, before), a)
  {
    assert (before + [a])[..|before|] == before;
  }

  /** A call that nobody disturbs succeeds in its first round. */
  lemma SoloCall(threads: nat, before: seq<Action>, t: nat, timestamp: nat) returns (after: seq<Action>)
    requires t < |Run(threads, before).threads| && Run(threads, before).threads[t].phase.Idle? && timestamp <= U64_MAX
    ensures Run(threads, before).history != []
    ensures var s := Run(threads, before); var s' := Run(threads, after);
      s'.history == s.history + [Candidate(timestamp, Last(s.history))] &&
      s'.log == s.log + [Invoke(t, |s.history|), Return(t, |s.history|)] &&
      |s'.threads| == |s.threads| && s'.threads[t].phase.Idle?
  {
    InvRun(threads, before);
    hide Run;
    var newest := |Run(threads, before).history| - 1;
    OneMore(threads, before, Call(t));
    var a1 := before + [Call(t)];
    OneMore(threads, a1, ReadClock(t, timestamp));
    var a2 := a1 + [ReadClock(t, timestamp)];
    OneMore(threads, a2, Load(t, newest));
    var a3 := a2 + [Load(t, newest)];
    OneMore(threads, a3, CompareExchange(t));
    var a4 := a3 + [CompareExchange(t)];
    OneMore(threads, a4, Answer(t));
    after := a4 + [Answer(t)];
  }

  /** Two calls at the largest clock reading return the same version. */
  lemma SaturationRepeats() returns (actions: seq<Action>)
    ensures Run(1, actions).history == [0, U64_MAX, U64_MAX]
    ensures Run(1, actions).log == [Invoke(0, 1), Return(0, 1), Invoke(0, 2), Return(0, 2)]
  {
    var first := SoloCall(1, [], 0, U64_MAX);
    actions := SoloCall(1, first, 0, U64_MAX);
  }

  // ---------- Returned values ----------

  /** Events refer to published values, and a running call is its thread's latest. */
  ghost predicate LogBounds(s: State) {
    forall k :: 0 <= k < |s.log| ==> match s.log[k]
      case Return(_, i) => i < |s.history|
      case Invoke(t, since) => since <= |s.history| && SinceAtMost(s, t, since)
  }

  ghost predicate SinceAtMost(s: State, t: nat, since: nat) {
    t < |s.threads| && !s.threads[t].phase.Idle? ==> since <= s.threads[t].phase.since
  }

  /** A call publishes after everything that had returned when it was invoked. */
  ghost predicate LogOrder(s: State) {
    (forall j, k :: 0 <= j < k < |s.log| && s.log[j].Return? && s.log[k].Invoke? ==> s.log[j].index < s.log[k].since) &&
    (forall j, k :: 0 <= j < k < |s.log| && s.log[j].Invoke? && s.log[k].Return? && s.log[j].thread == s.log[k].thread ==>
      s.log[j].since <= s.log[k].index)
  }

  /** No value is returned twice, and none that is still to be returned has been returned. */
  ghost predicate LogDistinct(s: State) {
    (forall j, k :: 0 <= j < k < |s.log| && s.log[j].Return? && s.log[k].Return? ==> s.log[j].index != s.log[k].index) &&
    (forall k, t :: 0 <= k < |s.log| && s.log[k].Return? && 0 <= t < |s.threads| && s.threads[t].phase.Won? ==>
      s.log[k].index != s.threads[t].phase.index) &&
    (forall t, u :: 0 <= t < u < |s.threads| && s.threads[t].phase.Won? && s.threads[u].phase.Won? ==>
      s.threads[t].phase.index != s.threads[u].phase.index)
  }

  lemma LogBoundsStep(s: State, a: Action)
    requires Inv(s) && LogBounds(s)
    ensures LogBounds(Apply(s, a))
  {
  }

  lemma LogOrderStep(s: State, a: Action)
    requires Inv(s) && LogBounds(s) && LogOrder(s)
    ensures LogOrder(Apply(s, a))
  {
  }

  lemma LogDistinctStep(s: State, a: Action)
    requires Inv(s) && LogBounds(s) && LogDistinct(s)
    ensures LogDistinct(Apply(s, a))
  {
  }

  lemma {:induction false} LogInvRun(threads: nat, actions: seq<Action>)
    ensures var s := Run(threads, actions); LogBounds(s) && LogOrder(s) && LogDistinct(s)
  {
    if actions != [] {
      var before, a := actions[..|actions| - 1], actions[|actions| - 1];
      LogInvRun(threads, before);
      InvRun(threads, before);
      LogBoundsStep(Run(threads, before), a);
      LogOrderStep(Run(threads, before), a);
      LogDistinctStep(Run(threads, before), a);
    }
  }

  /** Version returned by the `k`th event. */
  function Version(s: State, k: nat): nat
    requires k < |s.log| && s.log[k].Return? && s.log[k].index < |s.history|
  {
    s.history[s.log[k].index]
  }

  /** Below saturation, no two calls return the same version, and a call invoked after another
      has returned gets a larger one. */
  lemma UniqueAndOrdered(threads: nat, actions: seq<Action>)
    requires var s := Run(threads, actions); s.clockMax + (|s.history| - 1) <= U64_MAX
    ensures var s := Run(threads, actions);
      (forall k :: 0 <= k < |s.log| && s.log[k].Return? ==> s.log[k].index < |s.history|) &&
      (forall j, k :: 0 <= j < k < |s.log| && s.log[j].Return? && s.log[k].Return? ==> Version(s, j) != Version(s, k)) &&
      (forall i, j, k ::
        0 <= i < j < k < |s.log| && s.log[i].Return? && s.log[j].Invoke? && s.log[k].Return? && s.log[j].thread == s.log[k].thread ==>
        Version(s, i) < Version(s, k))
  {
    NoSaturation(threads, actions);
    LogInvRun(threads, actions);
  }

  // ---------- Wasted rounds ----------

  function Successes(threads: seq<Thread>): nat {
    if threads == [] then 0 else Successes(threads[..|threads| - 1]) + threads[|threads| - 1].successes
  }

  /** The thread holds a value that has been overtaken, so its next swap must fail. */
  predicate Stale(h: seq<nat>, th: Thread) {
    th.phase.Loaded? && th.phase.index < |h| && h[th.phase.index] != Last(h)
  }

  /** Failed swaps, and swaps already bound to fail. */
  function Wasted(h: seq<nat>, threads: seq<Thread>): nat {
    if threads == [] then 0
    else
      var th := threads[|threads| - 1];
      Wasted(h, threads[..|threads| - 1]) + th.failures + if Stale(h, th) then 1 else 0
  }

  lemma {:induction false} SuccessesUpdate(threads: seq<Thread>, t: nat, th: Thread)
    requires t < |threads|
    ensures Successes(threads[t := th]) == Successes(threads) - threads[t].successes + th.successes
  {
    var n := |threads| - 1;
    if t == n {
      assert threads[t := th][..n] == threads[..n];
    } else {
      assert threads[t := th][..n] == threads[..n][t := th];
      SuccessesUpdate(threads[..n], t, th);
    }
  }

  /** A thread has observed a newer value for each of its failures and successes. */
  ghost predicate Progress(s: State) {
    forall t :: 0 <= t < |s.threads| ==> var th := s.threads[t];
      th.failures + th.successes <= th.seen < |s.history| && (th.phase.Loaded? ==> th.phase.index == th.seen)
  }

  lemma ProgressStep(s: State, a: Action)
    requires Inv(s) && (s.coherent ==> Progress(s))
    ensures Apply(s, a).coherent ==> Progress(Apply(s, a))
  {
  }

  lemma SuccessesStep(s: State, a: Action)
    requires Inv(s) && Successes(s.threads) == |s.history| - 1
    ensures Successes(Apply(s, a).threads) == |Apply(s, a).history| - 1 && |Apply(s, a).threads| == |s.threads|
  {
    if a.thread < |s.threads| {
      SuccessesUpdate(s.threads, a.thread, Apply(s, a).threads[a.thread]);
    }
  }

  lemma {:induction false} NoSuccesses(threads: seq<Thread>)
    requires forall t :: 0 <= t < |threads| ==> threads[t].successes == 0
    ensures Successes(threads) == 0
  {
    if threads != [] {
      NoSuccesses(threads[..|threads| - 1]);
    }
  }

  lemma {:induction false} ProgressRun(threads: nat, actions: seq<Action>)
    ensures var s := Run(threads, actions);
      (s.coherent ==> Progress(s)) && |s.threads| == threads && s.history != [] && Successes(s.threads) == |s.history| - 1
  {
    InvRun(threads, actions);
    if actions == [] {
      NoSuccesses(Init(threads).threads);
    } else {
      var before, a := actions[..|actions| - 1], actions[|actions| - 1];
      ProgressRun(threads, before);
      InvRun(threads, before);
      ProgressStep(Run(threads, before), a);
      SuccessesStep(Run(threads, before), a);
    }
  }

  /** `k` times `n`. */
  function Times(k: nat, n: nat): nat { if k == 0 then 0 else Times(k - 1, n) + n }

  lemma {:induction false} TimesIsProduct(k: nat, n: nat)
    ensures Times(k, n) == k * n
  {
    if k > 0 {
      TimesIsProduct(k - 1, n);
      assert k * n == (k - 1) * n + n;
    }
  }

  lemma {:induction false} WastedBound(h: seq<nat>, threads: seq<Thread>)
    requires h != []
    requires forall t :: 0 <= t < |threads| ==> var th := threads[t];
      th.failures + th.successes <= th.seen < |h| && (th.phase.Loaded? ==> th.phase.index == th.seen)
    ensures Wasted(h, threads) + Successes(threads) <= Times(|threads|, |h| - 1)
  {
    if threads != [] {
      var k := |threads| - 1;
      WastedBound(h, threads[..k]);
      var th := threads[k];
      assert th.failures + th.successes + (if Stale(h, th) then 1 else 0) <= |h| - 1;
    }
  }

  /** As long as no thread's loads go backwards, failed and doomed swaps are together at most
      (threads - 1) per success, whatever the clock does. */
  lemma RetryBound(threads: nat, actions: seq<Action>)
    requires threads > 0 && Run(threads, actions).coherent
    ensures var s := Run(threads, actions);
      Successes(s.threads) == |s.history| - 1 &&
      Wasted(s.history, s.threads) <= (threads - 1) * Successes(s.threads)
  {
    hide Run, Wasted, Successes, Apply;
    ProgressRun(threads, actions);
    var s := Run(threads, actions);
    WastedBound(s.history, s.threads);
    TimesIsProduct(threads - 1, |s.history| - 1);
  }

  /** Every load returns the newest value. */
  ghost predicate LoadsCurrent(threads: nat, actions: seq<Action>) {
    forall i :: 0 <= i < |actions| && actions[i].Load? ==> actions[i].index + 1 >= |Run(threads, actions[..i]).history|
  }

  lemma CurrentLoadStep(s: State, a: Action)
    requires s.history != [] && s.coherent && Progress(s) && (a.Load? ==> a.index + 1 >= |s.history|)
    ensures Apply(s, a).coherent
  {
  }

  lemma LoadsCurrentPrefix(threads: nat, actions: seq<Action>)
    requires actions != [] && LoadsCurrent(threads, actions)
    ensures var n := |actions| - 1;
      LoadsCurrent(threads, actions[..n]) && (actions[n].Load? ==> actions[n].index + 1 >= |Run(threads, actions[..n]).history|)
  {
    hide Run;
    var n := |actions| - 1;
    var before := actions[..n];
    assert forall i :: 0 <= i < n ==> before[..i] == actions[..i] && before[i] == actions[i];
  }

  /** Loads of the current value never go backwards, so the bound holds for them in particular. */
  lemma {:induction false} CurrentLoadsCoherent(threads: nat, actions: seq<Action>)
    requires LoadsCurrent(threads, actions)
    ensures Run(threads, actions).coherent
  {
    hide LoadsCurrent, Apply, Progress, Successes;
    if actions != [] {
      var n := |actions| - 1;
      LoadsCurrentPrefix(threads, actions);
      CurrentLoadsCoherent(threads, actions[..n]);
      ProgressRun(threads, actions[..n]);
      CurrentLoadStep(Run(threads, actions[..n]), actions[n]);
    }
  }
}
