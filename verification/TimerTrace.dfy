/** What a timer service may do, seen from outside: a plain multiset of pending
    timers and a clock, with no wheel.  The timing wheel is proved to behave like
    this, and the promises of the service are proved of it. */
module TimerTrace {

  /** A timer that was set: its id and tick, the clock when it was set, and the number
      of the setting.  The source does not store the last two; they tell two settings
      apart and say which of them came first. */
  datatype Timer = Timer(id: int, tick: nat, born: nat, serial: nat)

  datatype Event =
    | Fire(t: Timer, at: nat)   // the callback of t is called while the clock shows at
    | Add(t: Timer)             // t becomes pending
    | Discard(t: Timer)         // t is too far away and is dropped at once
    | Refuse                    // a request is turned down before any timer exists
    | Tick                      // the clock advances by one

  /** The largest distance a timer may lie ahead of the clock. */
  const MAX_DISTANCE: nat := 0xffff_ffff

  /** Set for the same tick while the clock showed the same. */
  predicate Alike(t: Timer, u: Timer) {
    t.tick == u.tick && t.born == u.born
  }

  /** Nothing pending that is like `t` was set before it. */
  ghost predicate Oldest(t: Timer, p: multiset<Timer>) {
    forall u {:trigger p[u]} :: u in p && Alike(t, u) ==> t.serial <= u.serial
  }

  /** The events of `log` lead from clock `b0` and pending timers `p0` to `b` and `p`.
      A timer may fire only once its tick is reached and when none like it was set
      before, and the clock may advance only when nothing due is pending. */
  ghost predicate Trace(b0: nat, p0: multiset<Timer>, log: seq<Event>, b: nat, p: multiset<Timer>)
    decreases |log|
  {
    if log == [] then b == b0 && p == p0
    else
      var init := log[..|log| - 1];
      match log[|log| - 1]
      case Fire(t, at) => at == b && t.tick <= b && Oldest(t, p) && Trace(b0, p0, init, b, p + multiset{t})
      case Add(t) =>
        t in p && t.born == b && t.tick <= b + MAX_DISTANCE && Trace(b0, p0, init, b, p - multiset{t})
      case Discard(t) => t.tick > b + MAX_DISTANCE && Trace(b0, p0, init, b, p)
      case Refuse => Trace(b0, p0, init, b, p)
      case Tick => b > 0 && (forall t {:trigger p[t]} :: t in p ==> t.tick >= b) && Trace(b0, p0, init, b - 1, p)
  }

  lemma TraceFires(b0: nat, p0: multiset<Timer>, log: seq<Event>, b: nat, p: multiset<Timer>, t: Timer)
    requires Trace(b0, p0, log, b, p) && t in p && t.tick <= b && Oldest(t, p)
    ensures Trace(b0, p0, log + [Fire(t, b)], b, p - multiset{t})
  {
    assert (log + [Fire(t, b)])[..|log|] == log;
    assert p - multiset{t} + multiset{t} == p;
    assert forall u :: u in p - multiset{t} ==> u in p;
  }

  lemma TraceAdds(b0: nat, p0: multiset<Timer>, log: seq<Event>, b: nat, p: multiset<Timer>, t: Timer)
    requires Trace(b0, p0, log, b, p) && t.born == b
    ensures t.tick <= b + MAX_DISTANCE ==> Trace(b0, p0, log + [Add(t)], b, p + multiset{t})
    ensures t.tick > b + MAX_DISTANCE ==> Trace(b0, p0, log + [Discard(t)], b, p)
  {
    assert (log + [Add(t)])[..|log|] == log;
    assert (log + [Discard(t)])[..|log|] == log;
    assert p + multiset{t} - multiset{t} == p;
  }

  lemma TraceRefuses(b0: nat, p0: multiset<Timer>, log: seq<Event>, b: nat, p: multiset<Timer>)
    requires Trace(b0, p0, log, b, p)
    ensures Trace(b0, p0, log + [Refuse], b, p)
  {
    assert (log + [Refuse])[..|log|] == log;
  }

  lemma TraceTicks(b0: nat, p0: multiset<Timer>, log: seq<Event>, b: nat, p: multiset<Timer>)
    requires Trace(b0, p0, log, b, p) && forall t :: t in p ==> t.tick > b
    ensures Trace(b0, p0, log + [Tick], b + 1, p)
  {
    assert (log + [Tick])[..|log|] == log;
  }

  /** Traces compose. */
  lemma {:induction false} TraceJoins(b0: nat, p0: multiset<Timer>, log: seq<Event>, b: nat, p: multiset<Timer>,
                                      log': seq<Event>, b': nat, p': multiset<Timer>)
    requires Trace(b0, p0, log, b, p) && Trace(b, p, log', b', p')
    ensures Trace(b0, p0, log + log', b', p')
    decreases |log'|
  {
    if log' == [] {
      assert log + log' == log;
    } else {
      var n := |log'| - 1;
      var init := log'[..n];
      assert (log + log')[..|log + log'| - 1] == log + init;
      match log'[n]
      case Fire(t, at) => TraceJoins(b0, p0, log, b, p, init, b', p' + multiset{t});
      case Add(t) => TraceJoins(b0, p0, log, b, p, init, b', p' - multiset{t});
      case Discard(t) => TraceJoins(b0, p0, log, b, p, init, b', p');
      case Refuse => TraceJoins(b0, p0, log, b, p, init, b', p');
      case Tick => TraceJoins(b0, p0, log, b, p, init, b' - 1, p');
    }
  }

  // ----- What a trace promises -----

  ghost function Added(log: seq<Event>): multiset<Timer>
    decreases |log|
  {
    if log == [] then multiset{}
    else
      var e := log[|log| - 1];
      Added(log[..|log| - 1]) + (if e.Add? then multiset{e.t} else multiset{})
  }

  ghost function Fired(log: seq<Event>): multiset<Timer>
    decreases |log|
  {
    if log == [] then multiset{}
    else
      var e := log[|log| - 1];
      Fired(log[..|log| - 1]) + (if e.Fire? then multiset{e.t} else multiset{})
  }

  lemma {:induction false} Balance(b0: nat, p0: multiset<Timer>, log: seq<Event>, b: nat, p: multiset<Timer>, t: Timer)
    requires Trace(b0, p0, log, b, p)
    ensures p0[t] + Added(log)[t] == p[t] + Fired(log)[t]
    decreases |log|
  {
    if log != [] {
      var init := log[..|log| - 1];
      match log[|log| - 1]
      case Fire(u, at) => Balance(b0, p0, init, b, p + multiset{u}, t);
      case Add(u) => Balance(b0, p0, init, b, p - multiset{u}, t);
      case Discard(u) => Balance(b0, p0, init, b, p, t);
      case Refuse => Balance(b0, p0, init, b, p, t);
      case Tick => Balance(b0, p0, init, b - 1, p, t);
    }
  }

  /** No timer is lost, invented or fired twice. */
  lemma Conservation(b0: nat, p0: multiset<Timer>, log: seq<Event>, b: nat, p: multiset<Timer>)
    requires Trace(b0, p0, log, b, p)
    ensures p0 + Added(log) == p + Fired(log)
  {
    forall t: Timer
      ensures (p0 + Added(log))[t] == (p + Fired(log))[t]
    {
      Balance(b0, p0, log, b, p, t);
    }
  }

  /** No timer fires before its tick, and the clock never runs backwards: the
      callbacks are called at non-decreasing clock values. */
  lemma {:induction false} NeverEarly(b0: nat, p0: multiset<Timer>, log: seq<Event>, b: nat, p: multiset<Timer>)
    requires Trace(b0, p0, log, b, p)
    ensures b0 <= b
    ensures forall i :: 0 <= i < |log| && log[i].Fire? ==> log[i].t.tick <= log[i].at && b0 <= log[i].at <= b
    ensures forall i, j :: 0 <= i < j < |log| && log[i].Fire? && log[j].Fire? ==> log[i].at <= log[j].at
    decreases |log|
  {
    hide Oldest;
    if log != [] {
      var n := |log| - 1;
      var init := log[..n];
      match log[n]
      case Fire(t, at) => NeverEarly(b0, p0, init, b, p + multiset{t});
      case Add(t) => NeverEarly(b0, p0, init, b, p - multiset{t});
      case Discard(t) => NeverEarly(b0, p0, init, b, p);
      case Refuse => NeverEarly(b0, p0, init, b, p);
      case Tick => NeverEarly(b0, p0, init, b - 1, p);
      assert forall i :: 0 <= i < n ==> init[i] == log[i];
    }
  }

  /** Every timer that is added is still ahead of the clock or due just then. */
  ghost predicate AddsOnTime(b0: nat, log: seq<Event>)
    decreases |log|
  {
    log != [] ==>
      var e := log[|log| - 1];
      AddsOnTime(b0, log[..|log| - 1]) && (e.Add? ==> e.t.tick >= ClockAfter(b0, log[..|log| - 1]))
  }

  function ClockAfter(b0: nat, log: seq<Event>): nat
    decreases |log|
  {
    if log == [] then b0
    else ClockAfter(b0, log[..|log| - 1]) + (if log[|log| - 1].Tick? then 1 else 0)
  }

  lemma {:induction false} ClockIsClock(b0: nat, p0: multiset<Timer>, log: seq<Event>, b: nat, p: multiset<Timer>)
    requires Trace(b0, p0, log, b, p)
    ensures ClockAfter(b0, log) == b
    decreases |log|
  {
    if log != [] {
      var init := log[..|log| - 1];
      match log[|log| - 1]
      case Fire(t, at) => ClockIsClock(b0, p0, init, b, p + multiset{t});
      case Add(t) => ClockIsClock(b0, p0, init, b, p - multiset{t});
      case Discard(t) => ClockIsClock(b0, p0, init, b, p);
      case Refuse => ClockIsClock(b0, p0, init, b, p);
      case Tick => ClockIsClock(b0, p0, init, b - 1, p);
    }
  }

  lemma {:induction false} EachOnTime(b0: nat, p0: multiset<Timer>, log: seq<Event>, b: nat, p: multiset<Timer>)
    requires Trace(b0, p0, log, b, p) && AddsOnTime(b0, log)
    requires forall t :: t in p0 ==> t.tick >= b0
    ensures forall t :: t in p ==> t.tick >= b
    ensures forall i :: 0 <= i < |log| && log[i].Fire? ==> log[i].at == log[i].t.tick
    decreases |log|
  {
    hide Oldest;
    if log != [] {
      var n := |log| - 1;
      var init := log[..n];
      assert forall i :: 0 <= i < n ==> init[i] == log[i];
      match log[n]
      case Fire(t, at) =>
        EachOnTime(b0, p0, init, b, p + multiset{t});
        assert t in p + multiset{t};
        assert forall u :: u in p ==> u in p + multiset{t};
      case Add(t) =>
        ClockIsClock(b0, p0, init, b, p - multiset{t});
        EachOnTime(b0, p0, init, b, p - multiset{t});
        assert forall u :: u in p && u != t ==> u in p - multiset{t};
      case Discard(t) => EachOnTime(b0, p0, init, b, p);
      case Refuse => EachOnTime(b0, p0, init, b, p);
      case Tick => EachOnTime(b0, p0, init, b - 1, p);
    }
  }

  /** Timers added on time fire exactly at their tick, so in non-decreasing order of
      their ticks. */
  lemma AllOnTime(b0: nat, p0: multiset<Timer>, log: seq<Event>, b: nat, p: multiset<Timer>)
    requires Trace(b0, p0, log, b, p) && AddsOnTime(b0, log)
    requires forall t :: t in p0 ==> t.tick >= b0
    ensures forall t :: t in p ==> t.tick >= b
    ensures forall i :: 0 <= i < |log| && log[i].Fire? ==> log[i].at == log[i].t.tick
    ensures forall i, j :: 0 <= i < j < |log| && log[i].Fire? && log[j].Fire? ==> log[i].t.tick <= log[j].t.tick
  {
    NeverEarly(b0, p0, log, b, p);
    EachOnTime(b0, p0, log, b, p);
  }

  // ----- When each timer fires -----

  function Later(m: nat, n: nat): nat {
    if m < n then n else m
  }

  /** How often `t` fires while the clock shows `at`. */
  function FiresAt(log: seq<Event>, t: Timer, at: nat): nat {
    if log == [] then 0
    else FiresAt(log[..|log| - 1], t, at) + (if log[|log| - 1] == Fire(t, at) then 1 else 0)
  }

  /** How often `t` is set such that the later of its tick and the clock at that moment
      is `at`. */
  function SetFor(b0: nat, log: seq<Event>, t: Timer, at: nat): nat {
    if log == [] then 0
    else
      var init := log[..|log| - 1];
      SetFor(b0, init, t, at) + (if log[|log| - 1] == Add(t) && Later(t.tick, ClockAfter(b0, init)) == at then 1 else 0)
  }

  /** How often `t` is pending for the moment `at`, when the clock shows `b`. */
  function PendingFor(p: multiset<Timer>, b: nat, t: Timer, at: nat): nat {
    if Later(t.tick, b) == at then p[t] else 0
  }

  lemma {:induction false} EachAtItsTime(b0: nat, p0: multiset<Timer>, log: seq<Event>, b: nat, p: multiset<Timer>,
                                         t: Timer, at: nat)
    requires Trace(b0, p0, log, b, p)
    ensures FiresAt(log, t, at) + PendingFor(p, b, t, at) == PendingFor(p0, b0, t, at) + SetFor(b0, log, t, at)
    decreases |log|
  {
    if log != [] {
      var init := log[..|log| - 1];
      match log[|log| - 1]
      case Fire(u, _) => EachAtItsTime(b0, p0, init, b, p + multiset{u}, t, at);
      case Add(u) =>
        ClockIsClock(b0, p0, init, b, p - multiset{u});
        EachAtItsTime(b0, p0, init, b, p - multiset{u}, t, at);
      case Discard(u) => EachAtItsTime(b0, p0, init, b, p, t, at);
      case Refuse => EachAtItsTime(b0, p0, init, b, p, t, at);
      case Tick =>
        assert p[t] > 0 ==> t in p;
        EachAtItsTime(b0, p0, init, b - 1, p, t, at);
    }
  }

  /** Every timer fires at the later of its tick and the clock when it was set, as often
      as it was set, whatever else is pending or late. */
  lemma FiresWhenDue(b0: nat, p0: multiset<Timer>, log: seq<Event>, b: nat, p: multiset<Timer>, t: Timer, at: nat)
    requires Trace(b0, p0, log, b, p) && at < b
    ensures FiresAt(log, t, at) == PendingFor(p0, b0, t, at) + SetFor(b0, log, t, at)
  {
    EachAtItsTime(b0, p0, log, b, p, t, at);
  }

  /** Of two timers that fire on time, the one that fires first has the smaller tick or
      the same one. */
  lemma OnTimeInOrder(b0: nat, p0: multiset<Timer>, log: seq<Event>, b: nat, p: multiset<Timer>, i: nat, j: nat)
    requires Trace(b0, p0, log, b, p) && i < j < |log|
    requires log[i].Fire? && log[i].at == log[i].t.tick && log[j].Fire? && log[j].at == log[j].t.tick
    ensures log[i].t.tick <= log[j].t.tick
  {
    NeverEarly(b0, p0, log, b, p);
  }

  /** When the clock has just advanced past T, what has fired is exactly what was
      pending or added with a tick up to T, as often as it was set. */
  lemma FiresExactlyTheDue(b0: nat, p0: multiset<Timer>, log: seq<Event>, T: nat, p: multiset<Timer>, t: Timer)
    requires Trace(b0, p0, log, T + 1, p) && log != [] && log[|log| - 1] == Tick
    ensures Fired(log)[t] == if t.tick <= T then (p0 + Added(log))[t] else 0
  {
    Conservation(b0, p0, log, T + 1, p);
    var init := log[..|log| - 1];
    FiredAreDue(b0, p0, init, T, p, t);
    if t.tick <= T {
      assert t !in p;
    } else {
      assert Fired(log)[t] == Fired(init)[t] == 0;
    }
  }

  lemma {:induction false} FiredAreDue(b0: nat, p0: multiset<Timer>, log: seq<Event>, b: nat, p: multiset<Timer>,
                                       t: Timer)
    requires Trace(b0, p0, log, b, p)
    ensures b < t.tick ==> Fired(log)[t] == 0
    decreases |log|
  {
    if log != [] {
      var init := log[..|log| - 1];
      match log[|log| - 1]
      case Fire(u, at) => FiredAreDue(b0, p0, init, b, p + multiset{u}, t);
      case Add(u) => FiredAreDue(b0, p0, init, b, p - multiset{u}, t);
      case Discard(u) => FiredAreDue(b0, p0, init, b, p, t);
      case Refuse => FiredAreDue(b0, p0, init, b, p, t);
      case Tick => FiredAreDue(b0, p0, init, b - 1, p, t);
    }
  }

  // ----- Over all timers -----

  /** What has fired is exactly what was pending or set with a tick up to `T`. */
  ghost predicate FiredTheDue(p0: multiset<Timer>, log: seq<Event>, T: nat) {
    forall t :: Fired(log)[t] == if t.tick <= T then (p0 + Added(log))[t] else 0
  }

  /** Up to the clock `b`, every timer has fired at the later of its tick and the clock
      when it was set, as often as it was set. */
  ghost predicate Punctual(b0: nat, p0: multiset<Timer>, log: seq<Event>, b: nat) {
    forall t: Timer, at: nat :: at < b ==>
      FiresAt(log, t, at) == PendingFor(p0, b0, t, at) + SetFor(b0, log, t, at)
  }

  lemma DueHaveFired(b0: nat, p0: multiset<Timer>, log: seq<Event>, T: nat, p: multiset<Timer>)
    requires Trace(b0, p0, log, T + 1, p) && log != [] && log[|log| - 1] == Tick
    ensures FiredTheDue(p0, log, T)
  {
    forall t: Timer
      ensures Fired(log)[t] == if t.tick <= T then (p0 + Added(log))[t] else 0
    {
      FiresExactlyTheDue(b0, p0, log, T, p, t);
    }
  }

  lemma AllFireWhenDue(b0: nat, p0: multiset<Timer>, log: seq<Event>, b: nat, p: multiset<Timer>)
    requires Trace(b0, p0, log, b, p)
    ensures Punctual(b0, p0, log, b)
  {
    forall t: Timer, at: nat | at < b
      ensures FiresAt(log, t, at) == PendingFor(p0, b0, t, at) + SetFor(b0, log, t, at)
    {
      FiresWhenDue(b0, p0, log, b, p, t, at);
    }
  }

  // ----- Timers that are set for the same tick -----

  /** How many timers are set in a log. */
  function Settings(log: seq<Event>): nat {
    if log == [] then 0
    else Settings(log[..|log| - 1]) + (if log[|log| - 1].Add? || log[|log| - 1].Discard? then 1 else 0)
  }

  /** The timers of the log are numbered from `n` as they are set. */
  ghost predicate Numbered(n: nat, log: seq<Event>) {
    forall i {:trigger log[i]} :: 0 <= i < |log| && log[i].Add? ==> log[i].t.serial == n + Settings(log[..i])
  }

  lemma NumberedStep(n: nat, log: seq<Event>, e: Event)
    requires Numbered(n, log) && (e.Add? ==> e.t.serial == n + Settings(log))
    ensures Numbered(n, log + [e])
    ensures Settings(log + [e]) == Settings(log) + (if e.Add? || e.Discard? then 1 else 0)
  {
    var log' := log + [e];
    assert log'[..|log|] == log;
    forall i | 0 <= i < |log'| && log'[i].Add?
      ensures log'[i].t.serial == n + Settings(log'[..i])
    {
      if i < |log| {
        assert log'[..i] == log[..i] && log'[i] == log[i];
      }
    }
  }

  lemma {:induction false} SettingsGrow(log: seq<Event>, i: nat, j: nat)
    requires i < j <= |log|
    ensures Settings(log[..i]) + (if log[i].Add? then 1 else 0) <= Settings(log[..j])
    decreases j
  {
    assert log[..j][..j - 1] == log[..j - 1];
    if i < j - 1 {
      SettingsGrow(log, i, j - 1);
    }
  }

  lemma {:induction false} SettingsJoin(log: seq<Event>, log': seq<Event>)
    ensures Settings(log + log') == Settings(log) + Settings(log')
    decreases |log'|
  {
    if log' == [] {
      assert log + log' == log;
    } else {
      var n := |log'| - 1;
      SettingsJoin(log, log'[..n]);
      assert (log + log')[..|log| + n] == log + log'[..n];
    }
  }

  /** The numbering goes on from one log to the next. */
  lemma NumberedJoins(n: nat, log: seq<Event>, log': seq<Event>)
    requires Numbered(n, log) && Numbered(n + Settings(log), log')
    ensures Numbered(n, log + log') && Settings(log + log') == Settings(log) + Settings(log')
  {
    SettingsJoin(log, log');
    var all := log + log';
    forall i | 0 <= i < |all| && all[i].Add?
      ensures all[i].t.serial == n + Settings(all[..i])
    {
      if i < |log| {
        assert all[..i] == log[..i] && all[i] == log[i];
      } else {
        assert all[..i] == log + log'[..i - |log|] && all[i] == log'[i - |log|];
        SettingsJoin(log, log'[..i - |log|]);
      }
    }
  }

  /** The events of a trace up to any moment are a trace. */
  lemma {:induction false} TraceUpTo(b0: nat, p0: multiset<Timer>, log: seq<Event>, b: nat, p: multiset<Timer>, k: nat)
    returns (b1: nat, p1: multiset<Timer>)
    requires Trace(b0, p0, log, b, p) && k <= |log|
    ensures Trace(b0, p0, log[..k], b1, p1)
    decreases |log|
  {
    if k == |log| {
      assert log[..k] == log;
      b1, p1 := b, p;
    } else {
      var init := log[..|log| - 1];
      assert init[..k] == log[..k];
      match log[|log| - 1]
      case Fire(t, _) => b1, p1 := TraceUpTo(b0, p0, init, b, p + multiset{t}, k);
      case Add(t) => b1, p1 := TraceUpTo(b0, p0, init, b, p - multiset{t}, k);
      case Discard(_) => b1, p1 := TraceUpTo(b0, p0, init, b, p, k);
      case Refuse => b1, p1 := TraceUpTo(b0, p0, init, b, p, k);
      case Tick => b1, p1 := TraceUpTo(b0, p0, init, b - 1, p, k);
    }
  }

  /** When the event `Fire(t, _)` comes, nothing pending that is like `t` was set before it. */
  lemma OldestFires(b0: nat, p0: multiset<Timer>, log: seq<Event>, b: nat, p: multiset<Timer>, k: nat)
    returns (b1: nat, p1: multiset<Timer>)
    requires Trace(b0, p0, log, b, p) && k < |log| && log[k].Fire?
    ensures Trace(b0, p0, log[..k], b1, p1) && Oldest(log[k].t, p1) && log[k].t in p1
  {
    var b2, p2 := TraceUpTo(b0, p0, log, b, p, k + 1);
    assert log[..k + 1][..k] == log[..k] && log[..k + 1][k] == log[k];
    b1, p1 := b2, p2 + multiset{log[k].t};
  }

  lemma {:induction false} AddedIndex(log: seq<Event>, t: Timer) returns (i: nat)
    requires Added(log)[t] > 0
    ensures i < |log| && log[i] == Add(t)
    decreases |log|
  {
    var n := |log| - 1;
    if log[n] == Add(t) {
      i := n;
    } else {
      i := AddedIndex(log[..n], t);
    }
  }

  /** A timer is set once only. */
  lemma {:induction false} AddedOnce(n: nat, log: seq<Event>, k: nat, t: Timer)
    requires Numbered(n, log) && k <= |log|
    ensures Added(log[..k])[t] <= 1
    decreases k
  {
    if k > 0 {
      assert log[..k][..k - 1] == log[..k - 1];
      AddedOnce(n, log, k - 1, t);
      if log[k - 1] == Add(t) && Added(log[..k - 1])[t] > 0 {
        var i := AddedIndex(log[..k - 1], t);
        assert log[i] == Add(t);
        SettingsGrow(log, i, k - 1);
      }
    }
  }

  lemma {:induction false} AddCounts(log: seq<Event>, i: nat, k: nat)
    requires i < k <= |log| && log[i].Add?
    ensures Added(log[..k])[log[i].t] > 0
    decreases k
  {
    assert log[..k][..k - 1] == log[..k - 1];
    if i < k - 1 {
      AddCounts(log, i, k - 1);
    }
  }

  lemma BornWhenAdded(b0: nat, p0: multiset<Timer>, log: seq<Event>, b: nat, p: multiset<Timer>, i: nat)
    requires Trace(b0, p0, log, b, p) && i < |log| && log[i].Add?
    ensures log[i].t.born == ClockAfter(b0, log[..i])
  {
    var b1, p1 := TraceUpTo(b0, p0, log, b, p, i + 1);
    assert log[..i + 1][..i] == log[..i] && log[..i + 1][i] == log[i];
    ClockIsClock(b0, p0, log[..i], b1, p1 - multiset{log[i].t});
  }

  /** The timers of `p` were numbered before `n`. */
  ghost predicate Earlier(p: multiset<Timer>, n: nat) {
    forall u {:trigger p[u]} :: u in p ==> u.serial < n
  }

  /** A timer that fires was set before, and only once. */
  lemma SetBefore(b0: nat, p0: multiset<Timer>, n: nat, log: seq<Event>, b: nat, p: multiset<Timer>, j: nat, k: nat)
    requires Trace(b0, p0, log, b, p) && Numbered(n, log) && Earlier(p0, n)
    requires j < |log| && k < |log| && log[j].Add? && log[k].Fire? && log[k].t == log[j].t
    ensures j < k
  {
    var t := log[k].t;
    var b1, p1 := OldestFires(b0, p0, log, b, p, k);
    Balance(b0, p0, log[..k], b1, p1, t);
    assert p0[t] == 0 && p1[t] > 0;
    var m := AddedIndex(log[..k], t);
    assert log[m] == Add(t);
    if m < j {
      SettingsGrow(log, m, j);
    } else if j < m {
      SettingsGrow(log, j, m);
    }
  }

  /** The events `i` and `j` set two timers, one after the other, for the same tick and
      while the clock shows the same. */
  ghost predicate SetInTurn(b0: nat, log: seq<Event>, i: int, j: int) {
    && 0 <= i < j < |log| && log[i].Add? && log[j].Add? && log[i].t.tick == log[j].t.tick
    && ClockAfter(b0, log[..i]) == ClockAfter(b0, log[..j])
  }

  /** Of two timers that are set in turn, the one that was set first has fired, once, when
      the other fires. */
  lemma FirstSetFiresFirst(b0: nat, p0: multiset<Timer>, n: nat, log: seq<Event>, b: nat, p: multiset<Timer>,
                           i: nat, j: nat, k: nat)
    requires Trace(b0, p0, log, b, p) && Numbered(n, log) && Earlier(p0, n)
    requires SetInTurn(b0, log, i, j) && k < |log| && log[k].Fire? && log[k].t == log[j].t
    ensures Fired(log[..k])[log[i].t] == 1
  {
    BornWhenAdded(b0, p0, log, b, p, i);
    BornWhenAdded(b0, p0, log, b, p, j);
    SetBefore(b0, p0, n, log, b, p, j, k);
    SettingsGrow(log, i, j);
    var t := log[i].t;
    var b1, p1 := OldestFires(b0, p0, log, b, p, k);
    assert t !in p1 && t !in p0;
    Balance(b0, p0, log[..k], b1, p1, t);
    AddCounts(log, i, k);
    AddedOnce(n, log, k, t);
  }

  /** First set, first fired: the timers for one tick that are set while the clock stands
      still fire in the order in which they were set, each of them once. */
  ghost predicate FirstInFirstOut(b0: nat, log: seq<Event>) {
    && (forall i, k {:trigger log[i], Fired(log[..k])} ::
          0 <= i < |log| && log[i].Add? && 0 <= k <= |log| ==> Fired(log[..k])[log[i].t] <= 1)
    && (forall i, j, k {:trigger SetInTurn(b0, log, i, j), log[k]} ::
          SetInTurn(b0, log, i, j) && 0 <= k < |log| && log[k].Fire? && log[k].t == log[j].t ==>
            Fired(log[..k])[log[i].t] == 1)
  }

  lemma AllInTurn(b0: nat, p0: multiset<Timer>, n: nat, log: seq<Event>, b: nat, p: multiset<Timer>)
    requires Trace(b0, p0, log, b, p) && Numbered(n, log) && Earlier(p0, n)
    ensures FirstInFirstOut(b0, log)
  {
    forall i, k | 0 <= i < |log| && log[i].Add? && 0 <= k <= |log|
      ensures Fired(log[..k])[log[i].t] <= 1
    {
      var b1, p1 := TraceUpTo(b0, p0, log, b, p, k);
      Balance(b0, p0, log[..k], b1, p1, log[i].t);
      AddedOnce(n, log, k, log[i].t);
      assert log[i].t !in p0;
    }
    forall i, j, k | SetInTurn(b0, log, i, j) && 0 <= k < |log| && log[k].Fire? && log[k].t == log[j].t
      ensures Fired(log[..k])[log[i].t] == 1
    {
      FirstSetFiresFirst(b0, p0, n, log, b, p, i, j, k);
    }
  }
}
