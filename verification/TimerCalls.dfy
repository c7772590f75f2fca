/** What the callers of the timer service ask for, and when a log of events answers
    them. */
module TimerCalls {
  import opened TimerTrace

  const MAX_TIMERID: nat := 0x3ff_ffff
  const TWO_32: nat := 0x1_0000_0000

  function Wrap32(x: int): nat {
    x % TWO_32
  }

  /** msToTick: at least one tick for a non-zero interval, computed in 64 and kept in 32 bits. */
  function MsToTick(clkRate: nat, msCount: nat): (ticks: nat)
    ensures ticks == 0 <==> msCount == 0
    ensures clkRate < TWO_32 && msCount * clkRate < 1000 * TWO_32 ==>
              msCount * clkRate < (ticks + 1) * 1000 && (ticks > 1 ==> ticks * 1000 <= msCount * clkRate)
  {
    if msCount == 0 then 0
    else
      var ret := Wrap32(msCount * Wrap32(clkRate) / 1000);
      if ret > 0 then ret else 1
  }

  // ----- Requests -----

  /** What is asked for when a timer is to be set. */
  datatype Request = Request(id: int, tick: nat)

  function Asked(t: Timer): Request {
    Request(t.id, t.tick)
  }

  function Flat(batches: seq<seq<Request>>): seq<Request> {
    if batches == [] then [] else Flat(batches[..|batches| - 1]) + batches[|batches| - 1]
  }

  /** The timers that were asked for in a log, in order. */
  function Requested(log: seq<Event>): seq<Request> {
    if log == [] then []
    else
      var e := log[|log| - 1];
      Requested(log[..|log| - 1]) + (if e.Add? || e.Discard? then [Asked(e.t)] else [])
  }

  lemma RequestedStep(log: seq<Event>, e: Event)
    ensures Requested(log + [e]) == Requested(log) + (if e.Add? || e.Discard? then [Asked(e.t)] else [])
  {
    assert (log + [e])[..|log|] == log;
  }

  lemma {:induction false} RequestedJoins(log: seq<Event>, log': seq<Event>)
    ensures Requested(log + log') == Requested(log) + Requested(log')
    decreases |log'|
  {
    if log' == [] {
      assert log + log' == log;
    } else {
      var n := |log'| - 1;
      RequestedJoins(log, log'[..n]);
      assert log + log' == (log + log'[..n]) + [log'[n]];
      assert log' == log'[..n] + [log'[n]];
      RequestedStep(log + log'[..n], log'[n]);
      RequestedStep(log'[..n], log'[n]);
    }
  }

  // ----- Callbacks that set timers -----

  /** How many callbacks are called. */
  function Fires(log: seq<Event>): nat {
    if log == [] then 0 else Fires(log[..|log| - 1]) + (if log[|log| - 1].Fire? then 1 else 0)
  }

  /** The batches that the first `n` callbacks set; beyond the script they set nothing. */
  function Used(script: seq<seq<Request>>, n: nat): seq<seq<Request>> {
    if n <= |script| then script[..n] else script
  }

  /** The batches left over for later callbacks. */
  function Unused(script: seq<seq<Request>>, n: nat): seq<seq<Request>> {
    if n <= |script| then script[n..] else []
  }

  function Batch(script: seq<seq<Request>>, n: nat): seq<Request> {
    if n < |script| then script[n] else []
  }

  /** The timers asked for are just those of the callbacks called so far. */
  ghost predicate Settled(log: seq<Event>, script: seq<seq<Request>>) {
    Requested(log) == Flat(Used(script, Fires(log)))
  }

  /** Every callback sets its own batch of the script, before the next one is called and
      before the clock advances. */
  ghost predicate Answered(log: seq<Event>, script: seq<seq<Request>>) {
    log != [] ==>
      var init := log[..|log| - 1];
      && Answered(init, script)
      && match log[|log| - 1] {
           case Fire(_, _) => Settled(init, script)
           case Tick => Settled(init, script)
           case Refuse => false
           case _ => true
         }
  }

  lemma AnsweredStep(log: seq<Event>, e: Event, script: seq<seq<Request>>)
    requires Answered(log, script) && !e.Refuse? && (e.Fire? || e.Tick? ==> Settled(log, script))
    ensures Answered(log + [e], script) && Fires(log + [e]) == Fires(log) + (if e.Fire? then 1 else 0)
    ensures e.Tick? ==> Settled(log + [e], script)
  {
    assert (log + [e])[..|log|] == log;
    RequestedStep(log, e);
  }

  lemma FlatStep(batches: seq<seq<Request>>, batch: seq<Request>)
    ensures Flat(batches + [batch]) == Flat(batches) + batch
  {
    assert (batches + [batch])[..|batches|] == batches;
  }

  lemma UsedStep(script: seq<seq<Request>>, n: nat)
    ensures Flat(Used(script, n + 1)) == Flat(Used(script, n)) + Batch(script, n)
    ensures n < |script| ==> Unused(script, n) != [] && Unused(script, n)[0] == Batch(script, n)
    ensures n < |script| ==> Unused(script, n)[1..] == Unused(script, n + 1)
    ensures n >= |script| ==> Unused(script, n) == [] == Unused(script, n + 1) && Batch(script, n) == []
  {
    if n < |script| {
      assert script[..n + 1] == script[..n] + [script[n]];
      FlatStep(script[..n], script[n]);
    } else {
      assert Used(script, n) == script == Used(script, n + 1);
    }
  }

  // ----- Calls -----

  /** A call of the timer service, with the tick counter it reads. */
  datatype Call = SetAt(interval: nat, now: nat) | RunAt(now: nat, script: seq<seq<Request>>)

  /** The count of active timers after a log, from `c`: a refused request lowers it too. */
  function ActiveAfter(c: int, log: seq<Event>): int {
    if log == [] then c
    else
      ActiveAfter(c, log[..|log| - 1]) +
      match log[|log| - 1] {
        case Add(_) => 1
        case Fire(_, _) => -1
        case Refuse => -1
        case _ => 0
      }
  }

  lemma ActiveStep(c: int, log: seq<Event>, e: Event)
    ensures ActiveAfter(c, log + [e]) ==
            ActiveAfter(c, log) + (if e.Add? then 1 else if e.Fire? || e.Refuse? then -1 else 0)
  {
    assert (log + [e])[..|log|] == log;
  }

  lemma {:induction false} ActiveJoins(c: int, log: seq<Event>, log': seq<Event>)
    ensures ActiveAfter(c, log + log') == ActiveAfter(ActiveAfter(c, log), log')
    decreases |log'|
  {
    if log' == [] {
      assert log + log' == log;
    } else {
      var n := |log'| - 1;
      ActiveJoins(c, log, log'[..n]);
      assert log + log' == (log + log'[..n]) + [log'[n]];
      assert log' == log'[..n] + [log'[n]];
      ActiveStep(c, log + log'[..n], log'[n]);
      ActiveStep(ActiveAfter(c, log), log'[..n], log'[n]);
    }
  }

  /** What one call does when the clock shows `b` and `c` timers count as active: a timer
      is set, unless the count has no room for its id; a run handles every tick up to
      `now`, and its callbacks set what they are told to. */
  ghost predicate Answers(call: Call, clkRate: nat, b: nat, c: int, log: seq<Event>) {
    match call
    case SetAt(interval, now) =>
      if Wrap32(c + 1) >= MAX_TIMERID then log == [Refuse]
      else |log| == 1 && Requested(log) == [Request(Wrap32(c + 1) % 0x1_0000, MsToTick(clkRate, interval) + now)]
    case RunAt(now, script) =>
      && Answered(log, script) && Settled(log, script)
      && ClockAfter(b, log) == (if now < b then b else now + 1)
      && (if now < b then log == [] else log != [] && log[|log| - 1] == Tick)
  }

  function Joined(logs: seq<seq<Event>>): seq<Event> {
    if logs == [] then [] else Joined(logs[..|logs| - 1]) + logs[|logs| - 1]
  }

  lemma JoinedStep(logs: seq<seq<Event>>, log: seq<Event>)
    ensures Joined(logs + [log]) == Joined(logs) + log
  {
    assert (logs + [log])[..|logs|] == logs;
  }

  /** Every call does what it is asked for in the state that the calls before it leave. */
  ghost predicate Performed(calls: seq<Call>, clkRate: nat, b0: nat, c0: int, logs: seq<seq<Event>>) {
    && |logs| == |calls|
    && forall i :: 0 <= i < |calls| ==>
         var before := Joined(logs[..i]);
         Answers(calls[i], clkRate, ClockAfter(b0, before), ActiveAfter(c0, before), logs[i])
  }

  lemma PerformedStep(calls: seq<Call>, clkRate: nat, b0: nat, c0: int, logs: seq<seq<Event>>, call: Call,
                      log: seq<Event>)
    requires Performed(calls, clkRate, b0, c0, logs)
    requires Answers(call, clkRate, ClockAfter(b0, Joined(logs)), ActiveAfter(c0, Joined(logs)), log)
    ensures Performed(calls + [call], clkRate, b0, c0, logs + [log])
  {
    var calls', logs' := calls + [call], logs + [log];
    forall i | 0 <= i < |calls'|
      ensures var before := Joined(logs'[..i]);
              Answers(calls'[i], clkRate, ClockAfter(b0, before), ActiveAfter(c0, before), logs'[i])
    {
      assert logs'[..i] == logs[..i];
      assert i == |logs| ==> logs[..i] == logs;
    }
  }

  /** The timers that a sequence of calls sets are those its calls ask for, one after the
      other. */
  lemma {:induction false} RequestsInOrder(logs: seq<seq<Event>>)
    ensures Requested(Joined(logs)) == Flat(seq(|logs|, i requires 0 <= i < |logs| => Requested(logs[i])))
  {
    if logs != [] {
      var n := |logs| - 1;
      RequestsInOrder(logs[..n]);
      RequestedJoins(Joined(logs[..n]), logs[n]);
      var parts := seq(|logs|, i requires 0 <= i < |logs| => Requested(logs[i]));
      assert parts[..n] == seq(n, i requires 0 <= i < n => Requested(logs[..n][i]));
    }
  }
}
