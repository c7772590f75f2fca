/** The timer manager of platform/common/src/mxTimer.cpp.back: adding, cascading and
    running timers on the five wheels. */
module TimerManager {
  import opened Common
  import opened TimerTrace
  import opened TimerCalls
  import opened TimerWheel
  import opened WheelMoves
  import opened WheelOrder

  /** `log` leads from clock `b0` and pending timers `p0` to `b` and `p`. */
  ghost predicate Traced(b0: nat, p0: multiset<Timer>, log: seq<Event>, b: nat, p: multiset<Timer>) {
    Trace(b0, p0, log, b, p)
  }

  lemma AddIsTraced(b0: nat, p0: multiset<Timer>, log: seq<Event>, b: nat, p: multiset<Timer>, t: Timer)
    requires Traced(b0, p0, log, b, p) && t.born == b
    ensures t.tick <= b + MAX_DISTANCE ==> Traced(b0, p0, log + [Add(t)], b, p + multiset{t})
    ensures t.tick > b + MAX_DISTANCE ==> Traced(b0, p0, log + [Discard(t)], b, p)
  {
    TraceAdds(b0, p0, log, b, p, t);
  }

  lemma FireIsTraced(b0: nat, p0: multiset<Timer>, log: seq<Event>, b: nat, p: multiset<Timer>, t: Timer)
    requires Traced(b0, p0, log, b, p) && t in p && t.tick <= b && Oldest(t, p)
    ensures Traced(b0, p0, log + [Fire(t, b)], b, p - multiset{t})
    ensures |p - multiset{t}| == |p| - 1
  {
    TraceFires(b0, p0, log, b, p, t);
  }

  lemma TickIsTraced(tv: seq<TimerVec>, b0: nat, p0: multiset<Timer>, log: seq<Event>, b: nat, p: multiset<Timer>)
    requires Traced(b0, p0, log, b, p) && Holds(tv, p)
    requires Consistent(tv, b, Handling(b)) && tv[0].vec[b % TVR_SIZE] == []
    ensures Traced(b0, p0, log + [Tick], b + 1, p)
  {
    forall t | t in p
      ensures t.tick > b
    {
      HoldsCount(tv, p, t);
      NothingDue(tv, b, t);
    }
    TraceTicks(b0, p0, log, b, p);
  }

  /** Where a run begins: the clock, the pending timers, the number of the next setting,
      the count of active timers, and what the callbacks are going to set. */
  datatype Start = Start(b: nat, p: multiset<Timer>, n: nat, c: int, script: seq<seq<Request>>)

  /** The last call is a run that has a tick to handle. */
  ghost predicate EndsWithRun(calls: seq<Call>, b0: nat, logs: seq<seq<Event>>) {
    calls != [] && |logs| == |calls| && calls[|calls| - 1].RunAt?
    && calls[|calls| - 1].now >= ClockAfter(b0, Joined(logs[..|logs| - 1]))
  }

  lemma {:induction false} ClockJoins(b0: nat, log: seq<Event>, log': seq<Event>)
    ensures ClockAfter(b0, log + log') == ClockAfter(ClockAfter(b0, log), log')
    decreases |log'|
  {
    if log' == [] {
      assert log + log' == log;
    } else {
      var n := |log'| - 1;
      ClockJoins(b0, log, log'[..n]);
      assert (log + log')[..|log| + n] == log + log'[..n];
    }
  }

  lemma LastRunEnds(calls: seq<Call>, clkRate: nat, b0: nat, c0: int, logs: seq<seq<Event>>,
                    b: nat, p0: multiset<Timer>, p: multiset<Timer>)
    requires Performed(calls, clkRate, b0, c0, logs) && EndsWithRun(calls, b0, logs)
    requires Trace(b0, p0, Joined(logs), b, p)
    ensures b == calls[|calls| - 1].now + 1
    ensures Joined(logs) != [] && Joined(logs)[|Joined(logs)| - 1] == Tick
  {
    var n := |logs| - 1;
    ClockIsClock(b0, p0, Joined(logs), b, p);
    ClockJoins(b0, Joined(logs[..n]), logs[n]);
    assert Answers(calls[n], clkRate, ClockAfter(b0, Joined(logs[..n])), ActiveAfter(c0, Joined(logs[..n])), logs[n]);
  }

  lemma OneMoreCall(calls: seq<Call>, clkRate: nat, b0: nat, p0: multiset<Timer>, c0: int, logs: seq<seq<Event>>,
                    b: nat, p: multiset<Timer>, call: Call, more: seq<Event>, b': nat, p': multiset<Timer>)
    requires Traced(b0, p0, Joined(logs), b, p) && Performed(calls, clkRate, b0, c0, logs)
    requires Trace(b, p, more, b', p') && Answers(call, clkRate, b, ActiveAfter(c0, Joined(logs)), more)
    ensures Performed(calls + [call], clkRate, b0, c0, logs + [more])
    ensures Joined(logs + [more]) == Joined(logs) + more
    ensures Traced(b0, p0, Joined(logs) + more, b', p')
    ensures ActiveAfter(c0, Joined(logs) + more) == ActiveAfter(ActiveAfter(c0, Joined(logs)), more)
  {
    ClockIsClock(b0, p0, Joined(logs), b, p);
    PerformedStep(calls, clkRate, b0, c0, logs, call, more);
    TraceJoins(b0, p0, Joined(logs), b, p, more, b', p');
    ActiveJoins(c0, Joined(logs), more);
    JoinedStep(logs, more);
  }

  /** The two outcomes of a request for a timer. */
  lemma Refused(call: Call, clkRate: nat, b: nat, p: multiset<Timer>, c: int)
    requires call.SetAt? && Wrap32(c + 1) >= MAX_TIMERID
    ensures Answers(call, clkRate, b, c, [Refuse]) && Trace(b, p, [Refuse], b, p) && ActiveAfter(c, [Refuse]) == c - 1
  {
    TraceRefuses(b, p, [], b, p);
    ActiveStep(c, [], Refuse);
    assert [] + [Refuse] == [Refuse];
  }

  lemma Accepted(call: Call, clkRate: nat, b: nat, p: multiset<Timer>, c: int, e: Event)
    requires call.SetAt? && Wrap32(c + 1) < MAX_TIMERID && (e.Add? || e.Discard?)
    requires Asked(e.t) == Request(Wrap32(c + 1) % 0x1_0000, MsToTick(clkRate, call.interval) + call.now)
    requires e.t.born == b
    requires e.Add? <==> e.t.tick <= b + MAX_DISTANCE
    ensures Answers(call, clkRate, b, c, [e]) && Trace(b, p, [e], b, if e.Add? then p + multiset{e.t} else p)
    ensures ActiveAfter(c, [e]) == if e.Add? then c + 1 else c
  {
    TraceAdds(b, p, [], b, p, e.t);
    RequestedStep([], e);
    ActiveStep(c, [], e);
    assert [] + [e] == [e];
  }

  class TimerMgr {
    var mBaseTick: nat
    var tv: seq<TimerVec>
    /** The source keeps this count modulo 2^32; here it is wrapped where it is read. */
    var mActiveTimerCount: int
    var discardNum: nat
    const mClkRate: nat
    /** How many timers were set; not in the source, it numbers the settings. */
    var settings: nat
    /** The timers that are set and have not fired. */
    ghost var pending: multiset<Timer>
    /** How many requests were refused for want of an id. */
    ghost var refused: nat

    /** All wheels have their slots, all empty. */
    ghost predicate Empty()
      reads this
    {
      && |tv| == NOOF_TVECS
      && refused == 0 && pending == multiset{} && mActiveTimerCount == 0
      && Blank(tv[0], TVR_SIZE)
      && forall k :: 1 <= k < NOOF_TVECS ==> Blank(tv[k], TVN_SIZE)
    }

    ghost predicate Counted()
      reads this
    {
      mActiveTimerCount == |pending| - refused
    }

    /** Every timer is in its place and in its turn, `a` being the next blocks. */
    ghost predicate InPlace(a: seq<nat>)
      reads this
    {
      Consistent(tv, mBaseTick, a) && Holds(tv, pending) && Ranked(tv, mBaseTick, settings)
    }

    /** The state between two calls. */
    ghost predicate Valid()
      reads this
    {
      InPlace(Standing(mBaseTick)) && Counted()
    }

    /** The state while a tick is handled, after the cascades. */
    ghost predicate Running()
      reads this
    {
      InPlace(Handling(mBaseTick)) && Counted()
    }

    /** The events of `log` lead from the start of the run to the present state. */
    ghost predicate Serving(s: Start, log: seq<Event>)
      reads this
    {
      && Traced(s.b, s.p, log, mBaseTick, pending)
      && Numbered(s.n, log) && settings == s.n + Settings(log)
      && Answered(log, s.script) && ActiveAfter(s.c, log) == mActiveTimerCount
    }

    constructor (clkRate: nat)
      ensures Empty() && mClkRate == clkRate
    {
      mBaseTick := 0;
      mActiveTimerCount := 0;
      discardNum := 0;
      mClkRate := clkRate;
      settings := 0;
      refused := 0;
      pending := multiset{};
      // The source leaves the indices unset until ReviseBaseTick.
      var i1: nat, i2: nat, i3: nat, i4: nat, i5: nat := *, *, *, *, *;
      tv := [TimerVec(i1, 0, seq(TVR_SIZE, i => [])), TimerVec(i2, 0, seq(TVN_SIZE, i => [])),
             TimerVec(i3, 0, seq(TVN_SIZE, i => [])), TimerVec(i4, 0, seq(TVN_SIZE, i => [])),
             TimerVec(i5, 0, seq(TVN_SIZE, i => []))];
    }

    /** Sets the clock and every index from the current tick; a tick that is a multiple
        of 256 is skipped, since the outer wheels are set past it already. */
    method ReviseBaseTick(curTick: nat)
      requires Empty()
      modifies this`mBaseTick, this`tv
      ensures Valid() && pending == multiset{}
      ensures mBaseTick == if curTick % TVR_SIZE == 0 then curTick + 1 else curTick
    {
      var index1 := curTick % TVR_SIZE;
      var index2 := curTick / 0x100 % TVN_SIZE;
      var index3 := curTick / 0x4000 % TVN_SIZE;
      var index4 := curTick / 0x10_0000 % TVN_SIZE;
      var index5 := curTick / 0x400_0000 % TVN_SIZE;
      mBaseTick := curTick;
      if index1 == 0 {
        index1 := index1 + 1;
        mBaseTick := mBaseTick + 1;
      }
      tv := [tv[0].(index := index1), tv[1].(index := index2 + 1), tv[2].(index := index3 + 1),
             tv[3].(index := index4 + 1), tv[4].(index := index5 + 1)];
      assert tv[1].index == BlockOf(1, curTick) % TVN_SIZE + 1 && tv[2].index == BlockOf(2, curTick) % TVN_SIZE + 1;
      assert tv[3].index == BlockOf(3, curTick) % TVN_SIZE + 1 && tv[4].index == BlockOf(4, curTick) % TVN_SIZE + 1;
      RevisedStands(tv, curTick, mBaseTick);
      RankedWhenEmpty(tv, mBaseTick, settings);
    }

    /** Puts a timer into the wheel that its distance calls for; a timer beyond the
        last wheel is dropped. */
    method InternalAdd(timer: Timer, ghost a: seq<nat>)
      requires Consistent(tv, mBaseTick, a)
      modifies this`tv, this`mActiveTimerCount, this`discardNum
      ensures Consistent(tv, mBaseTick, a)
      ensures tv == AfterAdd(old(tv), mBaseTick, timer)
      ensures mActiveTimerCount ==
              if timer.tick <= mBaseTick + MAX_DISTANCE then old(mActiveTimerCount)
              else old(mActiveTimerCount) - 1
      ensures discardNum == if timer.tick <= mBaseTick + MAX_DISTANCE then old(discardNum) else old(discardNum) + 1
    {
      var uIdx := timer.tick - mBaseTick;
      var k, uLoc;
      if uIdx < 0 {
        k, uLoc := 0, tv[0].index;
      } else if uIdx < 0x100 {
        k, uLoc := 0, timer.tick % TVR_SIZE;
      } else if uIdx < 0x4000 {
        k, uLoc := 1, timer.tick / 0x100 % TVN_SIZE;
      } else if uIdx < 0x10_0000 {
        k, uLoc := 2, timer.tick / 0x4000 % TVN_SIZE;
      } else if uIdx < 0x400_0000 {
        k, uLoc := 3, timer.tick / 0x10_0000 % TVN_SIZE;
      } else if uIdx <= 0xffff_ffff {
        k, uLoc := 4, timer.tick / 0x400_0000 % TVN_SIZE;
      } else {
        discardNum := discardNum + 1;
        mActiveTimerCount := mActiveTimerCount - 1;
        return;
      }
      AddFits(tv, mBaseTick, a, timer, k, uLoc);
      tv := Put(tv, k, uLoc, Block(timer, k));
    }

    /** Unlinks the first timer of slot `i` of wheel `k`; the counter that goes down is
        the one of the wheel the timer was put in. */
    method ListDel(k: nat, i: nat, ghost a: seq<nat>) returns (entry: Block)
      requires Consistent(tv, mBaseTick, a)
      requires k < NOOF_TVECS && i < |tv[k].vec| && tv[k].vec[i] != []
      modifies this`tv
      ensures entry == old(tv[k].vec[i][0])
      ensures tv == Take(old(tv), k, i)
      ensures Consistent(tv, mBaseTick, a)
    {
      entry := tv[k].vec[i][0];
      FirstKnowsWheel(tv, mBaseTick, a, k, i);
      TakeKeeps(tv, mBaseTick, a, k, i);
      var w := tv[k].(vec := tv[k].vec[i := tv[k].vec[i][1..]]);
      tv := tv[k := w];
      var pan := entry.whichPan;
      tv := tv[pan := tv[pan].(num := tv[pan].num - 1)];
      assert tv == Take(old(tv), k, i);
    }

    /** Moves the first timer of a cascading slot to the inner wheel it belongs to. */
    method MoveFirst(n: nat, i: nat, ghost a: seq<nat>, ghost rest: seq<Block>, ghost tv0: seq<TimerVec>)
      requires Consistent(tv, mBaseTick, a) && Emptying(tv0, n, i, rest, tv)
      requires n < NOOF_TVECS && rest != [] && FallsInward(n, mBaseTick, rest)
      requires EmptyingRanked(tv, mBaseTick, settings, n, i, rest)
      modifies this`tv, this`mActiveTimerCount, this`discardNum
      ensures Consistent(tv, mBaseTick, a) && Emptying(tv0, n, i, rest[1..], tv)
      ensures FallsInward(n, mBaseTick, rest[1..]) && EmptyingRanked(tv, mBaseTick, settings, n, i, rest[1..])
      ensures mActiveTimerCount == old(mActiveTimerCount) && discardNum == old(discardNum)
    {
      ghost var tv1 := tv;
      FirstOfRest(tv0, n, i, rest, tv);
      var entry := ListDel(n, i, a);
      InternalAdd(entry.timer, a);
      CascadeOne(tv0, mBaseTick, a, n, i, rest, tv1, entry.timer, tv);
      EmptyingStep(tv1, mBaseTick, settings, n, i, rest, tv);
    }

    /** Hands the timers of the block that starts now to the inner wheels. */
    method CascadeTimers(n: nat, ghost a: seq<nat>)
      requires Consistent(tv, mBaseTick, a) && Ranked(tv, mBaseTick, settings)
      requires 1 <= n < NOOF_TVECS && StartsBlock(n, mBaseTick) && a[n] == BlockOf(n, mBaseTick)
      modifies this`tv, this`mActiveTimerCount, this`discardNum
      ensures Consistent(tv, mBaseTick, a[n := a[n] + 1]) && Ranked(tv, mBaseTick, settings)
      ensures SameTimers(old(tv), tv).Sound?
      ensures tv[n].index == (a[n] + 1) % TVN_SIZE
      ensures tv[n].vec == old(tv[n].vec[a[n] % TVN_SIZE := []])
      ensures forall m :: n < m < NOOF_TVECS ==> tv[m] == old(tv[m])
      ensures mActiveTimerCount == old(mActiveTimerCount) && discardNum == old(discardNum)
    {
      hide WheelOrder.Ranked, WheelOrder.EmptyingRanked;
      ghost var tv0 := tv;
      WheelIs(tv, mBaseTick, a, n);
      SameSlots(tv, n, tv[n]);
      if tv[n].index > TVN_SIZE - 1 {
        tv := tv[n := tv[n].(index := 0)];
        ReplaceIndex(tv0, mBaseTick, a, n, tv[n]);
        RankedSame(tv0, mBaseTick, settings, tv);
      }
      var i := tv[n].index;
      SlotFallsInward(tv, mBaseTick, a, n, i);
      EmptyingStarts(tv, mBaseTick, a, settings, n, i);
      var rest := tv[n].vec[i];
      ghost var tv1 := tv;
      while rest != []
        invariant Consistent(tv, mBaseTick, a)
        invariant Emptying(tv1, n, i, rest, tv) && FallsInward(n, mBaseTick, rest)
        invariant EmptyingRanked(tv, mBaseTick, settings, n, i, rest)
        invariant mActiveTimerCount == old(mActiveTimerCount) && discardNum == old(discardNum)
      {
        MoveFirst(n, i, a, rest, tv1);
        rest := rest[1..];
      }
      EmptyingEnds(tv, mBaseTick, settings, n, i);
      HeadIsEmpty(tv, n, i);
      tv := tv[n := tv[n].(vec := tv[n].vec[i := []])];
      ghost var tv2 := tv;
      tv := tv[n := tv[n].(index := (tv[n].index + 1) % TVN_SIZE)];
      CascadeEnds(tv1, mBaseTick, a, n, i, tv2, tv);
      RankedSame(tv2, mBaseTick, settings, tv);
      SameJoins(tv0, tv1, tv);
    }

    /** The cascade of wheel `n` when those inside it have cascaded. */
    method CascadeNext(n: nat)
      requires 1 <= n < NOOF_TVECS && StartsBlock(n, mBaseTick)
      requires InPlace(Cascading(mBaseTick, n))
      modifies this`tv, this`mActiveTimerCount, this`discardNum
      ensures InPlace(Cascading(mBaseTick, n + 1))
      ensures tv[n].index == (BlockOf(n, mBaseTick) + 1) % TVN_SIZE
      ensures mActiveTimerCount == old(mActiveTimerCount) && discardNum == old(discardNum)
    {
      hide WheelOrder.Ranked;
      ghost var tv0, a, c := tv, Cascading(mBaseTick, n), BlockOf(n, mBaseTick);
      CascadeStep(mBaseTick, n);
      assert a[n] == c && a[n := c + 1] == Cascading(mBaseTick, n + 1);
      CascadeTimers(n, a);
      SameHolds(tv0, tv, pending);
    }

    /** Cascades every wheel in which a block starts at the current tick. */
    method CascadeAll()
      requires InPlace(Standing(mBaseTick))
      requires mBaseTick % TVR_SIZE == 0
      modifies this`tv, this`mActiveTimerCount, this`discardNum
      ensures InPlace(Handling(mBaseTick))
      ensures mActiveTimerCount == old(mActiveTimerCount) && discardNum == old(discardNum)
    {
      hide WheelOrder.Ranked, TimerWheel.Consistent;
      var n := 1;
      CascadesStart(mBaseTick);
      while true
        invariant 1 <= n < NOOF_TVECS && StartsBlock(n, mBaseTick)
        invariant InPlace(Cascading(mBaseTick, n))
        invariant mActiveTimerCount == old(mActiveTimerCount) && discardNum == old(discardNum)
        decreases NOOF_TVECS - n
      {
        CascadeNext(n);
        NoneOutside(n, mBaseTick);
        if tv[n].index != 1 {
          CascadesDone(mBaseTick, n + 1);
          break;
        }
        n := n + 1;
        if n >= NOOF_TVECS {
          CascadesDone(mBaseTick, n);
          break;
        }
      }
    }

    /** Counts and places a new timer. */
    method AddTimer(request: Request, ghost a: seq<nat>) returns (e: Event)
      requires InPlace(a) && Counted()
      modifies this`tv, this`mActiveTimerCount, this`discardNum, this`pending, this`settings
      ensures InPlace(a) && Counted() && settings == old(settings) + 1
      ensures (e.Add? || e.Discard?) && e.t == Timer(request.id, request.tick, mBaseTick, old(settings))
      ensures request.tick <= mBaseTick + MAX_DISTANCE ==>
                && e.Add? && pending == old(pending) + multiset{e.t} && discardNum == old(discardNum)
                && mActiveTimerCount == old(mActiveTimerCount) + 1
      ensures request.tick > mBaseTick + MAX_DISTANCE ==>
                && e.Discard? && pending == old(pending) && discardNum == old(discardNum) + 1
                && mActiveTimerCount == old(mActiveTimerCount)
    {
      ghost var tv0 := tv;
      var timer := Timer(request.id, request.tick, mBaseTick, settings);
      settings := settings + 1;
      mActiveTimerCount := mActiveTimerCount + 1;
      InternalAdd(timer, a);
      RankedAdd(tv0, mBaseTick, a, timer);
      if timer.tick <= mBaseTick + MAX_DISTANCE {
        e := Add(timer);
        AddHolds(tv0, mBaseTick, a, timer, pending);
        pending := pending + multiset{timer};
      } else {
        e := Discard(timer);
        FarStays(tv0, mBaseTick, timer);
      }
    }

    /** Sets one more timer during a run. */
    method AddInRun(request: Request, ghost s: Start, log: seq<Event>) returns (log': seq<Event>)
      requires Running() && Serving(s, log)
      modifies this`tv, this`mActiveTimerCount, this`discardNum, this`pending, this`settings
      ensures Running() && Serving(s, log')
      ensures Fires(log') == Fires(log) && Requested(log') == Requested(log) + [request]
    {
      AddIsTraced(s.b, s.p, log, mBaseTick, pending, Timer(request.id, request.tick, mBaseTick, settings));
      var e := AddTimer(request, Handling(mBaseTick));
      RequestedStep(log, e);
      NumberedStep(s.n, log, e);
      AnsweredStep(log, e, s.script);
      ActiveStep(s.c, log, e);
      log' := log + [e];
    }

    /** Sets every timer of `batch`, as a callback or another thread does. */
    method AddBatch(batch: seq<Request>, ghost s: Start, log: seq<Event>) returns (log': seq<Event>)
      requires Running() && Serving(s, log)
      modifies this`tv, this`mActiveTimerCount, this`discardNum, this`pending, this`settings
      ensures Running() && Serving(s, log')
      ensures Fires(log') == Fires(log) && Requested(log') == Requested(log) + batch
      ensures batch == [] ==> tv == old(tv)
    {
      hide WheelOrder.Ranked;
      log' := log;
      var i := 0;
      while i < |batch|
        invariant i <= |batch| && Running()
        invariant Serving(s, log') && Fires(log') == Fires(log)
        invariant Requested(log') == Requested(log) + batch[..i]
        invariant batch == [] ==> tv == old(tv)
      {
        log' := AddInRun(batch[i], s, log');
        assert batch[..i + 1] == batch[..i] + [batch[i]];
        i := i + 1;
      }
      assert batch[..i] == batch;
    }

    /** Takes the first timer off the current slot. */
    method TakeFirst(ghost s: Start, log: seq<Event>) returns (e: Event)
      requires Running()
      requires Serving(s, log) && Settled(log, s.script)
      requires tv[0].index < |tv[0].vec| && tv[0].vec[tv[0].index] != []
      modifies this`tv, this`mActiveTimerCount, this`pending
      ensures Running()
      ensures e.Fire? && Serving(s, log + [e]) && Fires(log + [e]) == Fires(log) + 1
      ensures Requested(log + [e]) == Requested(log)
      ensures tv == Take(old(tv), 0, old(tv[0].index))
    {
      ghost var i := tv[0].index;
      WheelIs(tv, mBaseTick, Handling(mBaseTick), 0);
      SlotIsDue(tv, mBaseTick, Handling(mBaseTick), i);
      FirstIsOldest(tv, mBaseTick, Handling(mBaseTick), settings, i, pending);
      TakeHolds(tv, 0, i, pending);
      RankedTake(tv, mBaseTick, settings, 0, i);
      var curr := ListDel(0, tv[0].index, Handling(mBaseTick));
      FireIsTraced(s.b, s.p, log, mBaseTick, pending, curr.timer);
      mActiveTimerCount := mActiveTimerCount - 1;
      pending := pending - multiset{curr.timer};
      e := Fire(curr.timer, mBaseTick);
      RequestedStep(log, e);
      NumberedStep(s.n, log, e);
      AnsweredStep(log, e, s.script);
      ActiveStep(s.c, log, e);
    }

    /** Takes the first timer of the current slot and calls its callback, during which
        the timers of `batch` are set. */
    method FireFirst(batch: seq<Request>, ghost s: Start, log: seq<Event>) returns (log': seq<Event>)
      requires Running()
      requires Serving(s, log) && Settled(log, s.script) && batch == Batch(s.script, Fires(log))
      requires tv[0].index < |tv[0].vec| && tv[0].vec[tv[0].index] != []
      modifies this`tv, this`mActiveTimerCount, this`discardNum, this`pending, this`settings
      ensures Running()
      ensures Serving(s, log') && Settled(log', s.script) && Fires(log') == Fires(log) + 1
      ensures tv[0].index == old(tv[0].index) && |tv[0].vec| == old(|tv[0].vec|)
      ensures batch == [] ==> tv == Take(old(tv), 0, old(tv[0].index))
    {
      WheelIs(tv, mBaseTick, Handling(mBaseTick), 0);
      var e := TakeFirst(s, log);
      UsedStep(s.script, Fires(log));
      log' := AddBatch(batch, s, log + [e]);
      WheelIs(tv, mBaseTick, Handling(mBaseTick), 0);
    }

    /** Fires everything in the current slot. Each callback called uses up one batch of
        `script`; a script that is used up stands for callbacks that set nothing. */
    method RunSlot(script: seq<seq<Request>>, ghost s: Start, log: seq<Event>)
      returns (log': seq<Event>, script': seq<seq<Request>>)
      requires Running()
      requires Serving(s, log) && Settled(log, s.script) && script == Unused(s.script, Fires(log))
      modifies this`tv, this`mActiveTimerCount, this`discardNum, this`pending, this`settings
      ensures Running()
      ensures tv[0].index == mBaseTick % TVR_SIZE < |tv[0].vec| && tv[0].vec[tv[0].index] == []
      ensures Serving(s, log') && Settled(log', s.script) && script' == Unused(s.script, Fires(log'))
    {
      log', script' := log, script;
      WheelIs(tv, mBaseTick, Handling(mBaseTick), 0);
      var runFlag := true;
      while runFlag
        invariant Running()
        invariant tv[0].index == mBaseTick % TVR_SIZE < |tv[0].vec|
        invariant Serving(s, log') && Settled(log', s.script) && script' == Unused(s.script, Fires(log'))
        invariant !runFlag ==> tv[0].vec[tv[0].index] == []
        decreases |script'|, |tv[0].vec[tv[0].index]|, runFlag
      {
        if tv[0].vec[tv[0].index] != [] {
          UsedStep(s.script, Fires(log'));
          if script' == [] {
            log' := FireFirst([], s, log');
          } else {
            log' := FireFirst(script'[0], s, log');
            script' := script'[1..];
          }
        } else {
          runFlag := false;
        }
      }
    }

    /** Handles the current tick: cascades, empties the current slot and advances the clock. */
    method RunTick(script: seq<seq<Request>>, ghost s: Start, log: seq<Event>)
      returns (log': seq<Event>, script': seq<seq<Request>>)
      requires Valid()
      requires Serving(s, log) && Settled(log, s.script) && script == Unused(s.script, Fires(log))
      modifies this`mBaseTick, this`tv, this`mActiveTimerCount, this`discardNum, this`pending,
        this`settings
      ensures Valid() && mBaseTick == old(mBaseTick) + 1
      ensures Serving(s, log') && Settled(log', s.script) && script' == Unused(s.script, Fires(log'))
      ensures log' != [] && log'[|log'| - 1] == Tick
    {
      hide WheelOrder.Ranked, Traced, TimerCalls.Answered, TimerTrace.Numbered, TimerWheel.Holds;
      WheelIs(tv, mBaseTick, Standing(mBaseTick), 0);
      CascadesStart(mBaseTick);
      if tv[0].index == 0 {
        CascadeAll();
      }
      log', script' := RunSlot(script, s, log);
      TickIsTraced(tv, s.b, s.p, log', mBaseTick, pending);
      NumberedStep(s.n, log', Tick);
      AnsweredStep(log', Tick, s.script);
      ActiveStep(s.c, log', Tick);
      ghost var tv0 := tv;
      NextTick();
      SameHolds(tv0, tv, pending);
      log' := log' + [Tick];
    }

    /** ++mBaseTick and the next slot. */
    method NextTick()
      requires Consistent(tv, mBaseTick, Handling(mBaseTick)) && Ranked(tv, mBaseTick, settings)
      requires tv[0].index == mBaseTick % TVR_SIZE < |tv[0].vec| && tv[0].vec[tv[0].index] == []
      modifies this`mBaseTick, this`tv
      ensures Consistent(tv, mBaseTick, Standing(mBaseTick)) && SameTimers(old(tv), tv).Sound?
      ensures mBaseTick == old(mBaseTick) + 1 && Ranked(tv, mBaseTick, settings)
    {
      hide WheelOrder.Ranked;
      RankedTicks(tv, mBaseTick, settings);
      RankedSame(tv, mBaseTick + 1, settings, tv[0 := tv[0].(index := (tv[0].index + 1) % TVR_SIZE)]);
      IndexGoes(mBaseTick);
      var w := tv[0].(index := (tv[0].index + 1) % TVR_SIZE);
      ClockAdvances(tv, mBaseTick, mBaseTick + 1, tv[0 := w]);
      SameSlots(tv, 0, w);
      mBaseTick := mBaseTick + 1;
      tv := tv[0 := w];
    }

    /** Handles every tick up to `now`. The callbacks set timers as `script` says, one
        batch each. */
    method RunTimerList(now: nat, script: seq<seq<Request>>) returns (log: seq<Event>, script': seq<seq<Request>>)
      requires Valid()
      modifies this`mBaseTick, this`tv, this`mActiveTimerCount, this`discardNum, this`pending,
        this`settings
      ensures Valid() && mBaseTick == if now < old(mBaseTick) then old(mBaseTick) else now + 1
      ensures Trace(old(mBaseTick), old(pending), log, mBaseTick, pending)
      ensures Answers(RunAt(now, script), mClkRate, old(mBaseTick), old(mActiveTimerCount), log)
      ensures script' == Unused(script, Fires(log)) && mActiveTimerCount == ActiveAfter(old(mActiveTimerCount), log)
      ensures now < old(mBaseTick) ==> pending == old(pending)
      ensures now >= old(mBaseTick) ==> FiredTheDue(old(pending), log, now)
      ensures Punctual(old(mBaseTick), old(pending), log, mBaseTick)
      ensures Numbered(old(settings), log) && settings == old(settings) + Settings(log)
      ensures FirstInFirstOut(old(mBaseTick), log)
    {
      log, script' := [], script;
      PendingEarlier(tv, mBaseTick, Standing(mBaseTick), settings, pending);
      ghost var s := Start(mBaseTick, pending, settings, mActiveTimerCount, script);
      var interTick := now - mBaseTick;
      while interTick >= 0
        invariant Valid() && mBaseTick + interTick == now && mBaseTick >= s.b
        invariant Serving(s, log) && Settled(log, script) && script' == Unused(script, Fires(log))
        invariant mBaseTick == s.b ==> log == [] && pending == s.p
        invariant mBaseTick > s.b ==> interTick >= -1 && log != [] && log[|log| - 1] == Tick
      {
        log, script' := RunTick(script', s, log);
        interTick := interTick - 1;
      }
      ClockIsClock(s.b, s.p, log, mBaseTick, pending);
      if now >= s.b {
        DueHaveFired(s.b, s.p, log, now, pending);
      }
      AllFireWhenDue(s.b, s.p, log, mBaseTick, pending);
      AllInTurn(s.b, s.p, s.n, log, mBaseTick, pending);
    }

    /** Sets a timer `interval` milliseconds ahead of the tick counter. A request whose
        new id would be too large is refused, and then the count of active timers goes
        down although no timer was counted. */
    method SetTimer(interval: nat, tickCurrent: nat) returns (log: seq<Event>)
      requires Valid()
      modifies this`tv, this`mActiveTimerCount, this`discardNum, this`pending, this`settings, this`refused
      ensures Valid()
      ensures Trace(mBaseTick, old(pending), log, mBaseTick, pending)
      ensures Answers(SetAt(interval, tickCurrent), mClkRate, mBaseTick, old(mActiveTimerCount), log)
      ensures mActiveTimerCount == ActiveAfter(old(mActiveTimerCount), log)
      ensures refused == old(refused) + if log == [Refuse] then 1 else 0
      ensures Numbered(old(settings), log) && settings == old(settings) + Settings(log)
    {
      var timerId := Wrap32(mActiveTimerCount + 1);
      if timerId >= MAX_TIMERID {
        Refused(SetAt(interval, tickCurrent), mClkRate, mBaseTick, pending, mActiveTimerCount);
        mActiveTimerCount := mActiveTimerCount - 1;
        refused := refused + 1;
        return [Refuse];
      }
      var request := Request(timerId % 0x1_0000, MsToTick(mClkRate, interval) + tickCurrent);
      ghost var c, p := mActiveTimerCount, pending;
      NumberedStep(settings, [], Refuse);
      var e := AddTimer(request, Standing(mBaseTick));
      Accepted(SetAt(interval, tickCurrent), mClkRate, mBaseTick, p, c, e);
      log := [e];
    }

    /** getTmBlkNum: right as long as no request was ever refused. */
    function GetTmBlkNum(): (n: nat)
      requires Valid()
      reads this
      ensures |pending| < TWO_32 && refused < TWO_32 ==> (n == |pending| <==> refused == 0)
    {
      Wrap32(mActiveTimerCount)
    }

    /** One call. */
    method Answer(call: Call) returns (log: seq<Event>)
      requires Valid()
      modifies this
      ensures Valid() && Trace(old(mBaseTick), old(pending), log, mBaseTick, pending)
      ensures Answers(call, mClkRate, old(mBaseTick), old(mActiveTimerCount), log)
      ensures mActiveTimerCount == ActiveAfter(old(mActiveTimerCount), log)
      ensures Numbered(old(settings), log) && settings == old(settings) + Settings(log)
    {
      match call {
        case SetAt(interval, now) =>
          log := SetTimer(interval, now);
        case RunAt(now, script) =>
          var rest;
          log, rest := RunTimerList(now, script);
      }
    }

    /** Any sequence of calls. Each does what it is asked for, and when the last one is a
        run up to `now`, then what has fired in all of them is just what is due. Timers
        that are set for the same tick while the clock stands still fire in the order in
        which they were set. */
    method Perform(calls: seq<Call>) returns (log: seq<Event>, ghost logs: seq<seq<Event>>)
      requires Valid()
      modifies this
      ensures Valid() && Trace(old(mBaseTick), old(pending), log, mBaseTick, pending)
      ensures log == Joined(logs) && Performed(calls, mClkRate, old(mBaseTick), old(mActiveTimerCount), logs)
      ensures mActiveTimerCount == ActiveAfter(old(mActiveTimerCount), log)
      ensures EndsWithRun(calls, old(mBaseTick), logs) ==>
                && mBaseTick == calls[|calls| - 1].now + 1
                && FiredTheDue(old(pending), log, calls[|calls| - 1].now)
      ensures Punctual(old(mBaseTick), old(pending), log, mBaseTick)
      ensures FirstInFirstOut(old(mBaseTick), log)
    {
      PendingEarlier(tv, mBaseTick, Standing(mBaseTick), settings, pending);
      ghost var b0, p0, n0, c0 := mBaseTick, pending, settings, mActiveTimerCount;
      log, logs := [], [];
      var i := 0;
      while i < |calls|
        invariant i <= |calls| && Valid() && log == Joined(logs)
        invariant Traced(b0, p0, log, mBaseTick, pending) && mActiveTimerCount == ActiveAfter(c0, log)
        invariant Performed(calls[..i], mClkRate, b0, c0, logs)
        invariant Numbered(n0, log) && settings == n0 + Settings(log)
      {
        ghost var b, p := mBaseTick, pending;
        var more := Answer(calls[i]);
        OneMoreCall(calls[..i], mClkRate, b0, p0, c0, logs, b, p, calls[i], more, mBaseTick, pending);
        NumberedJoins(n0, log, more);
        assert calls[..i + 1] == calls[..i] + [calls[i]];
        log, logs := log + more, logs + [more];
        i := i + 1;
      }
      assert calls[..i] == calls;
      if EndsWithRun(calls, b0, logs) {
        LastRunEnds(calls, mClkRate, b0, c0, logs, mBaseTick, p0, pending);
        DueHaveFired(b0, p0, log, calls[|calls| - 1].now, pending);
      }
      AllFireWhenDue(b0, p0, log, mBaseTick, pending);
      AllInTurn(b0, p0, n0, log, mBaseTick, pending);
    }
  }
}
