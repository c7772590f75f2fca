/** platform/common/src/mxMiniTimer.cpp: a list of timers kept in order of a comparison
    that drops fractions of a millisecond. */
module MiniTimer {
  import opened Common

  /** A struct timeval. */
  datatype TimeVal = TimeVal(sec: int, usec: int)

  datatype Block = Block(id: nat, time: TimeVal)

  const TWO_32: int := 0x1_0000_0000

  /** The half of the range of a 32-bit difference, in milliseconds. */
  const HALF: int := 0x8000_0000

  function Micros(t: TimeVal): int {
    t.sec * 1_000_000 + t.usec
  }

  /** What a deadline may hold: adding carries only beyond a million. */
  predicate Normal(t: TimeVal) {
    0 <= t.usec <= 1_000_000
  }

  /** The division of C, towards zero. */
  function Quotient(a: int, b: int): int
    requires b > 0
  {
    if a >= 0 then a / b else -(-a / b)
  }

  function Wrap32(x: int): (w: int)
    ensures -HALF <= w < HALF
  {
    (x + HALF) % TWO_32 - HALF
  }

  /** The difference before it is cut to 32 bits. */
  function Millis(t1: TimeVal, t2: TimeVal): int {
    (t1.sec - t2.sec) * 1000 + Quotient(t1.usec - t2.usec, 1000)
  }

  /** getTimeDiff */
  function TimeDiff(t1: TimeVal, t2: TimeVal): int {
    Wrap32(Millis(t1, t2))
  }

  // ----- The comparison -----

  /** It is less than a millisecond off, and odd. */
  lemma MillisClose(a: TimeVal, b: TimeVal)
    ensures -1000 < 1000 * Millis(a, b) - (Micros(a) - Micros(b)) < 1000
    ensures Millis(b, a) == -Millis(a, b)
  {
  }

  /** "Later" is transitive, although the difference is rounded. */
  lemma LaterTransitive(a: TimeVal, b: TimeVal, c: TimeVal)
    requires Normal(a) && Normal(b) && Normal(c)
    requires Millis(a, b) > 0 && Millis(b, c) > 0
    ensures Millis(a, c) > 0
  {
  }

  /** What is later than `b` is later than everything up to `b`. */
  lemma LaterThanEarlier(a: TimeVal, b: TimeVal, c: TimeVal)
    requires Normal(a) && 0 <= b.usec < 1_000_000 && Normal(c)
    requires Millis(a, b) > 0 && Micros(c) <= Micros(b)
    ensures Millis(a, c) > 0
  {
  }

  /** Times within a window of 2^31 - 2 milliseconds, where no difference is cut. */
  predicate Within(t: TimeVal, start: int) {
    start <= Micros(t) <= start + (HALF - 2) * 1000
  }

  lemma NotCut(a: TimeVal, b: TimeVal, start: int)
    requires Within(a, start) && Within(b, start)
    ensures TimeDiff(a, b) == Millis(a, b)
  {
    MillisClose(a, b);
  }

  /** The returned difference is the real one just when it fits 32 bits. */
  lemma DiffIsCut(a: TimeVal, b: TimeVal)
    ensures TimeDiff(a, b) == Millis(a, b) <==> -HALF <= Millis(a, b) < HALF
  {
    assert TimeDiff(a, b) == Wrap32(Millis(a, b));
  }

  /** Beyond that the order turns round: a time 2,147,484 seconds later counts as earlier. */
  lemma OrderTurns(a: TimeVal, b: TimeVal)
    requires a == TimeVal(0, 0) && b == TimeVal(2_147_484, 0)
    ensures Micros(a) < Micros(b) && TimeDiff(a, b) > 0
  {
    assert Millis(a, b) == -2_147_484_000;
  }

  // ----- Deadlines -----

  /** The deadline that addTimer computes. */
  function Deadline(now: TimeVal, interval: nat): TimeVal {
    var sec, usec := now.sec + interval / 1000, now.usec + interval % 1000 * 1000;
    if usec > 1_000_000 then TimeVal(sec + 1, usec - 1_000_000) else TimeVal(sec, usec)
  }

  lemma DeadlineExact(now: TimeVal, interval: nat)
    requires 0 <= now.usec < 1_000_000
    ensures Normal(Deadline(now, interval)) && Micros(Deadline(now, interval)) == Micros(now) + interval * 1000
    ensures Millis(now, Deadline(now, interval)) + interval == 0
  {
    var t := interval % 1000;
    assert interval == interval / 1000 * 1000 + t;
    if now.usec + t * 1000 > 1_000_000 {
      assert now.usec - (now.usec + t * 1000 - 1_000_000) == (1000 - t) * 1000;
    } else {
      assert now.usec - (now.usec + t * 1000) == -t * 1000;
    }
  }

  /** A timer is due at the moment it is set just when its interval is zero or more than
      2^31 milliseconds, where the difference turns positive. */
  lemma DueWhenSet(now: TimeVal, interval: nat)
    requires 0 <= now.usec < 1_000_000 && interval < TWO_32
    ensures TimeDiff(now, Deadline(now, interval)) >= 0 <==> interval == 0 || interval > HALF
  {
    DeadlineExact(now, interval);
  }

  // ----- The list -----

  /** No timer is later than one behind it, as the comparison sees it. */
  ghost function Sorted(list: seq<Block>): (s: Status) {
    if forall i, j :: 0 <= i < j < |list| ==> TimeDiff(list[i].time, list[j].time) <= 0 then Sound else Broken
  }

  /** All deadlines are normal and within one window. */
  ghost function InWindow(list: seq<Block>, start: int): (s: Status) {
    if forall i :: 0 <= i < |list| ==> Normal(list[i].time) && Within(list[i].time, start) then Sound else Broken
  }

  /** A timer put in front of the first that is later keeps the order. */
  lemma InsertSorted(list: seq<Block>, b: Block, k: nat, start: int)
    requires Sorted(list).Sound? && InWindow(list, start).Sound? && Normal(b.time) && Within(b.time, start)
    requires k <= |list| && (forall i :: 0 <= i < k ==> TimeDiff(list[i].time, b.time) <= 0)
    requires k < |list| ==> TimeDiff(list[k].time, b.time) > 0
    ensures Sorted(list[..k] + [b] + list[k..]).Sound? && InWindow(list[..k] + [b] + list[k..], start).Sound?
  {
    var longer := list[..k] + [b] + list[k..];
    assert forall i :: 0 <= i < |longer| ==> longer[i] == if i < k then list[i] else if i == k then b else list[i - 1];
    forall j | k <= j < |list|
      ensures TimeDiff(b.time, list[j].time) <= 0
    {
      LaterStays(list, k, j, b.time, start);
    }
  }

  lemma LaterStays(list: seq<Block>, k: nat, j: nat, t: TimeVal, start: int)
    requires Sorted(list).Sound? && InWindow(list, start).Sound? && Normal(t) && Within(t, start)
    requires k <= j < |list| && TimeDiff(list[k].time, t) > 0
    ensures TimeDiff(t, list[j].time) <= 0
  {
    var a, c := list[k].time, list[j].time;
    NotCut(a, t, start);
    NotCut(t, c, start);
    NotCut(a, c, start);
    MillisClose(a, t);
    if k < j && Millis(t, c) > 0 {
      LaterTransitive(a, t, c);
    }
  }

  /** When the head is later than `now`, so is every timer, exactly. */
  lemma HeadDecides(list: seq<Block>, now: TimeVal, start: int, j: nat)
    requires Sorted(list).Sound? && InWindow(list, start).Sound? && j < |list|
    requires 0 <= now.usec < 1_000_000 && Within(now, start) && TimeDiff(now, list[0].time) < 0
    ensures Micros(list[j].time) > Micros(now)
    ensures Micros(list[0].time) < Micros(list[j].time) + 1000
  {
    var a, c := list[0].time, list[j].time;
    NotCut(now, a, start);
    NotCut(a, c, start);
    MillisClose(now, a);
    MillisClose(a, c);
    if Micros(c) <= Micros(now) {
      LaterThanEarlier(a, now, c);
    }
  }

  datatype Result = STATUS_SUCCESS | STATUS_WAKE_UP

  class MiniTimerList {
    var mTimerList: seq<Block>
    var mActiveTimerCount: nat

    constructor ()
      ensures mTimerList == [] && mActiveTimerCount == 0
    {
      mTimerList := [];
      mActiveTimerCount := 0;
    }

    /** addToTimerList: in front of the first later timer. Only a list that was empty
        asks for a wake-up. */
    method AddToTimerList(block: Block, ghost start: int) returns (status: Result, ghost at: nat)
      modifies this`mTimerList
      ensures at <= |old(mTimerList)| && mTimerList == old(mTimerList)[..at] + [block] + old(mTimerList)[at..]
      ensures forall i :: 0 <= i < at ==> TimeDiff(old(mTimerList)[i].time, block.time) <= 0
      ensures at < |old(mTimerList)| ==> TimeDiff(old(mTimerList)[at].time, block.time) > 0
      ensures status == if old(mTimerList) == [] then STATUS_WAKE_UP else STATUS_SUCCESS
      ensures old(Sorted(mTimerList)).Sound? && old(InWindow(mTimerList, start)).Sound?
              && Normal(block.time) && Within(block.time, start) ==>
                Sorted(mTimerList).Sound? && InWindow(mTimerList, start).Sound?
    {
      ghost var list := mTimerList;
      if mTimerList == [] {
        mTimerList := mTimerList + [block];
        return STATUS_WAKE_UP, 0;
      }
      var it := 0;
      while it < |mTimerList|
        invariant it <= |mTimerList| && mTimerList == list
        invariant forall i :: 0 <= i < it ==> TimeDiff(list[i].time, block.time) <= 0
      {
        if TimeDiff(mTimerList[it].time, block.time) > 0 {
          break;
        }
        it := it + 1;
      }
      at := it;
      if Sorted(list).Sound? && InWindow(list, start).Sound? && Normal(block.time) && Within(block.time, start) {
        InsertSorted(list, block, at, start);
      }
      if it == |mTimerList| {
        mTimerList := mTimerList + [block];
        assert list + [block] == list[..at] + [block] + list[at..];
        return STATUS_SUCCESS, at;
      }
      mTimerList := mTimerList[..it] + [block] + mTimerList[it..];
      // The iterator still stands at the later timer, which is no longer the first.
      it := it + 1;
      return if it == 0 then STATUS_WAKE_UP else STATUS_SUCCESS, at;
    }

    /** addTimer with the clock reading `now`. */
    method AddTimer(now: TimeVal, interval: nat, ghost start: int) returns (status: Result)
      requires 0 <= now.usec < 1_000_000 && interval < TWO_32
      modifies this
      ensures mActiveTimerCount == old(mActiveTimerCount) + 1
      ensures exists b: Block, at: nat :: at <= |old(mTimerList)| && Micros(b.time) == Micros(now) + interval * 1000
                && mTimerList == old(mTimerList)[..at] + [b] + old(mTimerList)[at..]
      ensures status == if old(mTimerList) == [] then STATUS_WAKE_UP else STATUS_SUCCESS
      ensures old(Sorted(mTimerList)).Sound? && old(InWindow(mTimerList, start)).Sound?
              && start <= Micros(now) <= start + (HALF - 2 - interval) * 1000 ==>
                Sorted(mTimerList).Sound? && InWindow(mTimerList, start).Sound?
    {
      DeadlineExact(now, interval);
      var sec := now.sec + interval / 1000;
      var usec := now.usec + interval % 1000 * 1000;
      if usec > 1_000_000 {
        sec := sec + 1;
        usec := usec - 1_000_000;
      }
      mActiveTimerCount := mActiveTimerCount + 1;
      var block := Block(mActiveTimerCount, TimeVal(sec, usec));
      ghost var at;
      status, at := AddToTimerList(block, start);
    }

    /** Sets the timers of a batch, as a callback does. */
    method AddBatch(batch: seq<Block>, ghost start: int)
      requires Ready(mTimerList, start) && InWindow(batch, start).Sound?
      modifies this`mTimerList
      ensures Ready(mTimerList, start) && Joined(mTimerList, old(mTimerList), batch)
      ensures batch == [] ==> mTimerList == old(mTimerList)
    {
      var i := 0;
      JoinedNothing(mTimerList);
      assert batch[..0] == [];
      while i < |batch|
        invariant i <= |batch| && Ready(mTimerList, start)
        invariant Joined(mTimerList, old(mTimerList), batch[..i])
        invariant batch == [] ==> mTimerList == old(mTimerList)
      {
        ghost var list := mTimerList;
        var status, at := AddToTimerList(batch[i], start);
        JoinedOne(mTimerList, list, old(mTimerList), batch, i, at);
        i := i + 1;
      }
      assert batch[..i] == batch;
    }

    /** processTimeout: calls what is due at the sampled time `now`, each callback setting
        one batch of `script`, and computes how long to wait for the next. When no callback
        sets a timer, they are called in the order of the list. */
    method ProcessTimeout(now: TimeVal, script: seq<seq<Block>>, ghost start: int)
      returns (wait: TimeVal, fired: seq<Block>, left: seq<seq<Block>>)
      requires 0 <= now.usec < 1_000_000 && Within(now, start)
      requires Ready(mTimerList, start) && ScriptInWindow(script, start)
      modifies this`mTimerList
      ensures Ready(mTimerList, start)
      ensures Accounted(fired, mTimerList, left, old(mTimerList), script)
      ensures script == [] ==> InTurn(fired, mTimerList, old(mTimerList))
      ensures forall b :: b in fired ==> Micros(b.time) - Micros(now) < 1000
      ensures forall b :: b in mTimerList ==> Micros(b.time) > Micros(now)
      ensures mTimerList == [] ==> wait == TimeVal(2, 0)
      ensures mTimerList != [] ==> Micros(wait) == Max(1000, Micros(mTimerList[0].time) - Micros(now)) && Normal(wait)
      ensures forall b :: b in mTimerList ==> Micros(wait) <= Micros(b.time) - Micros(now) + 1000
    {
      hide Accounted, InTurn;
      fired, left := [], script;
      ghost var list0 := mTimerList;
      AccountStarts(list0, script);
      TurnStarts(list0);
      while mTimerList != [] && TimeDiff(now, mTimerList[0].time) >= 0
        invariant Ready(mTimerList, start) && ScriptInWindow(left, start)
        invariant Accounted(fired, mTimerList, left, list0, script)
        invariant script == [] ==> left == [] && InTurn(fired, mTimerList, list0)
        invariant forall b :: b in fired ==> Micros(b.time) - Micros(now) < 1000
        decreases |left|, |mTimerList|
      {
        EarlyByLess(mTimerList, now, start);
        RestReady(mTimerList, start);
        AccountFires(fired, mTimerList, left, list0, script);
        if script == [] {
          TurnGoesOn(fired, mTimerList, list0);
        }
        fired := fired + [mTimerList[0]];
        mTimerList := mTimerList[1..];
        if left != [] {
          ghost var list := mTimerList;
          AddBatch(left[0], start);
          AccountSets(fired, list, mTimerList, left, list0, script);
          left := left[1..];
        }
      }
      if mTimerList == [] {
        wait := TimeVal(2, 0);
      } else {
        HeadDecides(mTimerList, now, start, 0);
        wait := WaitFor(mTimerList[0].time, now);
        AllLater(mTimerList, now, start);
      }
    }
  }

  // ----- No timer is lost or called twice -----

  ghost predicate Joined(list: seq<Block>, list0: seq<Block>, more: seq<Block>) {
    multiset(list) == multiset(list0) + multiset(more)
  }

  lemma JoinedNothing(list: seq<Block>)
    ensures Joined(list, list, [])
  {
  }

  lemma JoinedOne(list': seq<Block>, list: seq<Block>, list0: seq<Block>, batch: seq<Block>, i: nat, at: nat)
    requires i < |batch| && at <= |list| && list' == list[..at] + [batch[i]] + list[at..]
    requires Joined(list, list0, batch[..i])
    ensures Joined(list', list0, batch[..i + 1])
  {
    var p, q := list[..at], list[at..];
    assert list == p + q && multiset(list) == multiset(p) + multiset(q);
    assert multiset(list') == multiset(p) + multiset{batch[i]} + multiset(q);
    assert batch[..i + 1] == batch[..i] + [batch[i]];
    assert multiset(batch[..i + 1]) == multiset(batch[..i]) + multiset{batch[i]};
    assert multiset(list) == multiset(list0) + multiset(batch[..i]);
    forall x: Block
      ensures multiset(list')[x] == (multiset(list0) + multiset(batch[..i + 1]))[x]
    {
      assert multiset(list)[x] == multiset(p)[x] + multiset(q)[x];
    }
  }

  /** The front of the list has been called, one after the other. */
  ghost predicate InTurn(fired: seq<Block>, list: seq<Block>, list0: seq<Block>) {
    fired + list == list0
  }

  lemma TurnStarts(list: seq<Block>)
    ensures InTurn([], list, list)
  {
    assert [] + list == list;
  }

  lemma TurnGoesOn(fired: seq<Block>, list: seq<Block>, list0: seq<Block>)
    requires list != [] && InTurn(fired, list, list0)
    ensures InTurn(fired + [list[0]], list[1..], list0)
  {
    assert fired + [list[0]] + list[1..] == fired + list;
  }

  /** What was called, what is in the list and what is still to be set is what was in the
      list and was to be set at first. */
  ghost predicate Accounted(fired: seq<Block>, list: seq<Block>, left: seq<seq<Block>>,
                            list0: seq<Block>, script: seq<seq<Block>>) {
    multiset(fired) + multiset(list) + Batches(left) == multiset(list0) + Batches(script)
  }

  lemma AccountStarts(list: seq<Block>, script: seq<seq<Block>>)
    ensures Accounted([], list, script, list, script)
  {
  }

  lemma AccountFires(fired: seq<Block>, list: seq<Block>, left: seq<seq<Block>>,
                     list0: seq<Block>, script: seq<seq<Block>>)
    requires list != [] && Accounted(fired, list, left, list0, script)
    ensures Accounted(fired + [list[0]], list[1..], left, list0, script)
  {
    assert list == [list[0]] + list[1..];
  }

  lemma AccountSets(fired: seq<Block>, list: seq<Block>, list': seq<Block>, left: seq<seq<Block>>,
                    list0: seq<Block>, script: seq<seq<Block>>)
    requires left != [] && Accounted(fired, list, left, list0, script) && Joined(list', list, left[0])
    ensures Accounted(fired, list', left[1..], list0, script)
  {
  }

  ghost predicate ScriptInWindow(script: seq<seq<Block>>, start: int)
    ensures ScriptInWindow(script, start) && script != [] ==> InWindow(script[0], start).Sound?
  {
    forall i :: 0 <= i < |script| ==> InWindow(script[i], start).Sound?
  }

  lemma AllLater(list: seq<Block>, now: TimeVal, start: int)
    requires Ready(list, start) && list != []
    requires 0 <= now.usec < 1_000_000 && Within(now, start) && TimeDiff(now, list[0].time) < 0
    ensures forall b :: b in list ==> Micros(b.time) > Micros(now) && Micros(list[0].time) < Micros(b.time) + 1000
  {
    forall j | 0 <= j < |list|
      ensures Micros(list[j].time) > Micros(now) && Micros(list[0].time) < Micros(list[j].time) + 1000
    {
      HeadDecides(list, now, start, j);
    }
  }

  function Max(a: int, b: int): int {
    if a >= b then a else b
  }

  function Batches(script: seq<seq<Block>>): multiset<Block> {
    if script == [] then multiset{} else multiset(script[0]) + Batches(script[1..])
  }

  /** A list in order, all in one window. */
  ghost predicate Ready(list: seq<Block>, start: int)
    ensures Ready(list, start) ==> Sorted(list).Sound? && InWindow(list, start).Sound?
  {
    Sorted(list).Sound? && InWindow(list, start).Sound?
  }

  lemma RestReady(list: seq<Block>, start: int)
    requires Ready(list, start) && list != []
    ensures Ready(list[1..], start)
  {
  }

  /** A timer that is called is less than a millisecond early. */
  lemma EarlyByLess(list: seq<Block>, now: TimeVal, start: int)
    requires Ready(list, start) && list != [] && Within(now, start) && TimeDiff(now, list[0].time) >= 0
    ensures Micros(list[0].time) - Micros(now) < 1000
  {
    NotCut(now, list[0].time, start);
    MillisClose(now, list[0].time);
  }

  /** The time until a deadline, at least one millisecond. */
  method WaitFor(time: TimeVal, now: TimeVal) returns (wait: TimeVal)
    requires Normal(time) && 0 <= now.usec < 1_000_000 && Micros(time) > Micros(now)
    ensures Micros(wait) == Max(1000, Micros(time) - Micros(now)) && Normal(wait)
  {
    var sec, usec := time.sec - now.sec, time.usec - now.usec;
    if time.usec < now.usec {
      sec := sec - 1;
      usec := 1_000_000 + time.usec - now.usec;
    }
    if sec == 0 && usec < 1000 {
      usec := 1000;
    }
    wait := TimeVal(sec, usec);
  }
}
