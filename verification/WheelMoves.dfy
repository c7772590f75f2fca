/** How the wheels move: adding a timer, cascading a block, advancing the clock. */
module WheelMoves {
  import opened Common
  import opened TimerTrace
  import opened TimerWheel

  // ----- Where the wheels stand -----

  /** Between two ticks: nothing of tick `b` has cascaded yet. */
  function Standing(b: nat): (a: seq<nat>)
    ensures |a| == NOOF_TVECS
  {
    seq(NOOF_TVECS, k requires 0 <= k < NOOF_TVECS => NextBlock(k, b))
  }

  /** While tick `b` is handled: every block that starts at `b` has cascaded. */
  function Handling(b: nat): (a: seq<nat>)
    ensures |a| == NOOF_TVECS
  {
    seq(NOOF_TVECS, k requires 0 <= k < NOOF_TVECS => if k == 0 then b else BlockOf(k, b) + 1)
  }

  /** While tick `b` cascades: wheels below `n` have cascaded. */
  function Cascading(b: nat, n: nat): (a: seq<nat>)
    ensures |a| == NOOF_TVECS
  {
    seq(NOOF_TVECS, k requires 0 <= k < NOOF_TVECS =>
      if 0 < k < n then BlockOf(k, b) + 1 else NextBlock(k, b))
  }

  lemma NextAfter(k: nat, b: nat)
    requires k < NOOF_TVECS
    ensures NextBlock(k, b + 1) == BlockOf(k, b) + 1
  {
  }

  lemma StartOfBlock(k: nat, b: nat)
    requires k < NOOF_TVECS && StartsBlock(k, b)
    ensures b == BlockOf(k, b) * Width(k)
  {
    if k == 1 {
    } else if k == 2 {
    } else if k == 3 {
    } else if k == 4 {
    }
  }

  /** A wheel outside `n` starts a block at `b` only when `n` has just left its slot 0. */
  lemma OuterStarts(n: nat, b: nat, m: nat)
    requires 1 <= n < m < NOOF_TVECS && StartsBlock(m, b)
    ensures (BlockOf(n, b) + 1) % TVN_SIZE == 1
  {
    StartOfBlock(m, b);
    OuterBlock(n, m, b, BlockOf(m, b));
  }

  lemma OuterBlock(n: nat, m: nat, b: nat, q: nat)
    requires 1 <= n < m < NOOF_TVECS && b == q * Width(m)
    ensures (BlockOf(n, b) + 1) % TVN_SIZE == 1
  {
    if m == n + 1 {
      SlotZero(q);
    } else if m == n + 2 {
      SlotZero(q * 0x40);
    } else {
      SlotZero(q * 0x1000);
    }
  }

  lemma SlotZero(x: nat)
    ensures (x * 64 + 1) % TVN_SIZE == 1
  {
  }

  /** And the wheel next to `n` starts one then. */
  lemma {:induction false} NextStarts(n: nat, b: nat)
    requires 1 <= n && n + 1 < NOOF_TVECS && StartsBlock(n, b) && (BlockOf(n, b) + 1) % TVN_SIZE == 1
    ensures StartsBlock(n + 1, b)
  {
    if n == 1 {
    } else if n == 2 {
    } else {
    }
  }

  lemma CascadesDone(b: nat, n: nat)
    requires 1 <= n <= NOOF_TVECS
    requires forall m :: n <= m < NOOF_TVECS ==> !StartsBlock(m, b)
    ensures Cascading(b, n) == Handling(b)
  {
    forall k | 0 <= k < NOOF_TVECS
      ensures Cascading(b, n)[k] == Handling(b)[k]
    {
      NextAfter(k, b);
    }
  }

  lemma {:induction false} CascadesStart(b: nat)
    ensures Cascading(b, 1) == Standing(b)
    ensures b % TVR_SIZE != 0 ==> Handling(b) == Standing(b)
  {
    forall k | 0 <= k < NOOF_TVECS
      ensures b % TVR_SIZE != 0 ==> Handling(b)[k] == Standing(b)[k]
    {
      NextAfter(k, b);
    }
  }

  /** After wheel `n` has cascaded at `b`: the next wheel cascades too just when `n` has
      come to its slot 1, and otherwise no outer wheel starts a block. */
  lemma NoneOutside(n: nat, b: nat)
    requires 1 <= n < NOOF_TVECS && StartsBlock(n, b)
    ensures (BlockOf(n, b) + 1) % TVN_SIZE == 1 && n + 1 < NOOF_TVECS ==> StartsBlock(n + 1, b)
    ensures (BlockOf(n, b) + 1) % TVN_SIZE != 1 ==> forall m :: n < m < NOOF_TVECS ==> !StartsBlock(m, b)
  {
    if (BlockOf(n, b) + 1) % TVN_SIZE == 1 && n + 1 < NOOF_TVECS {
      NextStarts(n, b);
    }
    forall m | n < m < NOOF_TVECS && StartsBlock(m, b)
      ensures (BlockOf(n, b) + 1) % TVN_SIZE == 1
    {
      OuterStarts(n, b, m);
    }
  }

  lemma CascadeStep(b: nat, n: nat)
    requires 1 <= n < NOOF_TVECS && StartsBlock(n, b)
    ensures Cascading(b, n)[n] == BlockOf(n, b)
    ensures Cascading(b, n)[n := BlockOf(n, b) + 1] == Cascading(b, n + 1)
  {
  }

  // ----- Steps that move the wheels -----

  /** All timers of a cascading slot are due within the block that starts now. */
  lemma SlotIsOneBlock(a: nat, tick: nat, k: nat, b: nat)
    requires 1 <= k < NOOF_TVECS && StartsBlock(k, b) && BlockOf(k, b) == a
    requires InBlock(k, a, tick, a % TVN_SIZE)
    ensures BlockOf(k, tick) == a
    ensures WheelFor(b, tick) < k
  {
    if k == 1 {
    } else if k == 2 {
    } else if k == 3 {
    } else {
    }
  }

  /** The same timers are pending in both. */
  ghost function SameTimers(tv: seq<TimerVec>, tv': seq<TimerVec>): Status {
    if forall t: Timer :: InWheels(tv', t) == InWheels(tv, t) then Sound else Broken
  }

  lemma SameHolds(tv: seq<TimerVec>, tv': seq<TimerVec>, pending: multiset<Timer>)
    requires SameTimers(tv, tv').Sound? && Holds(tv, pending)
    ensures Holds(tv', pending)
  {
    forall t: Timer
      ensures InWheels(tv', t) == pending[t]
    {
      HoldsCount(tv, pending, t);
    }
  }

  lemma SameJoins(tv: seq<TimerVec>, tv1: seq<TimerVec>, tv2: seq<TimerVec>)
    requires SameTimers(tv, tv1).Sound? && SameTimers(tv1, tv2).Sound?
    ensures SameTimers(tv, tv2).Sound?
  {
    forall t: Timer
      ensures InWheels(tv2, t) == InWheels(tv, t)
    {
      assert InWheels(tv2, t) == InWheels(tv1, t);
    }
  }

  lemma SameSlots(tv: seq<TimerVec>, k: nat, w: TimerVec)
    requires k < |tv| && w.vec == tv[k].vec
    ensures SameTimers(tv, tv[k := w]).Sound?
  {
    forall t: Timer
      ensures InWheels(tv[k := w], t) == InWheels(tv, t)
    {
      InWheelsUpdate(tv, k, w, t);
    }
  }

  lemma ReplaceIndex(tv: seq<TimerVec>, b: nat, a: seq<nat>, k: nat, w: TimerVec)
    requires Consistent(tv, b, a) && 1 <= k < NOOF_TVECS
    requires w == tv[k].(index := tv[k].index % TVN_SIZE)
    ensures Consistent(tv[k := w], b, a) && SameTimers(tv, tv[k := w]).Sound?
  {
    WheelIs(tv, b, a, k);
    ReplaceWheel(tv, b, a, k, w, a[k]);
    assert a[k := a[k]] == a;
    SameSlots(tv, k, w);
  }

  /** An emptied slot and the next index: the wheel stands one block further. */
  lemma SlotHandled(k: nat, w: TimerVec, b: nat, a: nat, w': TimerVec)
    requires 1 <= k < NOOF_TVECS && WheelPlaced(k, w, b, a) && w.vec[a % TVN_SIZE] == []
    requires w' == w.(index := (a + 1) % TVN_SIZE)
    ensures WheelPlaced(k, w', b, a + 1) && IndexStands(k, w', b, a + 1)
  {
    forall i, j | 0 <= i < |w.vec| && 0 <= j < |w.vec[i]|
      ensures InBlock(k, a + 1, w.vec[i][j].timer.tick, i)
    {
      assert Placed(k, b, a, w.vec[i][j].timer.tick, i);
      assert i != a % TVN_SIZE;
    }
  }

  /** With the current slot empty nothing in the innermost wheel is due. */
  lemma RootAdvances(w: TimerVec, b: nat, w': TimerVec)
    requires WheelPlaced(0, w, b, b) && w.vec[b % TVR_SIZE] == []
    requires w' == w.(index := (b + 1) % TVR_SIZE)
    ensures WheelPlaced(0, w', b + 1, b + 1) && IndexStands(0, w', b + 1, b + 1)
  {
    forall i, j | 0 <= i < |w.vec| && 0 <= j < |w.vec[i]|
      ensures InRoot(b + 1, w.vec[i][j].timer.tick, i)
    {
      assert Placed(0, b, b, w.vec[i][j].timer.tick, i);
      assert i != b % TVR_SIZE;
    }
  }

  lemma OuterWheelWaits(k: nat, w: TimerVec, b: nat, a: nat)
    requires 1 <= k < NOOF_TVECS && WheelPlaced(k, w, b, a)
    ensures WheelPlaced(k, w, b + 1, a)
  {
  }

  lemma ClockAdvances(tv: seq<TimerVec>, b: nat, c: nat, tv': seq<TimerVec>)
    requires Consistent(tv, b, Handling(b)) && tv[0].vec[b % TVR_SIZE] == []
    requires c == b + 1 && tv' == tv[0 := tv[0].(index := c % TVR_SIZE)]
    ensures Consistent(tv', c, Standing(c))
  {
    WheelIs(tv, b, Handling(b), 0);
    RootAdvances(tv[0], b, tv'[0]);
    forall k | 0 <= k < NOOF_TVECS
      ensures NextBlock(k, c) <= Standing(c)[k] <= BlockOf(k, c) + 1
      ensures WheelPlaced(k, tv'[k], c, Standing(c)[k])
      ensures IndexStands(k, tv'[k], c, Standing(c)[k])
    {
      NextAfter(k, b);
      if k > 0 {
        WheelIs(tv, b, Handling(b), k);
        OuterWheelWaits(k, tv[k], b, Handling(b)[k]);
      }
    }
  }

  lemma AfterBlock(k: nat, b: nat, tick: nat)
    requires k < NOOF_TVECS && BlockOf(k, tick) >= BlockOf(k, b) + 1
    ensures tick > b
  {
  }

  lemma BlockPlace(k: nat, w: TimerVec, b: nat, a: nat, t: Timer) returns (i: nat, j: nat)
    requires k < NOOF_TVECS && WheelPlaced(k, w, b, a) && InSlots(w.vec, t) > 0
    ensures i < |w.vec| && j < |w.vec[i]| && w.vec[i][j].timer == t && Placed(k, b, a, t.tick, i)
  {
    i := InSlotsFind(w.vec, t);
    j := InListFind(w.vec[i], t);
    assert Placed(k, b, a, w.vec[i][j].timer.tick, i);
  }

  /** Every pending timer sits in the slot of its tick, within 64 blocks of its wheel's
      next cascade, or is late and in the current slot. */
  lemma TimerPlace(tv: seq<TimerVec>, b: nat, a: seq<nat>, t: Timer) returns (k: nat, i: nat, j: nat)
    requires Consistent(tv, b, a) && InWheels(tv, t) > 0
    ensures k < NOOF_TVECS && i < |tv[k].vec| && j < |tv[k].vec[i]|
    ensures tv[k].vec[i][j].timer == t && Placed(k, b, a[k], t.tick, i)
  {
    k := InWheelsFind(tv, t);
    WheelIs(tv, b, a, k);
    i, j := BlockPlace(k, tv[k], b, a[k], t);
  }

  /** Once the current slot is empty, everything pending lies after the clock. */
  lemma NothingDue(tv: seq<TimerVec>, b: nat, t: Timer)
    requires Consistent(tv, b, Handling(b)) && tv[0].vec[b % TVR_SIZE] == [] && InWheels(tv, t) > 0
    ensures t.tick > b
  {
    var k, i, j := TimerPlace(tv, b, Handling(b), t);
    PlacedAfter(k, b, t.tick, i);
  }

  lemma PlacedAfter(k: nat, b: nat, tick: nat, i: nat)
    requires k < NOOF_TVECS && Placed(k, b, Handling(b)[k], tick, i)
    requires k == 0 ==> i != b % TVR_SIZE
    ensures tick > b
  {
    if k > 0 {
      AfterBlock(k, b, tick);
    }
  }

  /** A timer in the current slot is due. */
  lemma SlotIsDue(tv: seq<TimerVec>, b: nat, a: seq<nat>, i: nat)
    requires Consistent(tv, b, a) && i == b % TVR_SIZE < |tv[0].vec| && tv[0].vec[i] != []
    ensures tv[0].vec[i][0].timer.tick <= b && tv[0].vec[i][0].whichPan == 0
  {
    FirstKnowsWheel(tv, b, a, 0, i);
    DueInSlot(b, tv[0].vec[i][0].timer.tick);
  }

  lemma DueInSlot(b: nat, tick: nat)
    requires InRoot(b, tick, b % TVR_SIZE)
    ensures tick <= b
  {
  }

  /** The wheels after a timer within reach has been put last in its slot. */
  function AfterAdd(tv: seq<TimerVec>, b: nat, timer: Timer): seq<TimerVec> {
    var k := WheelFor(b, timer.tick);
    if k < |tv| && k < NOOF_TVECS && SlotFor(k, b, b % TVR_SIZE, timer.tick) < |tv[k].vec| then
      Put(tv, k, SlotFor(k, b, b % TVR_SIZE, timer.tick), Block(timer, k))
    else tv
  }

  lemma AddFits(tv: seq<TimerVec>, b: nat, a: seq<nat>, timer: Timer, k: nat, i: nat)
    requires Consistent(tv, b, a) && k == WheelFor(b, timer.tick) < NOOF_TVECS
    requires i == SlotFor(k, b, tv[0].index, timer.tick)
    ensures i < |tv[k].vec| && AfterAdd(tv, b, timer) == Put(tv, k, i, Block(timer, k))
    ensures Consistent(AfterAdd(tv, b, timer), b, a)
  {
    WheelIs(tv, b, a, 0);
    WheelIs(tv, b, a, k);
    ChosenSlotFits(b, a[k], timer.tick, k);
    PutKeeps(tv, b, a, k, i, Block(timer, k));
  }

  lemma AddCounts(tv: seq<TimerVec>, b: nat, a: seq<nat>, timer: Timer, t: Timer)
    requires Consistent(tv, b, a) && timer.tick <= b + MAX_DISTANCE
    ensures InWheels(AfterAdd(tv, b, timer), t) == InWheels(tv, t) + (if timer == t then 1 else 0)
  {
    WheelIs(tv, b, a, 0);
    var k := WheelFor(b, timer.tick);
    var i := SlotFor(k, b, b % TVR_SIZE, timer.tick);
    AddFits(tv, b, a, timer, k, i);
    PutCounts(tv, k, i, Block(timer, k), t);
  }

  lemma AddHolds(tv: seq<TimerVec>, b: nat, a: seq<nat>, timer: Timer, pending: multiset<Timer>)
    requires Consistent(tv, b, a) && timer.tick <= b + MAX_DISTANCE && Holds(tv, pending)
    ensures Holds(AfterAdd(tv, b, timer), pending + multiset{timer})
  {
    forall t: Timer
      ensures InWheels(AfterAdd(tv, b, timer), t) == (pending + multiset{timer})[t]
    {
      HoldsCount(tv, pending, t);
      AddCounts(tv, b, a, timer, t);
    }
  }

  lemma TakeHolds(tv: seq<TimerVec>, k: nat, i: nat, pending: multiset<Timer>)
    requires k < |tv| && i < |tv[k].vec| && tv[k].vec[i] != [] && Holds(tv, pending)
    ensures tv[k].vec[i][0].timer in pending
    ensures Holds(Take(tv, k, i), pending - multiset{tv[k].vec[i][0].timer})
  {
    var timer := tv[k].vec[i][0].timer;
    TakeCounts(tv, k, i, timer);
    HoldsCount(tv, pending, timer);
    forall t: Timer
      ensures InWheels(Take(tv, k, i), t) == (pending - multiset{timer})[t]
    {
      HoldsCount(tv, pending, t);
      TakeCounts(tv, k, i, t);
    }
  }

  lemma FarStays(tv: seq<TimerVec>, b: nat, timer: Timer)
    requires timer.tick > b + MAX_DISTANCE
    ensures AfterAdd(tv, b, timer) == tv
  {
  }

  // ----- The first wheels -----

  lemma {:induction false} NoneInSlots(vec: seq<seq<Block>>, t: Timer)
    requires forall i :: 0 <= i < |vec| ==> vec[i] == []
    ensures InSlots(vec, t) == Total(vec) == 0
  {
    if vec != [] {
      NoneInSlots(vec[..|vec| - 1], t);
    }
  }

  lemma {:induction false} NoneInWheels(tv: seq<TimerVec>, t: Timer)
    requires forall k :: 0 <= k < |tv| ==> InSlots(tv[k].vec, t) == 0
    ensures InWheels(tv, t) == 0
  {
    if tv != [] {
      NoneInWheels(tv[..|tv| - 1], t);
    }
  }

  /** All slots are there and empty. */
  ghost predicate Blank(w: TimerVec, slots: nat) {
    w.num == 0 && w.vec == seq(slots, i => [])
  }

  /** Empty wheels whose indices were set from `cur` stand right for clock `b`. */
  lemma RevisedStands(tv: seq<TimerVec>, cur: nat, b: nat)
    requires |tv| == NOOF_TVECS && b == if cur % TVR_SIZE == 0 then cur + 1 else cur
    requires Blank(tv[0], TVR_SIZE) && tv[0].index == b % TVR_SIZE
    requires forall k :: 1 <= k < NOOF_TVECS ==>
               Blank(tv[k], TVN_SIZE) && tv[k].index == BlockOf(k, cur) % TVN_SIZE + 1
    ensures Consistent(tv, b, Standing(b)) && Holds(tv, multiset{})
  {
    forall k | 0 <= k < NOOF_TVECS
      ensures WheelPlaced(k, tv[k], b, NextBlock(k, b)) && IndexStands(k, tv[k], b, NextBlock(k, b))
    {
      RevisedWheel(k, tv[k], cur, b, NextBlock(k, b));
    }
    forall t: Timer
      ensures InWheels(tv, t) == 0
    {
      forall k | 0 <= k < NOOF_TVECS
        ensures InSlots(tv[k].vec, t) == 0
      {
        NoneInSlots(tv[k].vec, t);
      }
      NoneInWheels(tv, t);
    }
  }

  lemma RevisedWheel(k: nat, w: TimerVec, cur: nat, b: nat, a: nat)
    requires k < NOOF_TVECS && Blank(w, if k == 0 then TVR_SIZE else TVN_SIZE)
    requires b == if cur % TVR_SIZE == 0 then cur + 1 else cur
    requires a == NextBlock(k, b)
    requires w.index == if k == 0 then b % TVR_SIZE else BlockOf(k, cur) % TVN_SIZE + 1
    ensures WheelPlaced(k, w, b, a) && IndexStands(k, w, b, a)
  {
    NoneInSlots(w.vec, Timer(0, 0, 0, 0));
    RevisedIndex(k, cur, b);
  }

  lemma {:induction false} RevisedIndex(k: nat, cur: nat, b: nat)
    requires k < NOOF_TVECS && b == if cur % TVR_SIZE == 0 then cur + 1 else cur
    ensures k > 0 ==> NextBlock(k, b) == BlockOf(k, cur) + 1
    ensures NextBlock(k, b) <= BlockOf(k, b) + 1
  {
    NextAfter(k, b);
    if k > 0 && StartsBlock(k, cur) {
      assert cur % TVR_SIZE == 0 by {
        if k == 1 {
        } else if k == 2 {
        } else if k == 3 {
        } else {
        }
      }
    }
  }

  // ----- Cascading -----

  /** Slot `i` of wheel `n` is being emptied: `rest` is left in it, its other slots and
      the outer wheels are as in `tv0`, and no timer is lost. */
  ghost predicate Emptying(tv0: seq<TimerVec>, n: nat, i: nat, rest: seq<Block>, tv: seq<TimerVec>) {
    && |tv| == |tv0| == NOOF_TVECS && n < NOOF_TVECS && i < |tv0[n].vec|
    && tv[n].index == i && tv[n].vec == tv0[n].vec[i := rest]
    && (forall m :: n < m < NOOF_TVECS ==> tv[m] == tv0[m])
    && SameTimers(tv0, tv).Sound?
  }

  /** Every timer of the list belongs in a wheel inside `n`. */
  ghost predicate FallsInward(n: nat, b: nat, list: seq<Block>)
    ensures FallsInward(n, b, list) && list != [] ==> WheelFor(b, list[0].timer.tick) < n
  {
    forall j :: 0 <= j < |list| ==> WheelFor(b, list[j].timer.tick) < n
  }

  lemma SlotFallsInward(tv: seq<TimerVec>, b: nat, a: seq<nat>, n: nat, i: nat)
    requires Consistent(tv, b, a)
    requires 1 <= n < NOOF_TVECS && StartsBlock(n, b) && a[n] == BlockOf(n, b) && tv[n].index < TVN_SIZE
    requires i == tv[n].index
    ensures i == a[n] % TVN_SIZE && i < |tv[n].vec| && FallsInward(n, b, tv[n].vec[i])
    ensures Emptying(tv, n, i, tv[n].vec[i], tv)
  {
    WheelIs(tv, b, a, n);
    forall j | 0 <= j < |tv[n].vec[i]|
      ensures WheelFor(b, tv[n].vec[i][j].timer.tick) < n
    {
      assert Placed(n, b, a[n], tv[n].vec[i][j].timer.tick, i);
      SlotIsOneBlock(a[n], tv[n].vec[i][j].timer.tick, n, b);
    }
    assert tv[n].vec[i := tv[n].vec[i]] == tv[n].vec;
  }

  lemma FirstOfRest(tv0: seq<TimerVec>, n: nat, i: nat, rest: seq<Block>, tv: seq<TimerVec>)
    requires Emptying(tv0, n, i, rest, tv) && rest != []
    ensures n < |tv| && i < |tv[n].vec| && tv[n].vec[i] == rest
  {
  }

  /** One timer moves from the slot to an inner wheel. */
  lemma CascadeOne(tv0: seq<TimerVec>, b: nat, a: seq<nat>, n: nat, i: nat, rest: seq<Block>,
                   tv: seq<TimerVec>, t: Timer, tv': seq<TimerVec>)
    requires Consistent(tv, b, a) && Emptying(tv0, n, i, rest, tv)
    requires rest != [] && t == rest[0].timer && FallsInward(n, b, rest)
    requires n < NOOF_TVECS && i < |tv[n].vec| && tv[n].vec[i] == rest
    requires tv' == AfterAdd(Take(tv, n, i), b, t)
    ensures Emptying(tv0, n, i, rest[1..], tv') && FallsInward(n, b, rest[1..])
  {
    TakeKeeps(tv, b, a, n, i);
    OnlyInner(Take(tv, n, i), b, t, n);
    assert tv'[n].vec == tv0[n].vec[i := rest[1..]];
    forall u: Timer
      ensures InWheels(tv', u) == InWheels(tv0, u)
    {
      TakeCounts(tv, n, i, u);
      AddCounts(Take(tv, n, i), b, a, t, u);
      assert InWheels(tv, u) == InWheels(tv0, u);
    }
  }

  /** Re-initialising the head of an emptied list drops nothing. */
  lemma HeadIsEmpty(tv: seq<TimerVec>, n: nat, i: nat)
    requires n < |tv| && i < |tv[n].vec| && tv[n].vec[i] == []
    ensures tv[n := tv[n].(vec := tv[n].vec[i := []])] == tv
  {
    assert tv[n].vec[i := []] == tv[n].vec;
  }

  lemma OnlyInner(tv: seq<TimerVec>, b: nat, t: Timer, n: nat)
    requires WheelFor(b, t.tick) < n
    ensures |AfterAdd(tv, b, t)| == |tv|
    ensures forall m :: n <= m < |tv| ==> AfterAdd(tv, b, t)[m] == tv[m]
  {
  }

  lemma IndexGoes(b: nat)
    ensures (b % TVR_SIZE + 1) % TVR_SIZE == (b + 1) % TVR_SIZE
  {
  }

  lemma IndexSteps(a: nat)
    ensures (a % TVN_SIZE + 1) % TVN_SIZE == (a + 1) % TVN_SIZE
  {
  }

  lemma CascadeEnds(tv0: seq<TimerVec>, b: nat, a: seq<nat>, n: nat, i: nat, tv: seq<TimerVec>, tv': seq<TimerVec>)
    requires Consistent(tv, b, a) && Emptying(tv0, n, i, [], tv)
    requires 1 <= n < NOOF_TVECS && a[n] == BlockOf(n, b) && i == a[n] % TVN_SIZE
    requires tv' == tv[n := tv[n].(index := (i + 1) % TVN_SIZE)]
    ensures Consistent(tv', b, a[n := a[n] + 1])
    ensures SameTimers(tv0, tv').Sound?
    ensures tv'[n].index == (a[n] + 1) % TVN_SIZE && tv'[n].vec == tv0[n].vec[i := []]
    ensures forall m :: n < m < NOOF_TVECS ==> tv'[m] == tv0[m]
  {
    WheelIs(tv, b, a, n);
    IndexSteps(a[n]);
    EmptiedWheel(tv, b, a, n, tv[n], tv'[n]);
    SameSlots(tv, n, tv'[n]);
    forall t: Timer
      ensures InWheels(tv', t) == InWheels(tv0, t)
    {
      assert InWheels(tv', t) == InWheels(tv, t) == InWheels(tv0, t);
    }
  }

  lemma EmptiedWheel(tv: seq<TimerVec>, b: nat, a: seq<nat>, n: nat, w: TimerVec, w': TimerVec)
    requires Consistent(tv, b, a) && 1 <= n < NOOF_TVECS && a[n] == BlockOf(n, b)
    requires w == tv[n] && w.vec[a[n] % TVN_SIZE] == []
    requires w' == w.(index := (a[n] + 1) % TVN_SIZE)
    ensures Consistent(tv[n := w'], b, a[n := a[n] + 1])
  {
    WheelIs(tv, b, a, n);
    SlotHandled(n, w, b, a[n], w');
    ReplaceWheel(tv, b, a, n, w', a[n] + 1);
  }

  // ----- The counters -----

  ghost function ListBag(list: seq<Block>): multiset<Timer> {
    if list == [] then multiset{} else ListBag(list[..|list| - 1]) + multiset{list[|list| - 1].timer}
  }

  ghost function SlotsBag(vec: seq<seq<Block>>): multiset<Timer> {
    if vec == [] then multiset{} else SlotsBag(vec[..|vec| - 1]) + ListBag(vec[|vec| - 1])
  }

  ghost function WheelsBag(tv: seq<TimerVec>): multiset<Timer> {
    if tv == [] then multiset{} else WheelsBag(tv[..|tv| - 1]) + SlotsBag(tv[|tv| - 1].vec)
  }

  function Counters(tv: seq<TimerVec>): int {
    if tv == [] then 0 else Counters(tv[..|tv| - 1]) + tv[|tv| - 1].num
  }

  lemma {:induction false} ListBagCounts(list: seq<Block>, t: Timer)
    ensures ListBag(list)[t] == InList(list, t) && |ListBag(list)| == |list|
    decreases |list|
  {
    if list != [] {
      ListBagCounts(list[..|list| - 1], t);
    }
  }

  lemma {:induction false} SlotsBagCounts(vec: seq<seq<Block>>, t: Timer)
    ensures SlotsBag(vec)[t] == InSlots(vec, t) && |SlotsBag(vec)| == Total(vec)
    decreases |vec|
  {
    if vec != [] {
      SlotsBagCounts(vec[..|vec| - 1], t);
      ListBagCounts(vec[|vec| - 1], t);
    }
  }

  lemma {:induction false} WheelsBagCounts(tv: seq<TimerVec>, t: Timer)
    requires forall k :: 0 <= k < |tv| ==> tv[k].num == Total(tv[k].vec)
    ensures WheelsBag(tv)[t] == InWheels(tv, t) && |WheelsBag(tv)| == Counters(tv)
    decreases |tv|
  {
    if tv != [] {
      WheelsBagCounts(tv[..|tv| - 1], t);
      SlotsBagCounts(tv[|tv| - 1].vec, t);
    }
  }

  /** The counters of the wheels add up to the number of pending timers. */
  lemma CountersAddUp(tv: seq<TimerVec>, b: nat, a: seq<nat>, pending: multiset<Timer>)
    requires Consistent(tv, b, a) && Holds(tv, pending)
    ensures Counters(tv) == |pending|
  {
    forall k | 0 <= k < |tv|
      ensures tv[k].num == Total(tv[k].vec)
    {
      WheelIs(tv, b, a, k);
    }
    forall t: Timer
      ensures WheelsBag(tv)[t] == pending[t]
    {
      WheelsBagCounts(tv, t);
      HoldsCount(tv, pending, t);
    }
    WheelsBagCounts(tv, Timer(0, 0, 0, 0));
    assert WheelsBag(tv) == pending;
  }
}
