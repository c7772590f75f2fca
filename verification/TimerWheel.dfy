/** platform/common/src/mxTimer.cpp.back: five wheels of timer lists over a 64-bit
    tick, with timers cascading from the outer wheels to the inner ones. */
module TimerWheel {
  import opened TimerTrace

  const TVR_SIZE: nat := 256
  const TVN_SIZE: nat := 64
  const NOOF_TVECS: nat := 5

  /** A pending timer and the wheel it was put in. */
  datatype Block = Block(timer: Timer, whichPan: nat)

  /** One wheel: the slot to handle next, the number of timers, and the slots. */
  datatype TimerVec = TimerVec(index: nat, num: int, vec: seq<seq<Block>>)

  // ----- Contents -----

  function InList(list: seq<Block>, t: Timer): nat {
    if list == [] then 0 else InList(list[..|list| - 1], t) + (if list[|list| - 1].timer == t then 1 else 0)
  }

  function InSlots(vec: seq<seq<Block>>, t: Timer): nat {
    if vec == [] then 0 else InSlots(vec[..|vec| - 1], t) + InList(vec[|vec| - 1], t)
  }

  /** How often timer `t` is pending in the wheels. */
  function InWheels(tv: seq<TimerVec>, t: Timer): nat {
    if tv == [] then 0 else InWheels(tv[..|tv| - 1], t) + InSlots(tv[|tv| - 1].vec, t)
  }

  function Total(vec: seq<seq<Block>>): nat {
    if vec == [] then 0 else Total(vec[..|vec| - 1]) + |vec[|vec| - 1]|
  }

  /** The wheels hold exactly the timers of `pending`. */
  ghost predicate Holds(tv: seq<TimerVec>, pending: multiset<Timer>) {
    forall t: Timer {:trigger InWheels(tv, t)} :: InWheels(tv, t) == pending[t]
  }

  lemma HoldsCount(tv: seq<TimerVec>, pending: multiset<Timer>, t: Timer)
    requires Holds(tv, pending)
    ensures InWheels(tv, t) == pending[t]
  {
  }

  lemma {:induction false} InListPrepend(b: Block, list: seq<Block>, t: Timer)
    ensures InList([b] + list, t) == (if b.timer == t then 1 else 0) + InList(list, t)
    decreases |list|
  {
    if list == [] {
      assert [b] + list == [b];
      assert [b][..0] == [];
    } else {
      var n := |list| - 1;
      assert ([b] + list)[..|[b] + list| - 1] == [b] + list[..n];
      InListPrepend(b, list[..n], t);
    }
  }

  lemma {:induction false} InListFind(list: seq<Block>, t: Timer) returns (i: nat)
    requires InList(list, t) > 0
    ensures i < |list| && list[i].timer == t
    decreases |list|
  {
    var n := |list| - 1;
    if list[n].timer == t {
      i := n;
    } else {
      i := InListFind(list[..n], t);
    }
  }

  /** Changing one slot changes the contents by that slot only. */
  lemma {:induction false} InSlotsUpdate(vec: seq<seq<Block>>, i: nat, list: seq<Block>, t: Timer)
    requires i < |vec|
    ensures InSlots(vec[i := list], t) + InList(vec[i], t) == InSlots(vec, t) + InList(list, t)
    ensures Total(vec[i := list]) + |vec[i]| == Total(vec) + |list|
    decreases |vec|
  {
    var n := |vec| - 1;
    var vec' := vec[i := list];
    if i == n {
      assert vec'[..n] == vec[..n];
    } else {
      assert vec'[..n] == vec[..n][i := list];
      InSlotsUpdate(vec[..n], i, list, t);
    }
  }

  lemma {:induction false} InSlotsFind(vec: seq<seq<Block>>, t: Timer) returns (i: nat)
    requires InSlots(vec, t) > 0
    ensures i < |vec| && InList(vec[i], t) > 0
    decreases |vec|
  {
    var n := |vec| - 1;
    if InList(vec[n], t) > 0 {
      i := n;
    } else {
      i := InSlotsFind(vec[..n], t);
    }
  }

  lemma {:induction false} InWheelsUpdate(tv: seq<TimerVec>, k: nat, w: TimerVec, t: Timer)
    requires k < |tv|
    ensures InWheels(tv[k := w], t) + InSlots(tv[k].vec, t) == InWheels(tv, t) + InSlots(w.vec, t)
    decreases |tv|
  {
    var n := |tv| - 1;
    var tv' := tv[k := w];
    if k == n {
      assert tv'[..n] == tv[..n];
    } else {
      assert tv'[..n] == tv[..n][k := w];
      InWheelsUpdate(tv[..n], k, w, t);
    }
  }

  lemma {:induction false} InWheelsFind(tv: seq<TimerVec>, t: Timer) returns (k: nat)
    requires InWheels(tv, t) > 0
    ensures k < |tv| && InSlots(tv[k].vec, t) > 0
    decreases |tv|
  {
    var n := |tv| - 1;
    if InSlots(tv[n].vec, t) > 0 {
      k := n;
    } else {
      k := InWheelsFind(tv[..n], t);
    }
  }

  // ----- Geometry -----

  /** Ticks covered by one slot of wheel `k`. */
  function Width(k: nat): nat
    requires k < NOOF_TVECS
  {
    if k == 0 then 1 else if k == 1 then 0x100 else if k == 2 then 0x4000 else if k == 3 then 0x10_0000 else 0x400_0000
  }

  /** The number of the block of wheel `k` that tick `t` belongs to. */
  function BlockOf(k: nat, t: nat): nat
    requires k < NOOF_TVECS
  {
    if k == 0 then t else if k == 1 then t / 0x100 else if k == 2 then t / 0x4000
    else if k == 3 then t / 0x10_0000 else t / 0x400_0000
  }

  /** Whether a block of wheel `k` starts at tick `t`. */
  predicate StartsBlock(k: nat, t: nat)
    requires k < NOOF_TVECS
  {
    t == 0 || BlockOf(k, t - 1) < BlockOf(k, t)
  }

  /** The number of the block of wheel `k` that will cascade next, when the clock shows
      `b` and nothing of tick `b` itself has cascaded. */
  function NextBlock(k: nat, b: nat): nat
    requires k < NOOF_TVECS
  {
    if StartsBlock(k, b) then BlockOf(k, b) else BlockOf(k, b) + 1
  }

  /** Where a timer with tick `tick` may be put in wheel `k >= 1`, whose next block to
      cascade is `a`: in the slot of its block, at most 64 blocks ahead. */
  predicate InBlock(k: nat, a: nat, tick: nat, i: nat)
    requires k < NOOF_TVECS
  {
    a <= BlockOf(k, tick) < a + TVN_SIZE && i == BlockOf(k, tick) % TVN_SIZE
  }

  /** Where a timer may be in the innermost wheel: in the slot of its tick, or in the
      current slot if it is late. */
  predicate InRoot(b: nat, tick: nat, i: nat) {
    if tick < b then i == b % TVR_SIZE else tick < b + TVR_SIZE && i == tick % TVR_SIZE
  }

  predicate Placed(k: nat, b: nat, a: nat, tick: nat, i: nat)
    requires k < NOOF_TVECS
  {
    if k == 0 then InRoot(b, tick, i) else InBlock(k, a, tick, i)
  }

  /** Every timer of wheel `k` is where it belongs and knows its wheel. */
  ghost predicate WheelPlaced(k: nat, w: TimerVec, b: nat, a: nat)
    requires k < NOOF_TVECS
    ensures WheelPlaced(k, w, b, a) ==> |w.vec| == (if k == 0 then TVR_SIZE else TVN_SIZE)
  {
    && |w.vec| == (if k == 0 then TVR_SIZE else TVN_SIZE)
    && w.num == Total(w.vec)
    && forall i, j :: 0 <= i < |w.vec| && 0 <= j < |w.vec[i]| ==>
          w.vec[i][j].whichPan == k && Placed(k, b, a, w.vec[i][j].timer.tick, i)
  }

  /** The stored index of a wheel stands for block number `a`. */
  predicate IndexStands(k: nat, w: TimerVec, b: nat, a: nat) {
    if k == 0 then w.index == b % TVR_SIZE else w.index <= TVN_SIZE && w.index % TVN_SIZE == a % TVN_SIZE
  }

  /** The wheels are consistent at clock `b`, `a[k]` being the next block of wheel `k`. */
  ghost predicate Consistent(tv: seq<TimerVec>, b: nat, a: seq<nat>)
    ensures Consistent(tv, b, a) ==> |tv| == |a| == NOOF_TVECS
  {
    && |tv| == |a| == NOOF_TVECS
    && forall k :: 0 <= k < NOOF_TVECS ==>
          && WheelPlaced(k, tv[k], b, a[k]) && IndexStands(k, tv[k], b, a[k])
          && NextBlock(k, b) <= a[k] <= BlockOf(k, b) + 1
  }

  lemma WheelIs(tv: seq<TimerVec>, b: nat, a: seq<nat>, k: nat)
    requires Consistent(tv, b, a) && k < NOOF_TVECS
    ensures WheelPlaced(k, tv[k], b, a[k]) && IndexStands(k, tv[k], b, a[k])
    ensures NextBlock(k, b) <= a[k] <= BlockOf(k, b) + 1
    ensures |tv[k].vec| == (if k == 0 then TVR_SIZE else TVN_SIZE)
  {
  }

  /** The wheel a timer goes to, from the distance to its tick; none if too far. */
  function WheelFor(b: nat, tick: nat): (k: nat)
    ensures k <= NOOF_TVECS
    ensures k == NOOF_TVECS <==> tick > b + MAX_DISTANCE
  {
    if tick < b + Width(1) then 0
    else if tick < b + Width(2) then 1
    else if tick < b + Width(3) then 2
    else if tick < b + Width(4) then 3
    else if tick - b <= MAX_DISTANCE then 4
    else 5
  }

  function SlotFor(k: nat, b: nat, index: nat, tick: nat): nat
    requires k < NOOF_TVECS
  {
    if k == 0 then (if tick < b then index else tick % TVR_SIZE) else BlockOf(k, tick) % TVN_SIZE
  }

  /** The chosen slot is one where the timer belongs. */
  lemma ChosenSlotFits(b: nat, a: nat, tick: nat, k: nat)
    requires k == WheelFor(b, tick) < NOOF_TVECS
    requires NextBlock(k, b) <= a <= BlockOf(k, b) + 1
    ensures Placed(k, b, a, tick, SlotFor(k, b, b % TVR_SIZE, tick))
    ensures SlotFor(k, b, b % TVR_SIZE, tick) < (if k == 0 then TVR_SIZE else TVN_SIZE)
  {
    if k == 1 {
    } else if k == 2 {
    } else if k == 3 {
    } else if k == 4 {
    }
  }

  // ----- One timer in or out -----

  function PutLast(w: TimerVec, i: nat, block: Block): TimerVec
    requires i < |w.vec|
  {
    w.(num := w.num + 1, vec := w.vec[i := w.vec[i] + [block]])
  }

  function DropFirst(w: TimerVec, i: nat): TimerVec
    requires i < |w.vec| && w.vec[i] != []
  {
    w.(num := w.num - 1, vec := w.vec[i := w.vec[i][1..]])
  }

  lemma PutLastCounts(w: TimerVec, i: nat, block: Block, t: Timer)
    requires i < |w.vec|
    ensures InSlots(PutLast(w, i, block).vec, t) == InSlots(w.vec, t) + (if block.timer == t then 1 else 0)
    ensures Total(PutLast(w, i, block).vec) == Total(w.vec) + 1
  {
    assert (w.vec[i] + [block])[..|w.vec[i]|] == w.vec[i];
    InSlotsUpdate(w.vec, i, w.vec[i] + [block], t);
  }

  lemma DropFirstCounts(w: TimerVec, i: nat, t: Timer)
    requires i < |w.vec| && w.vec[i] != []
    ensures InSlots(DropFirst(w, i).vec, t) + (if w.vec[i][0].timer == t then 1 else 0) == InSlots(w.vec, t)
    ensures Total(DropFirst(w, i).vec) == Total(w.vec) - 1
  {
    assert [w.vec[i][0]] + w.vec[i][1..] == w.vec[i];
    InListPrepend(w.vec[i][0], w.vec[i][1..], t);
    InSlotsUpdate(w.vec, i, w.vec[i][1..], t);
  }

  lemma PutLastPlaced(k: nat, w: TimerVec, b: nat, a: nat, i: nat, block: Block)
    requires k < NOOF_TVECS && WheelPlaced(k, w, b, a) && i < |w.vec|
    requires block.whichPan == k && Placed(k, b, a, block.timer.tick, i)
    ensures WheelPlaced(k, PutLast(w, i, block), b, a)
  {
    PutLastCounts(w, i, block, block.timer);
  }

  lemma DropFirstPlaced(k: nat, w: TimerVec, b: nat, a: nat, i: nat)
    requires k < NOOF_TVECS && WheelPlaced(k, w, b, a) && i < |w.vec| && w.vec[i] != []
    ensures WheelPlaced(k, DropFirst(w, i), b, a)
  {
    DropFirstCounts(w, i, w.vec[i][0].timer);
    var w' := DropFirst(w, i);
    forall m, j | 0 <= m < |w'.vec| && 0 <= j < |w'.vec[m]|
      ensures w'.vec[m][j].whichPan == k && Placed(k, b, a, w'.vec[m][j].timer.tick, m)
    {
      if m == i {
        assert w'.vec[m][j] == w.vec[m][j + 1];
      } else {
        assert w'.vec[m][j] == w.vec[m][j];
      }
    }
  }

  lemma ReplaceWheel(tv: seq<TimerVec>, b: nat, a: seq<nat>, k: nat, w: TimerVec, x: nat)
    requires Consistent(tv, b, a) && k < NOOF_TVECS
    requires WheelPlaced(k, w, b, x) && IndexStands(k, w, b, x)
    requires NextBlock(k, b) <= x <= BlockOf(k, b) + 1
    ensures Consistent(tv[k := w], b, a[k := x])
  {
  }

  lemma ReplaceSame(tv: seq<TimerVec>, b: nat, a: seq<nat>, k: nat, w: TimerVec)
    requires Consistent(tv, b, a) && k < NOOF_TVECS
    requires WheelPlaced(k, w, b, a[k]) && w.index == tv[k].index
    ensures Consistent(tv[k := w], b, a)
  {
    WheelIs(tv, b, a, k);
    ReplaceWheel(tv, b, a, k, w, a[k]);
    assert a[k := a[k]] == a;
  }

  /** The wheels with `block` put last in slot `i` of wheel `k`. */
  function Put(tv: seq<TimerVec>, k: nat, i: nat, block: Block): seq<TimerVec>
    requires k < |tv| && i < |tv[k].vec|
  {
    tv[k := PutLast(tv[k], i, block)]
  }

  /** The wheels without the first timer of slot `i` of wheel `k`. */
  function Take(tv: seq<TimerVec>, k: nat, i: nat): seq<TimerVec>
    requires k < |tv| && i < |tv[k].vec| && tv[k].vec[i] != []
  {
    tv[k := DropFirst(tv[k], i)]
  }

  lemma PutKeeps(tv: seq<TimerVec>, b: nat, a: seq<nat>, k: nat, i: nat, block: Block)
    requires Consistent(tv, b, a) && k < NOOF_TVECS && i < |tv[k].vec|
    requires block.whichPan == k && Placed(k, b, a[k], block.timer.tick, i)
    ensures Consistent(Put(tv, k, i, block), b, a)
  {
    WheelIs(tv, b, a, k);
    PutLastPlaced(k, tv[k], b, a[k], i, block);
    ReplaceSame(tv, b, a, k, PutLast(tv[k], i, block));
  }

  lemma PutCounts(tv: seq<TimerVec>, k: nat, i: nat, block: Block, t: Timer)
    requires k < |tv| && i < |tv[k].vec|
    ensures InWheels(Put(tv, k, i, block), t) == InWheels(tv, t) + (if block.timer == t then 1 else 0)
  {
    PutLastCounts(tv[k], i, block, t);
    InWheelsUpdate(tv, k, PutLast(tv[k], i, block), t);
  }

  lemma FirstKnowsWheel(tv: seq<TimerVec>, b: nat, a: seq<nat>, k: nat, i: nat)
    requires Consistent(tv, b, a) && k < NOOF_TVECS && i < |tv[k].vec| && tv[k].vec[i] != []
    ensures tv[k].vec[i][0].whichPan == k && Placed(k, b, a[k], tv[k].vec[i][0].timer.tick, i)
  {
    WheelIs(tv, b, a, k);
  }

  lemma TakeKeeps(tv: seq<TimerVec>, b: nat, a: seq<nat>, k: nat, i: nat)
    requires Consistent(tv, b, a) && k < NOOF_TVECS && i < |tv[k].vec| && tv[k].vec[i] != []
    ensures Consistent(Take(tv, k, i), b, a)
  {
    WheelIs(tv, b, a, k);
    DropFirstPlaced(k, tv[k], b, a[k], i);
    ReplaceSame(tv, b, a, k, DropFirst(tv[k], i));
  }

  lemma TakeCounts(tv: seq<TimerVec>, k: nat, i: nat, t: Timer)
    requires k < |tv| && i < |tv[k].vec| && tv[k].vec[i] != []
    ensures InWheels(Take(tv, k, i), t) + (if tv[k].vec[i][0].timer == t then 1 else 0) == InWheels(tv, t)
  {
    DropFirstCounts(tv[k], i, t);
    InWheelsUpdate(tv, k, DropFirst(tv[k], i), t);
  }
}
