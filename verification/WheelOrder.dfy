/** The order of the timers in the wheels: timers that were set for the same tick while
    the clock showed the same stay in one slot, in the order in which they were set. */
module WheelOrder {
  import opened TimerTrace
  import opened TimerWheel
  import opened WheelMoves

  /** What timers that are alike have in common. */
  datatype Key = Key(tick: nat, born: nat)

  function KeyOf(t: Timer): Key {
    Key(t.tick, t.born)
  }

  /** Timers that are alike stand in the order in which they were set. */
  ghost predicate InOrder(list: seq<Block>) {
    forall i, j :: 0 <= i < j < |list| && Alike(list[i].timer, list[j].timer) ==>
      list[i].timer.serial < list[j].timer.serial
  }

  /** A timer of wheel `k` was set by now, and `home` sends all that are like it there. */
  predicate AtHome(t: Timer, k: nat, b: nat, next: nat, home: imap<Key, nat>) {
    t.born <= b && t.serial < next && KeyOf(t) in home && home[KeyOf(t)] == k
  }

  ghost predicate ListRanked(list: seq<Block>, k: nat, b: nat, next: nat, home: imap<Key, nat>) {
    InOrder(list) && forall j :: 0 <= j < |list| ==> AtHome(list[j].timer, k, b, next, home)
  }

  ghost predicate SlotsRanked(vec: seq<seq<Block>>, k: nat, b: nat, next: nat, home: imap<Key, nat>) {
    forall i :: 0 <= i < |vec| ==> ListRanked(vec[i], k, b, next, home)
  }

  /** A timer set at clock `b` goes to the wheel its distance calls for. */
  ghost predicate NewAtHome(b: nat, home: imap<Key, nat>) {
    forall key :: key in home && (key.born == b ==> home[key] == WheelFor(b, key.tick))
  }

  ghost predicate RankedBy(tv: seq<TimerVec>, b: nat, next: nat, home: imap<Key, nat>) {
    && NewAtHome(b, home)
    && forall k :: 0 <= k < |tv| ==> SlotsRanked(tv[k].vec, k, b, next, home)
  }

  /** Timers that are alike are all in one wheel, and stand in order in each slot; `next`
      is the number of the next setting. */
  ghost predicate Ranked(tv: seq<TimerVec>, b: nat, next: nat) {
    exists home :: RankedBy(tv, b, next, home)
  }

  lemma RankedWhenEmpty(tv: seq<TimerVec>, b: nat, next: nat)
    requires forall k, i :: 0 <= k < |tv| && 0 <= i < |tv[k].vec| ==> tv[k].vec[i] == []
    ensures Ranked(tv, b, next)
  {
    var home := imap key: Key :: WheelFor(b, key.tick);
    assert RankedBy(tv, b, next, home);
  }

  // ----- One timer in or out -----

  /** Timer `t` was set after all in the list that are like it. */
  ghost predicate MayFollow(list: seq<Block>, t: Timer) {
    forall j :: 0 <= j < |list| && Alike(list[j].timer, t) ==> list[j].timer.serial < t.serial
  }

  lemma LastInOrder(list: seq<Block>, block: Block)
    requires InOrder(list) && MayFollow(list, block.timer)
    ensures InOrder(list + [block])
  {
  }

  lemma LastRanked(list: seq<Block>, k: nat, b: nat, next: nat, home: imap<Key, nat>, block: Block, next': nat)
    requires ListRanked(list, k, b, next, home) && next <= next'
    requires AtHome(block.timer, k, b, next', home) && MayFollow(list, block.timer)
    ensures ListRanked(list + [block], k, b, next', home)
  {
    LastInOrder(list, block);
    forall j | 0 <= j < |list + [block]|
      ensures AtHome((list + [block])[j].timer, k, b, next', home)
    {
      if j < |list| {
        assert AtHome(list[j].timer, k, b, next, home);
      }
    }
  }

  lemma ListLater(list: seq<Block>, k: nat, b: nat, next: nat, home: imap<Key, nat>, next': nat)
    requires ListRanked(list, k, b, next, home) && next <= next'
    ensures ListRanked(list, k, b, next', home)
  {
    forall j | 0 <= j < |list|
      ensures AtHome(list[j].timer, k, b, next', home)
    {
      assert AtHome(list[j].timer, k, b, next, home);
    }
  }

  lemma RankedLater(tv: seq<TimerVec>, b: nat, next: nat, home: imap<Key, nat>, next': nat)
    requires RankedBy(tv, b, next, home) && next <= next'
    ensures RankedBy(tv, b, next', home)
  {
    forall k, i | 0 <= k < |tv| && 0 <= i < |tv[k].vec|
      ensures ListRanked(tv[k].vec[i], k, b, next', home)
    {
      ListLater(tv[k].vec[i], k, b, next, home, next');
    }
  }

  /** One list changed. */
  lemma SlotRanked(tv: seq<TimerVec>, b: nat, next: nat, home: imap<Key, nat>, k: nat, i: nat, tv': seq<TimerVec>)
    requires RankedBy(tv, b, next, home) && k < |tv| && i < |tv[k].vec|
    requires |tv'| == |tv| && forall m :: 0 <= m < |tv| && m != k ==> tv'[m].vec == tv[m].vec
    requires |tv'[k].vec| == |tv[k].vec| && tv'[k].vec == tv[k].vec[i := tv'[k].vec[i]]
    requires ListRanked(tv'[k].vec[i], k, b, next, home)
    ensures RankedBy(tv', b, next, home)
  {
    forall m | 0 <= m < |tv'|
      ensures SlotsRanked(tv'[m].vec, m, b, next, home)
    {
      assert SlotsRanked(tv[m].vec, m, b, next, home);
    }
  }

  /** A new timer is put behind those that were set before it. */
  lemma RankedAdd(tv: seq<TimerVec>, b: nat, a: seq<nat>, timer: Timer)
    requires Consistent(tv, b, a) && Ranked(tv, b, timer.serial) && timer.born == b
    ensures Ranked(AfterAdd(tv, b, timer), b, timer.serial + 1)
  {
    var next := timer.serial;
    var home :| RankedBy(tv, b, next, home);
    RankedLater(tv, b, next, home, next + 1);
    if timer.tick <= b + MAX_DISTANCE {
      var k := WheelFor(b, timer.tick);
      WheelIs(tv, b, a, 0);
      var i := SlotFor(k, b, b % TVR_SIZE, timer.tick);
      AddFits(tv, b, a, timer, k, i);
      var list := tv[k].vec[i];
      assert ListRanked(list, k, b, next, home);
      assert KeyOf(timer) in home;
      assert forall j :: 0 <= j < |list| ==> AtHome(list[j].timer, k, b, next, home);
      LastRanked(list, k, b, next, home, Block(timer, k), next + 1);
      SlotRanked(tv, b, next + 1, home, k, i, AfterAdd(tv, b, timer));
    } else {
      FarStays(tv, b, timer);
    }
  }

  lemma RestRanked(list: seq<Block>, k: nat, b: nat, next: nat, home: imap<Key, nat>)
    requires ListRanked(list, k, b, next, home) && list != []
    ensures ListRanked(list[1..], k, b, next, home)
  {
    assert forall j :: 0 <= j < |list[1..]| ==> list[1..][j] == list[j + 1];
  }

  lemma RankedTake(tv: seq<TimerVec>, b: nat, next: nat, k: nat, i: nat)
    requires Ranked(tv, b, next) && k < |tv| && i < |tv[k].vec| && tv[k].vec[i] != []
    ensures Ranked(Take(tv, k, i), b, next)
  {
    var home :| RankedBy(tv, b, next, home);
    assert SlotsRanked(tv[k].vec, k, b, next, home);
    RestRanked(tv[k].vec[i], k, b, next, home);
    SlotRanked(tv, b, next, home, k, i, Take(tv, k, i));
  }

  /** Only the lists matter. */
  lemma RankedSame(tv: seq<TimerVec>, b: nat, next: nat, tv': seq<TimerVec>)
    requires Ranked(tv, b, next) && |tv'| == |tv| && forall k :: 0 <= k < |tv| ==> tv'[k].vec == tv[k].vec
    ensures Ranked(tv', b, next)
  {
    var home :| RankedBy(tv, b, next, home);
    assert RankedBy(tv', b, next, home);
  }

  /** No pending timer is as new as the clock when the clock has just advanced. */
  lemma RankedTicks(tv: seq<TimerVec>, b: nat, next: nat)
    requires Ranked(tv, b, next)
    ensures Ranked(tv, b + 1, next)
  {
    var home :| RankedBy(tv, b, next, home);
    var home' := imap key: Key :: if key.born == b + 1 then WheelFor(b + 1, key.tick) else home[key];
    forall k, i, j | 0 <= k < |tv| && 0 <= i < |tv[k].vec| && 0 <= j < |tv[k].vec[i]|
      ensures AtHome(tv[k].vec[i][j].timer, k, b + 1, next, home')
    {
      assert SlotsRanked(tv[k].vec, k, b, next, home) && ListRanked(tv[k].vec[i], k, b, next, home);
    }
    forall k, i | 0 <= k < |tv| && 0 <= i < |tv[k].vec|
      ensures ListRanked(tv[k].vec[i], k, b + 1, next, home')
    {
      assert SlotsRanked(tv[k].vec, k, b, next, home);
    }
    assert RankedBy(tv, b + 1, next, home');
  }

  // ----- Which one fires -----

  /** A pending timer is where all that are like it are. */
  lemma PlaceAtHome(tv: seq<TimerVec>, b: nat, a: seq<nat>, next: nat, home: imap<Key, nat>, t: Timer)
    returns (k: nat, i: nat, j: nat)
    requires Consistent(tv, b, a) && RankedBy(tv, b, next, home) && InWheels(tv, t) > 0
    ensures k < NOOF_TVECS && i < |tv[k].vec| && j < |tv[k].vec[i]| && tv[k].vec[i][j].timer == t
    ensures Placed(k, b, a[k], t.tick, i) && AtHome(t, k, b, next, home)
  {
    k, i, j := TimerPlace(tv, b, a, t);
    assert SlotsRanked(tv[k].vec, k, b, next, home) && ListRanked(tv[k].vec[i], k, b, next, home);
  }

  /** The first timer of the current slot is the oldest of those like it. */
  lemma FirstIsOldest(tv: seq<TimerVec>, b: nat, a: seq<nat>, next: nat, i: nat, p: multiset<Timer>)
    requires Consistent(tv, b, a) && Ranked(tv, b, next) && Holds(tv, p)
    requires i == b % TVR_SIZE < |tv[0].vec| && tv[0].vec[i] != []
    ensures Oldest(tv[0].vec[i][0].timer, p)
  {
    var home :| RankedBy(tv, b, next, home);
    var list := tv[0].vec[i];
    FirstKnowsWheel(tv, b, a, 0, i);
    assert SlotsRanked(tv[0].vec, 0, b, next, home) && ListRanked(list, 0, b, next, home);
    assert AtHome(list[0].timer, 0, b, next, home);
    forall u | u in p && Alike(list[0].timer, u)
      ensures list[0].timer.serial <= u.serial
    {
      HoldsCount(tv, p, u);
      var k, i', j := PlaceAtHome(tv, b, a, next, home, u);
      assert KeyOf(u) == KeyOf(list[0].timer);
      assert k == 0 && i' == i;
    }
  }

  lemma PendingEarlier(tv: seq<TimerVec>, b: nat, a: seq<nat>, next: nat, p: multiset<Timer>)
    requires Consistent(tv, b, a) && Ranked(tv, b, next) && Holds(tv, p)
    ensures Earlier(p, next)
  {
    var home :| RankedBy(tv, b, next, home);
    forall u | u in p
      ensures u.serial < next
    {
      HoldsCount(tv, p, u);
      var k, i, j := PlaceAtHome(tv, b, a, next, home, u);
    }
  }

  // ----- While a slot is emptied -----

  /** A timer that is about to move: its new home is the wheel it falls to, and it is
      newer than those like it in its new slot. */
  ghost predicate MayFall(tv: seq<TimerVec>, t: Timer, b: nat, next: nat, home: imap<Key, nat>) {
    var k := WheelFor(b, t.tick);
    && AtHome(t, k, b, next, home) && k < |tv| && k < NOOF_TVECS
    && SlotFor(k, b, b % TVR_SIZE, t.tick) < |tv[k].vec|
    && MayFollow(tv[k].vec[SlotFor(k, b, b % TVR_SIZE, t.tick)], t)
  }

  ghost predicate EmptyingBy(tv: seq<TimerVec>, b: nat, next: nat, n: nat, i: nat, rest: seq<Block>,
                             home: imap<Key, nat>)
  {
    && n < |tv| && i < |tv[n].vec| && tv[n].vec[i] == rest
    && RankedBy(Emptied(tv, n, i), b, next, home)
    && InOrder(rest) && forall j :: 0 <= j < |rest| ==> MayFall(tv, rest[j].timer, b, next, home)
  }

  /** While slot `i` of wheel `n` is emptied: what is out of it stands in order, and what
      is left in it may follow. */
  ghost predicate EmptyingRanked(tv: seq<TimerVec>, b: nat, next: nat, n: nat, i: nat, rest: seq<Block>) {
    exists home :: EmptyingBy(tv, b, next, n, i, rest, home)
  }

  ghost function Emptied(tv: seq<TimerVec>, n: nat, i: nat): seq<TimerVec>
    requires n < |tv| && i < |tv[n].vec|
  {
    tv[n := tv[n].(vec := tv[n].vec[i := []])]
  }

  /** The homes after the block that starts now has moved inward. */
  ghost function Inward(home: imap<Key, nat>, n: nat, b: nat): imap<Key, nat>
    requires n < NOOF_TVECS && forall key :: key in home
  {
    imap key: Key ::
      if home[key] == n && BlockOf(n, key.tick) == BlockOf(n, b) then WheelFor(b, key.tick) else home[key]
  }

  /** What stays where it is keeps its home. */
  lemma OthersStay(tv: seq<TimerVec>, b: nat, a: seq<nat>, next: nat, n: nat, i: nat, home: imap<Key, nat>)
    requires Consistent(tv, b, a) && RankedBy(tv, b, next, home)
    requires 1 <= n < NOOF_TVECS && a[n] == BlockOf(n, b) && i == a[n] % TVN_SIZE < |tv[n].vec|
    ensures RankedBy(Emptied(tv, n, i), b, next, Inward(home, n, b))
  {
    var home' := Inward(home, n, b);
    var tv' := Emptied(tv, n, i);
    forall k, s | 0 <= k < |tv'| && 0 <= s < |tv'[k].vec|
      ensures ListRanked(tv'[k].vec[s], k, b, next, home')
    {
      assert SlotsRanked(tv[k].vec, k, b, next, home) && ListRanked(tv[k].vec[s], k, b, next, home);
      if k != n || s != i {
        forall j | 0 <= j < |tv[k].vec[s]|
          ensures AtHome(tv[k].vec[s][j].timer, k, b, next, home')
        {
          assert AtHome(tv[k].vec[s][j].timer, k, b, next, home);
          if k == n {
            WheelIs(tv, b, a, n);
            assert Placed(n, b, a[n], tv[n].vec[s][j].timer.tick, s);
          }
        }
      }
    }
    forall k | 0 <= k < |tv'|
      ensures SlotsRanked(tv'[k].vec, k, b, next, home')
    {
    }
  }

  /** What is in the slot goes home to an inner wheel, where nothing like it is yet. */
  lemma SlotMayFall(tv: seq<TimerVec>, b: nat, a: seq<nat>, next: nat, n: nat, i: nat, home: imap<Key, nat>, j: nat)
    requires Consistent(tv, b, a) && RankedBy(tv, b, next, home)
    requires 1 <= n < NOOF_TVECS && StartsBlock(n, b) && a[n] == BlockOf(n, b)
    requires i == a[n] % TVN_SIZE < |tv[n].vec| && j < |tv[n].vec[i]|
    ensures MayFall(tv, tv[n].vec[i][j].timer, b, next, Inward(home, n, b))
  {
    var t := tv[n].vec[i][j].timer;
    WheelIs(tv, b, a, n);
    assert Placed(n, b, a[n], t.tick, i);
    SlotIsOneBlock(a[n], t.tick, n, b);
    assert SlotsRanked(tv[n].vec, n, b, next, home) && ListRanked(tv[n].vec[i], n, b, next, home);
    assert AtHome(t, n, b, next, home);
    var k := WheelFor(b, t.tick);
    WheelIs(tv, b, a, k);
    var s := SlotFor(k, b, b % TVR_SIZE, t.tick);
    forall m | 0 <= m < |tv[k].vec[s]|
      ensures !Alike(tv[k].vec[s][m].timer, t)
    {
      assert SlotsRanked(tv[k].vec, k, b, next, home) && ListRanked(tv[k].vec[s], k, b, next, home);
      assert AtHome(tv[k].vec[s][m].timer, k, b, next, home);
    }
  }

  lemma EmptyingStarts(tv: seq<TimerVec>, b: nat, a: seq<nat>, next: nat, n: nat, i: nat)
    requires Consistent(tv, b, a) && Ranked(tv, b, next)
    requires 1 <= n < NOOF_TVECS && StartsBlock(n, b) && a[n] == BlockOf(n, b)
    requires i == a[n] % TVN_SIZE < |tv[n].vec|
    ensures EmptyingRanked(tv, b, next, n, i, tv[n].vec[i])
  {
    var home :| RankedBy(tv, b, next, home);
    OthersStay(tv, b, a, next, n, i, home);
    assert SlotsRanked(tv[n].vec, n, b, next, home) && ListRanked(tv[n].vec[i], n, b, next, home);
    forall j | 0 <= j < |tv[n].vec[i]|
      ensures MayFall(tv, tv[n].vec[i][j].timer, b, next, Inward(home, n, b))
    {
      SlotMayFall(tv, b, a, next, n, i, home, j);
    }
    assert EmptyingBy(tv, b, next, n, i, tv[n].vec[i], Inward(home, n, b));
  }

  /** The next timer of the slot may follow the one that has just moved. */
  lemma StillMayFall(tv: seq<TimerVec>, b: nat, next: nat, home: imap<Key, nat>, n: nat, t: Timer, u: Timer,
                     tv': seq<TimerVec>)
    requires n < |tv| && WheelFor(b, t.tick) < n && WheelFor(b, u.tick) < n
    requires MayFall(tv, t, b, next, home) && MayFall(tv, u, b, next, home)
    requires Alike(t, u) ==> t.serial < u.serial
    requires |tv'| == |tv| && forall k :: 0 <= k < n ==> tv'[k] == AfterAdd(tv, b, t)[k]
    ensures MayFall(tv', u, b, next, home)
  {
  }

  /** One timer has moved from the slot to the end of its new one. */
  lemma EmptyingStep(tv: seq<TimerVec>, b: nat, next: nat, n: nat, i: nat, rest: seq<Block>, tv': seq<TimerVec>)
    requires EmptyingRanked(tv, b, next, n, i, rest) && rest != [] && FallsInward(n, b, rest)
    requires n < |tv| && i < |tv[n].vec| && tv[n].vec[i] == rest
    requires tv' == AfterAdd(Take(tv, n, i), b, rest[0].timer)
    ensures EmptyingRanked(tv', b, next, n, i, rest[1..])
  {
    var home :| EmptyingBy(tv, b, next, n, i, rest, home);
    var t := rest[0].timer;
    var k := WheelFor(b, t.tick);
    var s := SlotFor(k, b, b % TVR_SIZE, t.tick);
    assert MayFall(tv, t, b, next, home);
    var w, w' := Emptied(tv, n, i), Emptied(tv', n, i);
    assert SlotsRanked(w[k].vec, k, b, next, home) && ListRanked(w[k].vec[s], k, b, next, home);
    LastRanked(w[k].vec[s], k, b, next, home, Block(t, k), next);
    assert w'[n].vec == w[n].vec;
    SlotRanked(w, b, next, home, k, s, w');
    forall j | 0 <= j < |rest[1..]|
      ensures MayFall(tv', rest[1..][j].timer, b, next, home)
    {
      StillMayFall(tv, b, next, home, n, t, rest[j + 1].timer, tv');
    }
    assert EmptyingBy(tv', b, next, n, i, rest[1..], home);
  }

  lemma EmptyingEnds(tv: seq<TimerVec>, b: nat, next: nat, n: nat, i: nat)
    requires EmptyingRanked(tv, b, next, n, i, [])
    ensures Ranked(tv, b, next)
  {
    var home :| EmptyingBy(tv, b, next, n, i, [], home);
    assert Emptied(tv, n, i) == tv by {
      assert tv[n].vec[i := []] == tv[n].vec;
    }
  }

  // ----- Timers set at different clocks -----

  /** Why the clock matters: of two timers for tick 300, the one set at clock 1 waits in wheel
      1 until tick 256, while the one set at clock 250 goes straight to slot 44 of wheel 0; the
      cascade then puts the first behind the second. */
  lemma LaterOvertakes(tv: seq<TimerVec>, first: Timer, second: Timer)
    requires |tv| == NOOF_TVECS && |tv[0].vec| == TVR_SIZE && |tv[1].vec| == TVN_SIZE
    requires first.tick == second.tick == 300 && first.born == 1 && second.born == 250
    requires tv[1].vec[SlotFor(1, 1, 1, 300)] == [Block(first, 1)]
    requires tv[0].vec[SlotFor(0, 250, 250, 300)] == [Block(second, 0)]
    ensures WheelFor(1, 300) == 1 && WheelFor(250, 300) == 0
    ensures !StartsBlock(1, 250) && StartsBlock(1, 256) && BlockOf(1, 256) == BlockOf(1, 300)
    ensures var tv' := AfterAdd(Take(tv, 1, SlotFor(1, 1, 1, 300)), 256, first);
            |tv'| == |tv| && tv'[0].vec[44] == [Block(second, 0), Block(first, 0)]
  {
    assert BlockOf(1, 300) == 1 && SlotFor(0, 256, 0, 300) == 44 == SlotFor(0, 250, 250, 300);
    assert [Block(second, 0)] + [Block(first, 0)] == [Block(second, 0), Block(first, 0)];
  }
}
