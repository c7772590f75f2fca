/** What insertion and removal do to a tree, whatever the rebalancing does: balance,
    order and contents, and the Fibonacci bound behind the fixed-size stacks. */
module AvlTheorems {
  import opened Common
  import opened AvlSpec

  // ----- In-order sequences of plugged paths -----

  lemma {:induction false} PlugInOrder<N>(p: Path<N>, t: Tree<N>)
    ensures InOrder(Plug(p, t)) == BeforeThen(p, Flat(t, After(p)))
    decreases p
  {
    match p
    case Top =>
    case Step(up, x, k, s, n, o) => PlugInOrder(up, Join(n, t, x, k, s, o));
  }

  lemma {:induction false} PlugAvl<N>(p: Path<N>, t: Tree<N>, h: int) returns (g: int)
    requires AvlAt(t, h) && PathAvl(p, h)
    ensures AvlAt(Plug(p, t), g)
    decreases p
  {
    match p
    case Top => g := h;
    case Step(up, x, k, s, n, o) => g := PlugAvl(up, Join(n, t, x, k, s, o), if s == 1 - n then h + 2 else h + 1);
  }

  /** The rotation after growth absorbs it: the subtree has its former height, and its
      entries are where they were. */
  lemma GrowTurns<N>(p: Path<N>, t: Tree<N>, h: int) returns (b: Tree<N>)
    requires Grown(p, t, h).Sound? && p.Step? && p.state == p.dir
    ensures AvlAt(b, h + 1) && PathAvl(p.up, h + 1) && GrowUp(p, t, h) == Plug(p.up, b)
    ensures Flat(b, After(p.up)) == Flat(Join(p.dir, t, p.item, p.key, p.state, p.other), After(p.up))
  {
    var a := Join(p.dir, t, p.item, p.key, p.state, p.other);
    AvlAtHeight(p.other, h - 1);
    RotateRepairs(a, p.dir, h - 1);
    RotateKeepsOrder(a, p.dir, After(p.up));
    b := Rotate(a, p.dir).tree;
  }

  /** The rotation after a loss of height absorbs it or passes it on. */
  lemma ShrinkTurns<N>(p: Path<N>, t: Tree<N>, h: int) returns (b: Tree<N>, stop: bool)
    requires Shrunk(p, t, h).Sound? && p.Step? && p.state == 1 - p.dir
    ensures stop ==> AvlAt(b, h + 3) && PathAvl(p.up, h + 3) && ShrinkUp(p, t, h) == Plug(p.up, b)
    ensures !stop ==> Shrunk(p.up, b, h + 2).Sound? && ShrinkUp(p, t, h) == ShrinkUp(p.up, b, h + 2)
    ensures Flat(b, After(p.up)) == Flat(Join(p.dir, t, p.item, p.key, p.state, p.other), After(p.up))
  {
    var a := Join(p.dir, t, p.item, p.key, p.state, p.other);
    RotateRepairs(a, 1 - p.dir, h);
    RotateKeepsOrder(a, 1 - p.dir, After(p.up));
    var rot := Rotate(a, 1 - p.dir);
    b, stop := rot.tree, rot.stop;
  }

  /** Rebalancing after growth restores the balance of the whole tree. */
  lemma {:induction false} GrowUpAvl<N>(p: Path<N>, t: Tree<N>, h: int) returns (g: int)
    requires Grown(p, t, h).Sound?
    ensures AvlAt(GrowUp(p, t, h), g)
    decreases p
  {
    match p
    case Top => g := h + 1;
    case Step(up, x, k, s, n, o) =>
      if s == BALANCED {
        g := GrowUpAvl(up, Join(n, t, x, k, n, o), h + 1);
      } else if s == 1 - n {
        g := PlugAvl(up, Join(n, t, x, k, BALANCED, o), h + 2);
      } else {
        var b := GrowTurns(p, t, h);
        g := PlugAvl(up, b, h + 1);
      }
  }

  /** Rebalancing after growth moves no entry. */
  lemma {:induction false} GrowUpOrder<N>(p: Path<N>, t: Tree<N>, h: int)
    requires Grown(p, t, h).Sound?
    ensures InOrder(GrowUp(p, t, h)) == BeforeThen(p, Flat(t, After(p)))
    decreases p
  {
    match p
    case Top =>
    case Step(up, x, k, s, n, o) =>
      if s == BALANCED {
        GrowUpOrder(up, Join(n, t, x, k, n, o), h + 1);
      } else if s == 1 - n {
        PlugInOrder(up, Join(n, t, x, k, BALANCED, o));
      } else {
        var b := GrowTurns(p, t, h);
        PlugInOrder(up, b);
      }
  }

  /** Rebalancing after shrinking restores the balance of the whole tree. */
  lemma {:induction false} ShrinkUpAvl<N>(p: Path<N>, t: Tree<N>, h: int) returns (g: int)
    requires Shrunk(p, t, h).Sound?
    ensures AvlAt(ShrinkUp(p, t, h), g)
    decreases p
  {
    match p
    case Top => g := h;
    case Step(up, x, k, s, n, o) =>
      if s == BALANCED {
        g := PlugAvl(up, Join(n, t, x, k, 1 - n, o), h + 2);
      } else if s == n {
        g := ShrinkUpAvl(up, Join(n, t, x, k, BALANCED, o), h + 1);
      } else {
        var b, stop := ShrinkTurns(p, t, h);
        if stop {
          g := PlugAvl(up, b, h + 3);
        } else {
          g := ShrinkUpAvl(up, b, h + 2);
        }
      }
  }

  /** Rebalancing after shrinking moves no entry. */
  lemma {:induction false} ShrinkUpOrder<N>(p: Path<N>, t: Tree<N>, h: int)
    requires Shrunk(p, t, h).Sound?
    ensures InOrder(ShrinkUp(p, t, h)) == BeforeThen(p, Flat(t, After(p)))
    decreases p
  {
    match p
    case Top =>
    case Step(up, x, k, s, n, o) =>
      var a := Join(n, t, x, k, s, o);
      assert BeforeThen(p, Flat(t, After(p))) == BeforeThen(up, Flat(a, After(up)));
      if s == BALANCED {
        PlugInOrder(up, Join(n, t, x, k, 1 - n, o));
      } else if s == n {
        ShrinkUpOrder(up, Join(n, t, x, k, BALANCED, o), h + 1);
      } else {
        var b, stop := ShrinkTurns(p, t, h);
        if stop {
          PlugInOrder(up, b);
        } else {
          ShrinkUpOrder(up, b, h + 2);
        }
      }
  }

  // ----- The search -----

  ghost predicate TreeBelow<N>(t: Tree<N>, k: int) {
    t.Node? ==> TreeBelow(t.left, k) && t.key < k && TreeBelow(t.right, k)
  }

  /** Every entry left of the end of the path has a key below `k`. */
  ghost predicate PathBelow<N>(p: Path<N>, k: int) {
    match p
    case Top => true
    case Step(up, _, key, _, n, o) => (n == RIGHT ==> TreeBelow(o, k) && key < k) && PathBelow(up, k)
  }

  lemma {:induction false} SortedFlat<N>(t: Tree<N>, rest: List<Entry<N>>)
    requires Sorted(Flat(t, rest))
    ensures Sorted(rest)
    ensures rest.Cons? ==> TreeBelow(t, rest.head.key)
    decreases t
  {
    match t
    case Leaf =>
    case Node(l, x, k, _, r) =>
      SortedFlat(l, Cons(Entry(x, k), Flat(r, rest)));
      SortedFlat(r, rest);
      if rest.Cons? {
        SortedAcross(Entry(x, k), r, rest);
        TreeBelowMore(l, k, rest.head.key);
      }
  }

  lemma {:induction false} SortedAcross<N>(e: Entry<N>, t: Tree<N>, rest: List<Entry<N>>)
    requires rest.Cons? && Sorted(Cons(e, Flat(t, rest)))
    ensures e.key < rest.head.key
    decreases t
  {
    match t
    case Leaf =>
    case Node(l, x, k, _, r) =>
      var mid := Cons(Entry(x, k), Flat(r, rest));
      SortedAcross(e, l, mid);
      SortedFlatOnly(l, mid);
      SortedAcross(Entry(x, k), r, rest);
  }

  lemma {:induction false} SortedFlatOnly<N>(t: Tree<N>, rest: List<Entry<N>>)
    requires Sorted(Flat(t, rest))
    ensures Sorted(rest)
    decreases t
  {
    match t
    case Leaf =>
    case Node(l, x, k, _, r) =>
      SortedFlatOnly(l, Cons(Entry(x, k), Flat(r, rest)));
      SortedFlatOnly(r, rest);
  }

  lemma {:induction false} TreeBelowMore<N>(t: Tree<N>, a: int, b: int)
    requires TreeBelow(t, a) && a <= b
    ensures TreeBelow(t, b)
    decreases t
  {
    if t.Node? {
      TreeBelowMore(t.left, a, b);
      TreeBelowMore(t.right, a, b);
    }
  }

  lemma {:induction false} SortedBeforeThen<N>(p: Path<N>, rest: List<Entry<N>>)
    requires Sorted(BeforeThen(p, rest))
    ensures Sorted(rest)
    decreases p
  {
    match p
    case Top =>
    case Step(up, x, k, _, n, o) =>
      if n == LEFT {
        SortedBeforeThen(up, rest);
      } else {
        SortedBeforeThen(up, Flat(o, Cons(Entry(x, k), rest)));
        SortedFlatOnly(o, Cons(Entry(x, k), rest));
      }
  }

  /** The search keeps the in-order sequence and splits it around the key. */
  lemma {:induction false} DescendSplits<N>(p: Path<N>, t: Tree<N>, k: int)
    requires Sorted(BeforeThen(p, Flat(t, After(p))))
    requires PathBelow(p, k) && (After(p).Cons? ==> k < After(p).head.key)
    ensures var s := Descend(p, t, k);
            && BeforeThen(s.path, Flat(s.tree, After(s.path))) == BeforeThen(p, Flat(t, After(p)))
            && PathBelow(s.path, k) && (After(s.path).Cons? ==> k < After(s.path).head.key)
            && (s.tree.Node? ==> s.tree.key == k && TreeBelow(s.tree.left, k))
    decreases t
  {
    match t
    case Leaf =>
    case Node(l, x, key, s, r) =>
      SortedBeforeThen(p, Flat(t, After(p)));
      SortedFlat(l, Cons(Entry(x, key), Flat(r, After(p))));
      if key < k {
        TreeBelowMore(l, key, k);
        DescendSplits(Step(p, x, key, s, RIGHT, l), r, k);
      } else if key > k {
        DescendSplits(Step(p, x, key, s, LEFT, r), l, k);
      }
  }

  // ----- The reference list sees through smaller entries -----

  lemma {:induction false} FlatBelow<N>(t: Tree<N>, rest: List<Entry<N>>, e: Entry<N>)
    requires TreeBelow(t, e.key)
    ensures ListInsert(Flat(t, rest), e) == Flat(t, ListInsert(rest, e))
    ensures ListRemove(Flat(t, rest), e.key) == Flat(t, ListRemove(rest, e.key))
    ensures ListFind(Flat(t, rest), e.key) == ListFind(rest, e.key)
    decreases t
  {
    match t
    case Leaf =>
    case Node(l, x, k, _, r) =>
      FlatBelow(r, rest, e);
      FlatBelow(l, Cons(Entry(x, k), Flat(r, rest)), e);
  }

  lemma {:induction false} BeforeThenBelow<N>(p: Path<N>, rest: List<Entry<N>>, e: Entry<N>)
    requires PathBelow(p, e.key)
    ensures ListInsert(BeforeThen(p, rest), e) == BeforeThen(p, ListInsert(rest, e))
    ensures ListRemove(BeforeThen(p, rest), e.key) == BeforeThen(p, ListRemove(rest, e.key))
    ensures ListFind(BeforeThen(p, rest), e.key) == ListFind(rest, e.key)
    decreases p
  {
    match p
    case Top =>
    case Step(up, x, k, _, n, o) =>
      if n == LEFT {
        BeforeThenBelow(up, rest, e);
      } else {
        BeforeThenBelow(up, Flat(o, Cons(Entry(x, k), rest)), e);
        FlatBelow(o, Cons(Entry(x, k), rest), e);
      }
  }

  lemma {:induction false} ListSorted<N>(s: List<Entry<N>>, e: Entry<N>)
    requires Sorted(s)
    ensures Sorted(ListInsert(s, e)) && Sorted(ListRemove(s, e.key))
  {
    if s.Cons? {
      ListSorted(s.tail, e);
    }
  }

  // ----- Search -----

  /** The search finds the node the sorted list holds under the key. */
  lemma SearchCorrect<N>(t: Tree<N>, k: int)
    requires Ordered(t)
    ensures var s := Descend(Top, t, k);
            ListFind(InOrder(t), k) == if s.tree.Node? then Cons(Entry(s.tree.item, k), Nil) else Nil
  {
    var s := Descend(Top, t, k);
    DescendSplits(Top, t, k);
    if s.tree.Node? {
      var e := Entry(s.tree.item, k);
      var rest := Cons(e, Flat(s.tree.right, After(s.path)));
      BeforeThenBelow(s.path, Flat(s.tree.left, rest), e);
      FlatBelow(s.tree.left, rest, e);
    } else if t.Node? {
      BeforeThenBelow(s.path, After(s.path), Entry(t.item, k));
    }
  }

  // ----- Insertion -----

  /** Whether an insertion of key `k` takes place: no node has that key and the
      search stack is large enough. */
  predicate Inserts<N>(t: Tree<N>, k: int) {
    var s := Descend(Top, t, k);
    s.tree.Leaf? && Depth(s.path) <= TREE_MAX_HEIGHT
  }

  /** Insertion keeps the tree balanced and ordered and is insertion into the sorted
      list of entries; it changes nothing at all exactly when the key is present or
      the search path is longer than the stack. */
  lemma InsertCorrect<N>(t: Tree<N>, x: N, k: int)
    requires Avl(t) && Ordered(t)
    ensures Avl(Insert(t, x, k)) && Ordered(Insert(t, x, k))
    ensures Inserts(t, k) ==> InOrder(Insert(t, x, k)) == ListInsert(InOrder(t), Entry(x, k))
    ensures !Inserts(t, k) ==> Insert(t, x, k) == t
    ensures ListFind(InOrder(t), k).Cons? ==> !Inserts(t, k)
  {
    SearchCorrect(t, k);
    if Inserts(t, k) {
      var s := Descend(Top, t, k);
      DescendSplits(Top, t, k);
      SpotAvl(t, k);
      var e := Entry(x, k);
      var g := GrowUpAvl(s.path, Node(Leaf, x, k, BALANCED, Leaf), 0);
      AvlAtHeight(Insert(t, x, k), g);
      GrowUpOrder(s.path, Node(Leaf, x, k, BALANCED, Leaf), 0);
      BeforeThenBelow(s.path, After(s.path), e);
      ListSorted(InOrder(t), e);
    }
  }

  // ----- Removal -----

  /** Taking the last node out of a subtree takes the last entry out of its sequence. */
  lemma {:induction false} LastSpotOrder<N>(p: Path<N>, t: Tree<N>, rest: List<Entry<N>>)
    requires t.Node?
    ensures var s := LastSpot(p, t);
            && BeforeThen(s.path, Flat(s.tree.left, Cons(Entry(s.tree.item, s.tree.key), rest))) ==
               BeforeThen(p, Flat(t, rest))
            && After(s.path) == After(p)
    decreases t
  {
    if t.right.Node? {
      LastSpotOrder(Step(p, t.item, t.key, t.state, RIGHT, t.left), t.right, rest);
    }
  }

  /** Filling the hole leaves exactly the other entries. */
  lemma HoleOrder<N>(p: Path<N>, t: Tree<N>)
    requires t.Node?
    ensures var h := Hole(p, t);
            BeforeThen(h.path, Flat(h.tree, After(h.path))) == BeforeThen(p, Flat(t.left, Flat(t.right, After(p))))
  {
    if t.left.Node? {
      var last := LastSpot(Top, t.left);
      var base := Step(p, last.tree.item, last.tree.key, t.state, LEFT, t.right);
      LastSpotAppend(base, Top, t.left);
      LastSpotOrder(base, t.left, Flat(t.right, After(p)));
    }
  }

  /** Removal keeps the tree balanced and ordered and is removal from the sorted
      list of entries; when no node has the key, nothing changes at all. */
  lemma RemoveCorrect<N>(t: Tree<N>, k: int)
    requires Avl(t) && Ordered(t)
    ensures Avl(Remove(t, k)) && Ordered(Remove(t, k))
    ensures InOrder(Remove(t, k)) == ListRemove(InOrder(t), k)
    ensures ListFind(InOrder(t), k).Nil? ==> Remove(t, k) == t
  {
    SearchCorrect(t, k);
    SpotAvl(t, k);
    DescendSplits(Top, t, k);
    var s := Descend(Top, t, k);
    if s.tree.Node? {
      var e := Entry(s.tree.item, k);
      HoleShrunk(s.path, s.tree, Height(s.tree));
      var h := Hole(s.path, s.tree);
      var g := ShrinkUpAvl(h.path, h.tree, Height(h.tree));
      AvlAtHeight(Remove(t, k), g);
      ShrinkUpOrder(h.path, h.tree, Height(h.tree));
      HoleOrder(s.path, s.tree);
      var rest := Cons(e, Flat(s.tree.right, After(s.path)));
      BeforeThenBelow(s.path, Flat(s.tree.left, rest), e);
      FlatBelow(s.tree.left, rest, e);
      ListSorted(InOrder(t), e);
    } else if t.Node? {
      BeforeThenBelow(s.path, After(s.path), Entry(t.item, k));
      RemoveMissing(After(s.path), k);
    }
  }

  lemma RemoveMissing<N>(s: List<Entry<N>>, k: int)
    requires s.Cons? ==> k < s.head.key
    ensures ListRemove(s, k) == s
  {
  }

  // ----- Heights and stacks -----

  function Fib(n: nat): nat {
    if n < 2 then n else Fib(n - 1) + Fib(n - 2)
  }

  lemma {:induction false} FibMonotone(a: nat, b: nat)
    requires a <= b
    ensures Fib(a) <= Fib(b)
    decreases b - a
  {
    if a < b {
      FibMonotone(a + 1, b);
      if a == 0 {
        assert Fib(1) == 1;
      }
    }
  }

  lemma FibonacciJoins(a: nat, b: nat, h: nat, left: nat, right: nat)
    requires left >= Fib(a + 2) - 1 && right >= Fib(b + 2) - 1
    requires a + 2 >= h && b + 2 >= h && (a + 1 == h || b + 1 == h)
    ensures left + 1 + right >= Fib(h + 2) - 1
  {
    FibMonotone(h, a + 2);
    FibMonotone(h, b + 2);
    assert Fib(h + 2) == Fib(h + 1) + Fib(h);
  }

  /** An AVL tree of height `h` has at least Fib(h + 2) - 1 nodes. */
  lemma {:induction false} FibonacciBound<N>(t: Tree<N>)
    requires Avl(t)
    ensures Size(t) >= Fib(Height(t) + 2) - 1
  {
    match t
    case Leaf =>
      assert Fib(2) == Fib(1) + Fib(0);
    case Node(l, _, _, _, r) =>
      FibonacciBound(l);
      FibonacciBound(r);
      FibonacciJoins(Height(l), Height(r), Height(t), Size(l), Size(r));
  }

  /** Every search path is no longer than the tree is high. */
  lemma {:induction false} DescendDepth<N>(p: Path<N>, t: Tree<N>, k: int)
    ensures var s := Descend(p, t, k); Depth(s.path) + Height(s.tree) <= Depth(p) + Height(t)
    decreases t
  {
    match t
    case Leaf =>
    case Node(l, x, key, s, r) =>
      if key < k {
        DescendDepth(Step(p, x, key, s, RIGHT, l), r, k);
      } else if key > k {
        DescendDepth(Step(p, x, key, s, LEFT, r), l, k);
      }
  }

  /** The Fibonacci numbers by iteration, to evaluate one of them. */
  function FibFrom(a: nat, b: nat, n: nat): nat
    decreases n
  {
    if n == 0 then a else FibFrom(b, a + b, n - 1)
  }

  lemma {:induction false} FibFromIsFib(m: nat, n: nat)
    ensures FibFrom(Fib(m), Fib(m + 1), n) == Fib(m + n)
    decreases n
  {
    if n > 0 {
      assert Fib(m + 2) == Fib(m + 1) + Fib(m);
      FibFromIsFib(m + 1, n - 1);
    }
  }

  lemma FiveSteps(a: nat, b: nat, n: nat)
    ensures FibFrom(a, b, n + 5) == FibFrom(3 * a + 5 * b, 5 * a + 8 * b, n)
  {
    assert FibFrom(a, b, n + 5) == FibFrom(a + b, a + 2 * b, n + 3);
    assert FibFrom(a + b, a + 2 * b, n + 3) == FibFrom(2 * a + 3 * b, 3 * a + 5 * b, n + 1);
  }

  lemma Fib35(n: nat)
    requires n == 35
    ensures Fib(n) == 9_227_465
  {
    FibFromIsFib(0, n);
    FiveSteps(0, 1, n - 5);
    FiveSteps(5, 8, n - 10);
    FiveSteps(55, 89, n - 15);
    FiveSteps(610, 987, n - 20);
    FiveSteps(6765, 10946, n - 25);
    FiveSteps(75025, 121393, n - 30);
    FiveSteps(832040, 1346269, n - 35);
  }

  /** With fewer than 9,227,464 nodes no search path reaches TREE_MAX_HEIGHT. */
  lemma SmallTreesFit<N>(t: Tree<N>)
    requires Avl(t) && Size(t) < 9_227_464
    ensures Height(t) < TREE_MAX_HEIGHT
  {
    if Height(t) >= TREE_MAX_HEIGHT {
      HighTreesAreLarge(t);
    }
  }

  lemma {:induction false} HighTreesAreLarge<N>(t: Tree<N>)
    requires Avl(t) && Height(t) >= TREE_MAX_HEIGHT
    ensures Size(t) >= 9_227_464
  {
    FibonacciBound(t);
    FibReaches(Height(t) + 2);
  }

  lemma FibReaches(m: nat)
    requires m >= 35
    ensures Fib(m) >= 9_227_465
  {
    var n :| n == 35;
    FibMonotone(n, m);
    Fib35(n);
  }

  /** In a tree of height at most 32 every search fits every stack: an insertion takes
      place exactly when the key is absent, and no removal leaves its stacks. */
  lemma LowTreesNeverFull<N>(t: Tree<N>, k: int)
    requires Height(t) < TREE_MAX_HEIGHT
    ensures Depth(Descend(Top, t, k).path) < TREE_MAX_HEIGHT && RemovalFits(t, k)
    ensures Inserts(t, k) <==> Descend(Top, t, k).tree.Leaf?
  {
    DescendDepth(Top, t, k);
    var s := Descend(Top, t, k);
    if s.tree.Node? {
      SpineHeight(s.tree.left);
    }
  }

  /** And so in every tree of fewer than 9,227,464 nodes. */
  lemma SmallTreesNeverFull<N>(t: Tree<N>, k: int)
    requires Avl(t) && Size(t) < 9_227_464
    ensures Depth(Descend(Top, t, k).path) < TREE_MAX_HEIGHT && RemovalFits(t, k)
    ensures Inserts(t, k) <==> Descend(Top, t, k).tree.Leaf?
  {
    SmallTreesFit(t);
    LowTreesNeverFull(t, k);
  }

  lemma {:induction false} SpineHeight<N>(t: Tree<N>)
    ensures RightSpine(t) <= Height(t)
  {
    if t.Node? {
      SpineHeight(t.right);
    }
  }

  // ----- A tree with a path of TREE_MAX_HEIGHT nodes -----

  function Entries(h: nat): nat {
    if h == 0 then 0 else 2 * Entries(h - 1) + 1
  }

  /** The full tree of height `h` over the keys from `low` on. */
  function FullTree<N>(h: nat, low: int, x: N): Tree<N> {
    if h == 0 then Leaf
    else
      var middle := low + Entries(h - 1);
      Node(FullTree(h - 1, low, x), x, middle, BALANCED, FullTree(h - 1, middle + 1, x))
  }

  lemma {:induction false} FullTreeIs<N>(h: nat, low: int, x: N, rest: List<Entry<N>>)
    requires Sorted(rest) && (rest.Cons? ==> rest.head.key >= low + Entries(h))
    ensures var t := FullTree(h, low, x);
            && Avl(t) && Height(t) == h && Sorted(Flat(t, rest))
            && (Flat(t, rest).Cons? ==> Flat(t, rest).head.key >= low)
    decreases h
  {
    if h > 0 {
      var middle := low + Entries(h - 1);
      FullTreeIs(h - 1, middle + 1, x, rest);
      FullTreeIs(h - 1, low, x, Cons(Entry(x, middle), Flat(FullTree(h - 1, middle + 1, x), rest)));
    }
  }

  lemma {:induction false} FullTreeMisses<N>(p: Path<N>, h: nat, low: int, x: N, k: int)
    requires k >= low + Entries(h)
    ensures var s := Descend(p, FullTree(h, low, x), k); s.tree.Leaf? && Depth(s.path) == Depth(p) + h
    decreases h
  {
    if h > 0 {
      var middle := low + Entries(h - 1);
      var l := FullTree(h - 1, low, x);
      FullTreeMisses(Step(p, x, middle, BALANCED, RIGHT, l), h - 1, middle + 1, x, k);
    }
  }

  lemma AbsentBelow<N>(h: nat, x: N) returns (t: Tree<N>, k: int)
    ensures Avl(t) && Ordered(t)
    ensures var s := Descend(Top, t, k); s.tree.Leaf? && Depth(s.path) == h
  {
    t, k := FullTree(h, 0, x), Entries(h);
    FullTreeIs(h, 0, x, Nil);
    FullTreeMisses(Top, h, 0, x, k);
  }

  /** There is an absent key whose search passes just TREE_MAX_HEIGHT nodes: Insert(1) has
      room for it, Probe has not. */
  lemma ProbeIsShorter<N>(x: N) returns (t: Tree<N>, k: int)
    ensures Avl(t) && Ordered(t) && Inserts(t, k) && Depth(Descend(Top, t, k).path) == TREE_MAX_HEIGHT
  {
    t, k := AbsentBelow(TREE_MAX_HEIGHT, x);
  }

  // ----- Replacement -----

  lemma {:induction false} FlatReplace<N>(t: Tree<N>, rest: List<Entry<N>>, k: int, y: N)
    requires TreeBelow(t, k)
    ensures ListReplace(Flat(t, rest), k, y) == Flat(t, ListReplace(rest, k, y))
    decreases t
  {
    match t
    case Leaf =>
    case Node(l, x, key, _, r) =>
      FlatReplace(r, rest, k, y);
      FlatReplace(l, Cons(Entry(x, key), Flat(r, rest)), k, y);
  }

  lemma {:induction false} BeforeThenReplace<N>(p: Path<N>, rest: List<Entry<N>>, k: int, y: N)
    requires PathBelow(p, k)
    ensures ListReplace(BeforeThen(p, rest), k, y) == BeforeThen(p, ListReplace(rest, k, y))
    decreases p
  {
    match p
    case Top =>
    case Step(up, x, key, _, n, o) =>
      if n == LEFT {
        BeforeThenReplace(up, rest, k, y);
      } else {
        BeforeThenReplace(up, Flat(o, Cons(Entry(x, key), rest)), k, y);
        FlatReplace(o, Cons(Entry(x, key), rest), k, y);
      }
  }

  lemma {:induction false} ListReplaceSorted<N>(s: List<Entry<N>>, k: int, y: N)
    requires Sorted(s)
    ensures Sorted(ListReplace(s, k, y)) && Length(ListReplace(s, k, y)) == Length(s)
  {
    if s.Cons? {
      ListReplaceSorted(s.tail, k, y);
    }
  }

  /** Replacement keeps the tree balanced and ordered and is replacement in the
      sorted list; without a match nothing changes. */
  lemma ReplaceCorrect<N>(t: Tree<N>, k: int, y: N)
    requires Avl(t) && Ordered(t)
    ensures Avl(Replace(t, k, y)) && Ordered(Replace(t, k, y))
    ensures InOrder(Replace(t, k, y)) == ListReplace(InOrder(t), k, y)
  {
    var s := Descend(Top, t, k);
    SpotAvl(t, k);
    DescendSplits(Top, t, k);
    ListReplaceSorted(InOrder(t), k, y);
    if s.tree.Node? {
      var rest := Flat(s.tree.right, After(s.path));
      PlugInOrder(s.path, s.tree.(item := y));
      var g := PlugAvl(s.path, s.tree.(item := y), Height(s.tree));
      AvlAtHeight(Plug(s.path, s.tree.(item := y)), g);
      BeforeThenReplace(s.path, Flat(s.tree, After(s.path)), k, y);
      FlatReplace(s.tree.left, Cons(Entry(s.tree.item, k), rest), k, y);
    } else {
      BeforeThenReplace(s.path, After(s.path), k, y);
    }
  }

  // ----- Runs -----

  lemma {:induction false} FlatLength<N>(t: Tree<N>, rest: List<Entry<N>>)
    ensures Length(Flat(t, rest)) == Size(t) + Length(rest)
    decreases t
  {
    match t
    case Leaf =>
    case Node(l, x, k, _, r) =>
      FlatLength(r, rest);
      FlatLength(l, Cons(Entry(x, k), Flat(r, rest)));
  }

  lemma {:induction false} ListLengths<N>(s: List<Entry<N>>, e: Entry<N>)
    ensures Length(ListInsert(s, e)) <= Length(s) + 1 && Length(ListRemove(s, e.key)) <= Length(s)
    ensures ListFind(s, e.key).Cons? ==> ListInsert(s, e) == s
  {
    if s.Cons? {
      ListLengths(s.tail, e);
    }
  }

  /** The sorted list never holds more than the tree has room for while `ops` are done. */
  ghost predicate StaysSmall<N>(ops: seq<Op<N>>) {
    forall i :: 0 <= i < |ops| ==> Length(ListRun(ops[..i])) < 9_227_464
  }

  /** Every run of insertions, removals and replacements from the empty tree, as long as
      there are fewer than 9,227,464 entries at each step, passes only through balanced,
      ordered trees, and its tree holds what the sorted list holds after the same run. */
  lemma {:induction false} RunRefinesList<N>(ops: seq<Op<N>>, trees: seq<Tree<N>>)
    requires TreeRun(ops, trees) && StaysSmall(ops)
    ensures var t := trees[|ops|]; Avl(t) && Ordered(t) && InOrder(t) == ListRun(ops) && Size(t) == Length(ListRun(ops))
    decreases |ops|
  {
    if ops == [] {
      assert Sorted(InOrder<N>(Leaf));
    } else {
      var n := |ops| - 1;
      assert forall i :: 0 <= i <= n ==> ops[..n][..i] == ops[..i];
      RunRefinesList(ops[..n], trees[..n + 1]);
      StepRefinesList(trees[n], ops[n]);
      assert trees[n + 1] == Apply(trees[n], ops[n]);
      FlatLength(trees[n + 1], Nil);
    }
  }

  /** One operation on the tree is the same operation on the sorted list. */
  lemma StepRefinesList<N>(t: Tree<N>, op: Op<N>)
    requires Avl(t) && Ordered(t) && Size(t) < 9_227_464
    ensures var t' := Apply(t, op); Avl(t') && Ordered(t') && Size(t') <= Size(t) + 1
    ensures InOrder(Apply(t, op)) == ListApply(InOrder(t), op)
  {
    FlatLength(t, Nil);
    FlatLength(Apply(t, op), Nil);
    match op
    case OpInsert(x, k) =>
      SmallTreesNeverFull(t, k);
      SearchCorrect(t, k);
      InsertCorrect(t, x, k);
      ListLengths(InOrder(t), Entry(x, k));
    case OpRemove(k) =>
      RemoveCorrect(t, k);
      if t.Node? {
        ListLengths(InOrder(t), Entry(t.item, k));
      }
    case OpReplace(k, y) =>
      ReplaceCorrect(t, k, y);
      ListReplaceSorted(InOrder(t), k, y);
  }
}
