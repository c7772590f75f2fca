/** The AVL tree of algorithms/avlTree as a mathematical value.

    A tree carries, at every node, the identity of the node object (`item`), the
    key the node compares by, and the stored balance state.  A `Path` is the trail
    the iterative operations keep on their stacks: the ancestors of a position,
    deepest first, each with the direction taken and the subtree not taken. */
module AvlSpec {
  import opened Common

  const LEFT: int := 0
  const RIGHT: int := 1
  const BALANCED: int := -1

  /** Size of the two fixed stacks every operation uses. */
  const TREE_MAX_HEIGHT: int := 33

  type Dir = n: int | 0 <= n <= 1

  datatype Tree<N> =
    | Leaf
    | Node(left: Tree<N>, item: N, key: int, state: int, right: Tree<N>)

  datatype Path<N> =
    | Top
    | Step(up: Path<N>, item: N, key: int, state: int, dir: Dir, other: Tree<N>)

  // ----- Shape -----

  /** The child of `t` on side `n`. */
  function Kid<N>(t: Tree<N>, n: Dir): Tree<N>
    requires t.Node?
  {
    if n == LEFT then t.left else t.right
  }

  /** The tree with `a` on side `n` and `b` on the other side. */
  function Join<N>(n: Dir, a: Tree<N>, item: N, key: int, state: int, b: Tree<N>): Tree<N> {
    if n == LEFT then Node(a, item, key, state, b) else Node(b, item, key, state, a)
  }

  function Height<N>(t: Tree<N>): nat {
    match t
    case Leaf => 0
    case Node(l, _, _, _, r) => 1 + if Height(l) > Height(r) then Height(l) else Height(r)
  }

  /** The stored state is the side that is higher, or BALANCED. */
  function StateFor(left: nat, right: nat): int {
    if left > right then LEFT else if right > left then RIGHT else BALANCED
  }

  /** Every stored state is the real height difference, which is at most one. */
  ghost predicate Avl<N>(t: Tree<N>) {
    match t
    case Leaf => true
    case Node(l, _, _, s, r) =>
      && Avl(l) && Avl(r)
      && -1 <= Height(l) - Height(r) <= 1
      && s == StateFor(Height(l), Height(r))
  }

  /** The stored states alone determine an AVL tree's height: `t` is one of height `h`. */
  ghost predicate AvlAt<N>(t: Tree<N>, h: int)
    decreases t, h
  {
    match t
    case Leaf => h == 0
    case Node(l, _, _, s, r) =>
      && BALANCED <= s <= RIGHT
      && AvlAt(l, if s == RIGHT then h - 2 else h - 1)
      && AvlAt(r, if s == LEFT then h - 2 else h - 1)
  }

  function Size<N>(t: Tree<N>): nat {
    match t
    case Leaf => 0
    case Node(l, _, _, _, r) => Size(l) + 1 + Size(r)
  }

  function Items<N>(t: Tree<N>): set<N> {
    match t
    case Leaf => {}
    case Node(l, x, _, _, r) => Items(l) + {x} + Items(r)
  }

  /** No node object occurs twice. */
  ghost predicate Distinct<N>(t: Tree<N>) {
    match t
    case Leaf => true
    case Node(l, x, _, _, r) =>
      && Distinct(l) && Distinct(r)
      && x !in Items(l) && x !in Items(r)
      && Items(l) !! Items(r)
  }

  // ----- Order -----

  datatype Entry<N> = Entry(item: N, key: int)

  datatype List<T> = Nil | Cons(head: T, tail: List<T>)

  /** The entries of `t` from the smallest side to the greatest, then `rest`. */
  function Flat<N>(t: Tree<N>, rest: List<Entry<N>>): List<Entry<N>> {
    match t
    case Leaf => rest
    case Node(l, x, k, _, r) => Flat(l, Cons(Entry(x, k), Flat(r, rest)))
  }

  function InOrder<N>(t: Tree<N>): List<Entry<N>> {
    Flat(t, Nil)
  }

  ghost predicate Sorted<N>(s: List<Entry<N>>) {
    s.Cons? ==> (s.tail.Cons? ==> s.head.key < s.tail.head.key) && Sorted(s.tail)
  }

  /** The search-tree order over the whole tree, not only between neighbours. */
  ghost predicate Ordered<N>(t: Tree<N>) {
    Sorted(InOrder(t))
  }

  function Length<T>(s: List<T>): nat {
    match s
    case Nil => 0
    case Cons(_, tail) => 1 + Length(tail)
  }

  // ----- The reference: a sorted list -----

  function ListInsert<N>(s: List<Entry<N>>, e: Entry<N>): List<Entry<N>> {
    match s
    case Nil => Cons(e, Nil)
    case Cons(h, tail) =>
      if h.key < e.key then Cons(h, ListInsert(tail, e))
      else if h.key == e.key then s
      else Cons(e, s)
  }

  function ListRemove<N>(s: List<Entry<N>>, k: int): List<Entry<N>> {
    match s
    case Nil => Nil
    case Cons(h, tail) =>
      if h.key < k then Cons(h, ListRemove(tail, k))
      else if h.key == k then tail
      else s
  }

  function ListReplace<N>(s: List<Entry<N>>, k: int, y: N): List<Entry<N>> {
    match s
    case Nil => Nil
    case Cons(h, tail) =>
      if h.key < k then Cons(h, ListReplace(tail, k, y))
      else if h.key == k then Cons(Entry(y, k), tail)
      else s
  }

  /** The entry with key `k`, as a list of at most one entry. */
  function ListFind<N>(s: List<Entry<N>>, k: int): List<Entry<N>> {
    match s
    case Nil => Nil
    case Cons(h, tail) =>
      if h.key < k then ListFind(tail, k)
      else if h.key == k then Cons(h, Nil)
      else Nil
  }

  // ----- Paths -----

  function Depth<N>(p: Path<N>): nat {
    match p
    case Top => 0
    case Step(up, _, _, _, _, _) => 1 + Depth(up)
  }

  /** The whole tree, when `t` hangs at the end of `p`. */
  function Plug<N>(p: Path<N>, t: Tree<N>): Tree<N> {
    match p
    case Top => t
    case Step(up, x, k, s, n, o) => Plug(up, Join(n, t, x, k, s, o))
  }

  /** The path `q`, taken from the end of `base`. */
  function Append<N>(base: Path<N>, q: Path<N>): Path<N> {
    match q
    case Top => base
    case Step(up, x, k, s, n, o) => Step(Append(base, up), x, k, s, n, o)
  }

  /** The entries left of the end of the path, then `rest`. */
  function BeforeThen<N>(p: Path<N>, rest: List<Entry<N>>): List<Entry<N>> {
    match p
    case Top => rest
    case Step(up, x, k, _, n, o) =>
      if n == LEFT then BeforeThen(up, rest) else BeforeThen(up, Flat(o, Cons(Entry(x, k), rest)))
  }

  /** The entries right of the end of the path. */
  function After<N>(p: Path<N>): List<Entry<N>> {
    match p
    case Top => Nil
    case Step(up, x, k, _, n, o) =>
      if n == LEFT then Cons(Entry(x, k), Flat(o, After(up))) else After(up)
  }

  /** Above a subtree of height `h` hanging at its end, the path is balanced. */
  ghost predicate PathAvl<N>(p: Path<N>, h: int) {
    match p
    case Top => true
    case Step(up, _, _, s, n, o) =>
      && BALANCED <= s <= RIGHT
      && AvlAt(o, if s == BALANCED then h else if s == n then h - 1 else h + 1)
      && PathAvl(up, if s == 1 - n then h + 2 else h + 1)
  }

  /** No node object occurs twice on the path and its subtrees, or in `below`. */
  ghost predicate PathDistinct<N>(p: Path<N>, below: set<N>) {
    match p
    case Top => true
    case Step(up, x, _, _, _, o) =>
      && x !in below && Items(o) !! below
      && Distinct(o) && x !in Items(o)
      && PathDistinct(up, below + {x} + Items(o))
  }

  function PathItems<N>(p: Path<N>): set<N> {
    match p
    case Top => {}
    case Step(up, x, _, _, _, o) => PathItems(up) + {x} + Items(o)
  }

  // ----- Operations -----

  datatype Spot<N> = Spot(path: Path<N>, tree: Tree<N>)

  /** Follow the comparisons from the root; stop at the match or at an empty slot. */
  function Descend<N>(p: Path<N>, t: Tree<N>, k: int): Spot<N>
    decreases t, p, k
  {
    match t
    case Leaf => Spot(p, t)
    case Node(l, x, key, s, r) =>
      if key == k then Spot(p, t)
      else if key < k then Descend(Step(p, x, key, s, RIGHT, l), r, k)
      else Descend(Step(p, x, key, s, LEFT, r), l, k)
  }

  /** Whether a rotation towards side `1 - n` has the nodes it relinks. */
  predicate CanRotate<N>(t: Tree<N>, n: Dir) {
    t.Node? && Kid(t, n).Node? && (Kid(t, n).state == 1 - n ==> Kid(Kid(t, n), 1 - n).Node?)
  }

  datatype Rotated<N> = Rotated(tree: Tree<N>, stop: bool)

  /** The relinking and the balance updates of a rotation. */
  function Rotate<N>(a: Tree<N>, n: Dir): Rotated<N>
    requires CanRotate(a, n)
  {
    var r: Dir := 1 - n;
    var c := Kid(a, n);
    var b := Kid(a, r);
    if c.state != r then
      var d, e := Kid(c, r), Kid(c, n);
      if c.state == BALANCED then
        Rotated(Join(r, Join(n, d, a.item, a.key, a.state, b), c.item, c.key, r, e), true)
      else
        Rotated(Join(r, Join(n, d, a.item, a.key, BALANCED, b), c.item, c.key, BALANCED, e), false)
    else
      var d := Kid(c, r);
      var sa := if d.state == n then r else BALANCED;
      var sc := if d.state == r then n else BALANCED;
      Rotated(
        Join(n,
             Join(n, Kid(c, n), c.item, c.key, sc, Kid(d, n)),
             d.item, d.key, BALANCED,
             Join(n, Kid(d, r), a.item, a.key, sa, b)),
        false)
  }

  /** A rotation in terms of the subtrees it moves. */
  lemma RotateForm<N>(a: Tree<N>, n: Dir)
    requires CanRotate(a, n)
    ensures var r: Dir := 1 - n; var c, b := Kid(a, n), Kid(a, r); var d, e := Kid(c, r), Kid(c, n);
      if c.state != r then
        var stop := c.state == BALANCED;
        var aa := Join(n, d, a.item, a.key, if stop then a.state else BALANCED, b);
        Rotate(a, n) == Rotated(Join(r, aa, c.item, c.key, if stop then r else BALANCED, e), stop)
      else
        var cc := Join(n, e, c.item, c.key, if d.state == r then n else BALANCED, Kid(d, n));
        var aa := Join(n, Kid(d, r), a.item, a.key, if d.state == n then r else BALANCED, b);
        Rotate(a, n) == Rotated(Join(n, cc, d.item, d.key, BALANCED, aa), false)
  {
  }

  lemma {:induction false} AvlAtHeight<N>(t: Tree<N>, h: int)
    requires AvlAt(t, h)
    ensures Avl(t) && h == Height(t)
  {
    match t
    case Leaf =>
    case Node(l, _, _, s, r) =>
      AvlAtHeight(l, if s == RIGHT then h - 2 else h - 1);
      AvlAtHeight(r, if s == LEFT then h - 2 else h - 1);
  }

  /** Reading the height off the states is the same as measuring it. */
  lemma {:induction false} AvlIsAvlAt<N>(t: Tree<N>)
    requires Avl(t)
    ensures AvlAt(t, Height(t))
  {
    match t
    case Leaf =>
    case Node(l, _, _, s, r) =>
      AvlIsAvlAt(l);
      AvlIsAvlAt(r);
  }

  /** What one rotation does to a subtree whose side `n` is two higher than the
      other and whose stored state says so: it repairs every height and state,
      and reports whether the height stayed. */
  lemma RotateRepairs<N>(a: Tree<N>, n: Dir, h: int)
    requires a.Node? && a.state == n
    requires AvlAt(Kid(a, n), h + 2) && AvlAt(Kid(a, 1 - n), h)
    ensures CanRotate(a, n)
    ensures var rot := Rotate(a, n);
            && (rot.stop <==> Kid(a, n).state == BALANCED)
            && AvlAt(rot.tree, if rot.stop then h + 3 else h + 2)
  {
    var c, b := Kid(a, n), Kid(a, 1 - n);
    AvlAtHeight(b, h);
    assert c.Node?;
    if c.state == 1 - n {
      assert Kid(c, 1 - n).Node?;
    }
  }

  /** A rotation moves no entry: the in-order sequence is the same. */
  lemma RotateKeepsOrder<N>(a: Tree<N>, n: Dir, rest: List<Entry<N>>)
    requires CanRotate(a, n)
    ensures Flat(Rotate(a, n).tree, rest) == Flat(a, rest)
  {
    var c, b := Kid(a, n), Kid(a, 1 - n);
    if c.state == 1 - n {
      var d, e := Kid(c, 1 - n), Kid(c, n);
      var f, g := Kid(d, 1 - n), Kid(d, n);
      var ea, ec, ed := Entry(a.item, a.key), Entry(c.item, c.key), Entry(d.item, d.key);
      if n == LEFT {
        var sa := Cons(ea, Flat(b, rest));
        assert Flat(c, sa) == Flat(e, Cons(ec, Flat(d, sa)));
        assert Flat(d, sa) == Flat(g, Cons(ed, Flat(f, sa)));
      } else {
        var sc := Cons(ec, Flat(e, rest));
        assert Flat(c, rest) == Flat(d, sc);
        assert Flat(d, sc) == Flat(f, Cons(ed, Flat(g, sc)));
      }
    }
  }

  lemma JoinItems<N>(n: Dir, a: Tree<N>, x: N, k: int, s: int, b: Tree<N>)
    ensures var t := Join(n, a, x, k, s, b);
            && Items(t) == Items(a) + {x} + Items(b)
            && (Distinct(t) <==> Distinct(a) && Distinct(b) && x !in Items(a) && x !in Items(b) && Items(a) !! Items(b))
  {
  }

  lemma SplitJoin<N>(t: Tree<N>, n: Dir)
    requires t.Node?
    ensures t == Join(n, Kid(t, n), t.item, t.key, t.state, Kid(t, 1 - n))
  {
  }

  /** A rotation keeps the node objects, each still occurring once. */
  lemma {:induction false} RotateKeepsItems<N>(a: Tree<N>, n: Dir)
    requires CanRotate(a, n) && Distinct(a)
    ensures Items(Rotate(a, n).tree) == Items(a)
    ensures Distinct(Rotate(a, n).tree)
  {
    var r: Dir := 1 - n;
    var c, b := Kid(a, n), Kid(a, r);
    SplitJoin(a, n);
    JoinItems(n, c, a.item, a.key, a.state, b);
    var d, e := Kid(c, r), Kid(c, n);
    SplitJoin(c, n);
    JoinItems(n, e, c.item, c.key, c.state, d);
    if c.state != r {
      var sa := if c.state == BALANCED then a.state else BALANCED;
      var sc := if c.state == BALANCED then r else BALANCED;
      JoinItems(n, d, a.item, a.key, sa, b);
      JoinItems(r, Join(n, d, a.item, a.key, sa, b), c.item, c.key, sc, e);
    } else {
      var f, g := Kid(d, r), Kid(d, n);
      SplitJoin(d, n);
      JoinItems(n, g, d.item, d.key, d.state, f);
      var sa := if d.state == n then r else BALANCED;
      var sc := if d.state == r then n else BALANCED;
      var cc, aa := Join(n, e, c.item, c.key, sc, g), Join(n, f, a.item, a.key, sa, b);
      JoinItems(n, e, c.item, c.key, sc, g);
      JoinItems(n, f, a.item, a.key, sa, b);
      JoinItems(n, cc, d.item, d.key, BALANCED, aa);
    }
  }

  /** A subtree that has just grown from height `h`, on its way up the path. */
  ghost function Grown<N>(p: Path<N>, t: Tree<N>, h: int): Status {
    if AvlAt(t, h + 1) && PathAvl(p, h) && t.Node? && (h == 0 || t.state != BALANCED) then Sound else Broken
  }

  /** Rebalance after the subtree at the end of `p` has become one higher. */
  ghost function GrowUp<N>(p: Path<N>, t: Tree<N>, h: int): (r: Tree<N>)
    requires Grown(p, t, h).Sound?
    decreases p, t, h
  {
    match p
    case Top => t
    case Step(up, x, k, s, n, o) =>
      if s == BALANCED then GrowUp(up, Join(n, t, x, k, n, o), h + 1)
      else if s == 1 - n then Plug(up, Join(n, t, x, k, BALANCED, o))
      else
        var a := Join(n, t, x, k, s, o);
        RotateRepairs(a, n, h - 1);
        Plug(up, Rotate(a, n).tree)
  }

  /** A subtree that has just shrunk to height `h`, on its way up the path. */
  ghost function Shrunk<N>(p: Path<N>, t: Tree<N>, h: int): Status {
    if AvlAt(t, h) && PathAvl(p, h + 1) then Sound else Broken
  }

  /** Rebalance after the subtree at the end of `p` has become one lower. */
  ghost function ShrinkUp<N>(p: Path<N>, t: Tree<N>, h: int): (r: Tree<N>)
    requires Shrunk(p, t, h).Sound?
    decreases p, t, h
  {
    match p
    case Top => t
    case Step(up, x, k, s, n, o) =>
      if s == BALANCED then Plug(up, Join(n, t, x, k, 1 - n, o))
      else if s == n then ShrinkUp(up, Join(n, t, x, k, BALANCED, o), h + 1)
      else
        var a := Join(n, t, x, k, s, o);
        RotateRepairs(a, 1 - n, h);
        var rot := Rotate(a, 1 - n);
        if rot.stop then Plug(up, rot.tree) else ShrinkUp(up, rot.tree, h + 2)
  }

  lemma {:induction false} DescendAvl<N>(p: Path<N>, t: Tree<N>, k: int, h: int) returns (g: int)
    requires AvlAt(t, h) && PathAvl(p, h)
    ensures var s := Descend(p, t, k); AvlAt(s.tree, g) && PathAvl(s.path, g)
    decreases t
  {
    match t
    case Leaf => g := h;
    case Node(l, x, key, s, r) =>
      if key < k {
        g := DescendAvl(Step(p, x, key, s, RIGHT, l), r, k, if s == LEFT then h - 2 else h - 1);
      } else if key > k {
        g := DescendAvl(Step(p, x, key, s, LEFT, r), l, k, if s == RIGHT then h - 2 else h - 1);
      } else {
        g := h;
      }
  }

  lemma SpotAvl<N>(t: Tree<N>, k: int)
    requires Avl(t)
    ensures var s := Descend(Top, t, k); AvlAt(s.tree, Height(s.tree)) && PathAvl(s.path, Height(s.tree))
  {
    AvlIsAvlAt(t);
    var g := DescendAvl(Top, t, k, Height(t));
    AvlAtHeight(Descend(Top, t, k).tree, g);
  }

  /** The tree after inserting the detached node `x` with key `k`: unchanged when
      the key is present, or when more than TREE_MAX_HEIGHT nodes lead to the slot. */
  ghost function Insert<N>(t: Tree<N>, x: N, k: int): Tree<N>
    requires Avl(t)
  {
    var spot := Descend(Top, t, k);
    SpotAvl(t, k);
    if spot.tree.Node? || Depth(spot.path) > TREE_MAX_HEIGHT then t
    else GrowUp(spot.path, Node(Leaf, x, k, BALANCED, Leaf), 0)
  }

  /** Follow right children to the last node: the trail, and the node's subtree. */
  function LastSpot<N>(p: Path<N>, t: Tree<N>): (s: Spot<N>)
    requires t.Node?
    ensures s.tree.Node? && s.tree.right == Leaf
    decreases t, p
  {
    if t.right.Leaf? then Spot(p, t)
    else LastSpot(Step(p, t.item, t.key, t.state, RIGHT, t.left), t.right)
  }

  /** Trails compose: following right children from `base` is following them from
      the top, put behind `base`. */
  lemma {:induction false} LastSpotAppend<N>(base: Path<N>, p: Path<N>, t: Tree<N>)
    requires t.Node?
    ensures LastSpot(Append(base, p), t) == Spot(Append(base, LastSpot(p, t).path), LastSpot(p, t).tree)
    decreases t
  {
    if t.right.Node? {
      LastSpotAppend(base, Step(p, t.item, t.key, t.state, RIGHT, t.left), t.right);
    }
  }

  lemma {:induction false} LastSpotAvl<N>(p: Path<N>, t: Tree<N>, h: int) returns (g: int)
    requires t.Node? && AvlAt(t, h) && PathAvl(p, h)
    ensures var s := LastSpot(p, t); AvlAt(s.tree, g) && PathAvl(s.path, g)
    decreases t
  {
    if t.right.Node? {
      g := LastSpotAvl(Step(p, t.item, t.key, t.state, RIGHT, t.left), t.right,
                       if t.state == LEFT then h - 2 else h - 1);
    } else {
      g := h;
    }
  }

  /** Where rebalancing starts once the node at the end of `p` is taken out: the
      node itself gives way to its right subtree, or its in-order predecessor takes
      its place and gives way to its own left subtree. */
  function Hole<N>(p: Path<N>, t: Tree<N>): Spot<N>
    requires t.Node?
  {
    if t.left.Leaf? then Spot(p, t.right)
    else
      var last := LastSpot(Top, t.left);
      Spot(Append(Step(p, last.tree.item, last.tree.key, t.state, LEFT, t.right), last.path), last.tree.left)
  }

  lemma {:induction false} HoleShrunk<N>(p: Path<N>, t: Tree<N>, h: int)
    requires t.Node? && AvlAt(t, h) && PathAvl(p, h)
    ensures Shrunk(Hole(p, t).path, Hole(p, t).tree, Height(Hole(p, t).tree)).Sound?
  {
    if t.left.Node? {
      var last := LastSpot(Top, t.left);
      var base := Step(p, last.tree.item, last.tree.key, t.state, LEFT, t.right);
      LastSpotAppend(base, Top, t.left);
      var g := LastSpotAvl(base, t.left, if t.state == RIGHT then h - 2 else h - 1);
      if last.tree.state == RIGHT {
        AvlAtHeight(last.tree.left, g - 2);
      }
      assert AvlAt(last.tree.left, g - 1);
      AvlAtHeight(last.tree.left, g - 1);
    } else {
      if t.state == LEFT {
        AvlAtHeight(t.right, h - 2);
      }
      assert AvlAt(t.right, h - 1);
      AvlAtHeight(t.right, h - 1);
    }
  }

  /** The tree after removing the node with key `k`, if there is one. */
  ghost function Remove<N>(t: Tree<N>, k: int): Tree<N>
    requires Avl(t)
  {
    var spot := Descend(Top, t, k);
    SpotAvl(t, k);
    if spot.tree.Leaf? then t
    else
      HoleShrunk(spot.path, spot.tree, Height(spot.tree));
      var h := Hole(spot.path, spot.tree);
      ShrinkUp(h.path, h.tree, Height(h.tree))
  }

  // ----- What the fixed stacks must hold -----

  /** Number of nodes met when only right children are followed. */
  function RightSpine<N>(t: Tree<N>): nat {
    if t.Leaf? then 0 else 1 + RightSpine(t.right)
  }

  /** Whether the search of a removal fits its stacks.  The entry after the target's
      is patched even when nothing was pushed there, hence the strict bound. */
  predicate RemovalFits<N>(t: Tree<N>, k: int) {
    var s := Descend(Top, t, k);
    if s.tree.Leaf? then Depth(s.path) <= TREE_MAX_HEIGHT
    else
      Depth(s.path) + 1 < TREE_MAX_HEIGHT && Depth(s.path) + 1 + RightSpine(s.tree.left) <= TREE_MAX_HEIGHT
  }

  /** The tree after replacing the node with key `k`, if there is one, by `y`. */
  function Replace<N>(t: Tree<N>, k: int, y: N): Tree<N> {
    var s := Descend(Top, t, k);
    if s.tree.Leaf? then t else Plug(s.path, s.tree.(item := y))
  }

  // ----- Runs -----

  datatype Op<N> = OpInsert(x: N, k: int) | OpRemove(k: int) | OpReplace(k: int, y: N)

  /** The sorted list after one operation. */
  function ListApply<N>(s: List<Entry<N>>, op: Op<N>): List<Entry<N>> {
    match op
    case OpInsert(x, k) => ListInsert(s, Entry(x, k))
    case OpRemove(k) => ListRemove(s, k)
    case OpReplace(k, y) => ListReplace(s, k, y)
  }

  /** The sorted list after a run of operations, latest last. */
  function ListRun<N>(ops: seq<Op<N>>): List<Entry<N>> {
    if ops == [] then Nil else ListApply(ListRun(ops[..|ops| - 1]), ops[|ops| - 1])
  }

  /** The tree after one operation; a tree that is not balanced has no successor. */
  ghost function Apply<N>(t: Tree<N>, op: Op<N>): Tree<N>
    requires Avl(t)
  {
    match op
    case OpInsert(x, k) => Insert(t, x, k)
    case OpRemove(k) => Remove(t, k)
    case OpReplace(k, y) => Replace(t, k, y)
  }

  /** `trees` are the trees before and after each operation, from the empty tree. */
  ghost predicate TreeRun<N>(ops: seq<Op<N>>, trees: seq<Tree<N>>) {
    && |trees| == |ops| + 1 && trees[0] == Leaf
    && forall i :: 0 <= i < |ops| ==> Avl(trees[i]) && trees[i + 1] == Apply(trees[i], ops[i])
  }
}
