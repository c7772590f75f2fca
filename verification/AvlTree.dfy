/** algorithms/avlTree/src/AvlTreeNode.cpp: nodes linked in place, and the iterative
    operations with their explicit stacks of child slots and directions. */
module AvlTree {
  import opened Common
  import opened AvlSpec
  import opened AvlTheorems

  /** The array of two child pointers every node holds. */
  datatype Kids = Kids(left: AvlTreeNode?, right: AvlTreeNode?) {

    function At(n: Dir): AvlTreeNode? {
      if n == LEFT then left else right
    }

    function With(n: Dir, c: AvlTreeNode?): (k: Kids)
      ensures k.At(n) == c && k.At(1 - n) == At(1 - n)
    {
      if n == LEFT then Kids(c, right) else Kids(left, c)
    }
  }

  /** The side a comparison result sends the search to. */
  function DirOf(n: int): Dir {
    if n < 0 then RIGHT else LEFT
  }

  class AvlTreeNode {
    const key: int
    var state: int
    var child: Kids

    constructor (key: int)
      ensures this.key == key && state == BALANCED && child == Kids(null, null)
    {
      this.key := key;
      state := BALANCED;
      child := Kids(null, null);
    }

    /** The sign of the comparison: negative when this node is the smaller one. */
    function CompareTo(k: int): int {
      if key < k then -1 else if key == k then 0 else 1
    }

    /** The pointer and state updates of the rotation that brings up the child. */
    method RelinkOnce(slot: Slot, n: Dir, pChild: AvlTreeNode, ghost rest: set<Cells>) returns (stop: bool)
      requires pChild == child.At(n) && pChild != this && slot.Outside({this, pChild})
      requires forall m :: m in rest ==> Holds(m) && this !in m && pChild !in m && slot.Outside(m.Keys)
      modifies this, pChild, if slot.RootSlot? then {slot.root} else {}, if slot.ChildSlot? then {slot.parent} else {}
      ensures stop == (old(pChild.state) == BALANCED)
      ensures child == old(child.With(n, pChild.child.At(1 - n))) && state == if stop then old(state) else BALANCED
      ensures pChild.child == old(pChild.child).With(1 - n, this) && pChild.state == if stop then 1 - n else BALANCED
      ensures slot.Read() == pChild && slot.OthersUnchanged()
      ensures forall m :: m in rest ==> Holds(m)
    {
      var r: Dir := 1 - n;
      var pGrandChild := pChild.child.At(r);
      child := child.With(n, pGrandChild);
      pChild.child := pChild.child.With(r, this);
      slot.Write(pChild, rest);
      if pChild.state == BALANCED {
        pChild.state := r;
        return true;
      }
      state := BALANCED;
      pChild.state := BALANCED;
      return false;
    }

    /** The pointer and state updates of the rotation that brings up the grandchild. */
    method RelinkTwice(slot: Slot, n: Dir, pChild: AvlTreeNode, pGrandChild: AvlTreeNode, ghost rest: set<Cells>)
      requires pChild == child.At(n) && pGrandChild == pChild.child.At(1 - n)
      requires pChild != this && pGrandChild != this && pGrandChild != pChild
      requires slot.Outside({this, pChild, pGrandChild}) && Untouchable(slot, {this, pChild, pGrandChild}, rest).Sound?
      modifies this, pChild, pGrandChild
      modifies if slot.RootSlot? then {slot.root} else {}, if slot.ChildSlot? then {slot.parent} else {}
      ensures child == old(child.With(n, pGrandChild.child.At(1 - n)))
      ensures pChild.child == old(pChild.child.With(1 - n, pGrandChild.child.At(n)))
      ensures pGrandChild.child.At(n) == pChild && pGrandChild.child.At(1 - n) == this
      ensures state == if old(pGrandChild.state) == n then 1 - n else BALANCED
      ensures pChild.state == if old(pGrandChild.state) == 1 - n then n else BALANCED
      ensures pGrandChild.state == BALANCED
      ensures slot.Read() == pGrandChild && slot.OthersUnchanged()
      ensures forall m :: m in rest ==> Holds(m)
    {
      MoveKids(slot, n, pChild, pGrandChild, rest);
      slot.Write(pGrandChild, rest);
      SettleStates(slot, n, pChild, pGrandChild, rest);
    }

    /** The child pointers of the three nodes. */
    method MoveKids(ghost slot: Slot, n: Dir, pChild: AvlTreeNode, pGrandChild: AvlTreeNode, ghost rest: set<Cells>)
      requires pChild == child.At(n) && pGrandChild == pChild.child.At(1 - n)
      requires pChild != this && pGrandChild != this && pGrandChild != pChild
      requires Untouchable(slot, {this, pChild, pGrandChild}, rest).Sound?
      modifies this`child, pChild`child, pGrandChild`child
      ensures child == old(child.With(n, pGrandChild.child.At(1 - n)))
      ensures pChild.child == old(pChild.child.With(1 - n, pGrandChild.child.At(n)))
      ensures pGrandChild.child.At(n) == pChild && pGrandChild.child.At(1 - n) == this
      ensures Untouchable(slot, {this, pChild, pGrandChild}, rest).Sound?
    {
      var r: Dir := 1 - n;
      pChild.child := pChild.child.With(r, pGrandChild.child.At(n));
      child := child.With(n, pGrandChild.child.At(r));
      pGrandChild.child := pGrandChild.child.With(n, pChild);
      pGrandChild.child := pGrandChild.child.With(r, this);
    }

    /** And their balance states. */
    method SettleStates(ghost slot: Slot, n: Dir, pChild: AvlTreeNode, pGrandChild: AvlTreeNode, ghost rest: set<Cells>)
      requires pChild != this && pGrandChild != this && pGrandChild != pChild
      requires Untouchable(slot, {this, pChild, pGrandChild}, rest).Sound?
      modifies this`state, pChild`state, pGrandChild`state
      ensures state == if old(pGrandChild.state) == n then 1 - n else BALANCED
      ensures pChild.state == if old(pGrandChild.state) == 1 - n then n else BALANCED
      ensures pGrandChild.state == BALANCED
      ensures forall m :: m in rest ==> Holds(m)
    {
      var r: Dir := 1 - n;
      state := BALANCED;
      pChild.state := BALANCED;
      if pGrandChild.state == n {
        state := r;
      } else if pGrandChild.state == r {
        pChild.state := n;
      }
      pGrandChild.state := BALANCED;
    }

    /** The rotation that brings up the child, in terms of the subtrees it moves. */
    method RotateOnce(slot: Slot, n: Dir, pChild: AvlTreeNode,
                      ghost d: NodeTree, ghost e: NodeTree, ghost b: NodeTree, ghost rest: Cells)
      returns (stop: bool)
      requires pChild == child.At(n)
      requires Rep(pChild.child.At(1 - n), d).Sound? && Rep(pChild.child.At(n), e).Sound?
               && Rep(child.At(1 - n), b).Sound?
      requires this !in Items(d) && this !in Items(b) && this !in Items(e) && this !in rest
      requires pChild !in Items(d) && pChild !in Items(b) && pChild !in Items(e) && pChild !in rest && pChild != this
      requires Items(d) !! Items(b) && Items(d) !! Items(e) && Items(b) !! Items(e)
      requires Holds(rest)
      requires slot.Outside({this, pChild}) && slot.Outside(rest.Keys)
      requires slot.Outside(Items(d)) && slot.Outside(Items(e)) && slot.Outside(Items(b))
      modifies this, pChild, if slot.RootSlot? then {slot.root} else {}, if slot.ChildSlot? then {slot.parent} else {}
      ensures stop == (old(pChild.state) == BALANCED)
      ensures var aa := Join(n, d, this, key, if stop then old(state) else BALANCED, b);
              Rep(slot.Read(), Join(1 - n, aa, pChild, pChild.key, if stop then 1 - n else BALANCED, e)).Sound?
      ensures slot.OthersUnchanged() && Holds(rest)
    {
      hide Holds;
      stop := RelinkOnce(slot, n, pChild, {Want(d), Want(e), Want(b), rest});
      JoinOnce(n, this, pChild, d, b, e);
    }

    /** The rotation that brings up the grandchild, in terms of the subtrees it moves. */
    method RotateTwice(slot: Slot, n: Dir, pChild: AvlTreeNode, pGrandChild: AvlTreeNode,
                       ghost e: NodeTree, ghost g: NodeTree, ghost f: NodeTree, ghost b: NodeTree, ghost rest: Cells)
      requires pChild == child.At(n) && pGrandChild == pChild.child.At(1 - n)
      requires Rep(pGrandChild.child.At(n), g).Sound? && Rep(pGrandChild.child.At(1 - n), f).Sound?
      requires Rep(pChild.child.At(n), e).Sound? && Rep(child.At(1 - n), b).Sound?
      requires Items(e) !! Items(g) && Items(e) !! Items(f) && Items(e) !! Items(b)
      requires Items(g) !! Items(f) && Items(g) !! Items(b) && Items(f) !! Items(b)
      requires pChild != this && pGrandChild != this && pGrandChild != pChild
      requires NotIn(this, e, g, f, b) && NotIn(pChild, e, g, f, b) && NotIn(pGrandChild, e, g, f, b)
      requires Holds(rest) && this !in rest && pChild !in rest && pGrandChild !in rest
      requires slot.ChildSlot? ==> NotIn(slot.parent, e, g, f, b)
      requires slot.Outside({this, pChild, pGrandChild}) && slot.Outside(rest.Keys)
      modifies this, pChild, pGrandChild
      modifies if slot.RootSlot? then {slot.root} else {}, if slot.ChildSlot? then {slot.parent} else {}
      ensures var sd := old(pGrandChild.state);
              var cc := Join(n, e, pChild, pChild.key, if sd == 1 - n then n else BALANCED, g);
              var aa := Join(n, f, this, key, if sd == n then 1 - n else BALANCED, b);
              Rep(slot.Read(), Join(n, cc, pGrandChild, pGrandChild.key, BALANCED, aa)).Sound?
      ensures slot.OthersUnchanged() && Holds(rest)
    {
      ghost var keep := {Want(e), Want(g), Want(f), Want(b), rest};
      TwiceKeeps(slot, this, pChild, pGrandChild, e, g, f, b, rest);
      RelinkTwice(slot, n, pChild, pGrandChild, keep);
      assert Want(e) in keep && Want(g) in keep && Want(f) in keep && Want(b) in keep && rest in keep;
      JoinTwice(n, pGrandChild, pChild, this, e, g, f, b);
    }

    /** Rotate the subtree of this node, which hangs in `slot`, towards side `1 - n`.
        The result says whether the subtree kept its height. */
    method Rotate(slot: Slot, n: Dir, ghost t: NodeTree, ghost rest: Cells) returns (stop: bool)
      requires CanRotate(t, n) && Rep(this, t).Sound? && BALANCED <= Kid(t, n).state <= RIGHT
      requires Holds(rest) && rest.Keys !! Items(t)
      requires slot.Outside(Items(t) + rest.Keys)
      modifies Items(t), if slot.RootSlot? then {slot.root} else {}, if slot.ChildSlot? then {slot.parent} else {}
      ensures var rot := AvlSpec.Rotate(t, n);
              stop == rot.stop && Rep(slot.Read(), rot.tree).Sound? && Items(rot.tree) == Items(t)
      ensures slot.OthersUnchanged() && Holds(rest)
    {
      RotateKeepsItems(t, n);
      RotateForm(t, n);
      ghost var c, b := Kid(t, n), Kid(t, 1 - n);
      ghost var d, e := Kid(c, 1 - n), Kid(c, n);
      RepKids(this, t, n);
      RepKids(c.item, c, n);
      var pChild := child.At(n);
      var pGrandChild := pChild.child.At(1 - n);
      if pChild.state != 1 - n {
        stop := RotateOnce(slot, n, pChild, d, e, b, rest);
      } else {
        ghost var g, f := Kid(d, n), Kid(d, 1 - n);
        RepKids(d.item, d, n);
        RotateTwice(slot, n, pChild, pGrandChild, e, g, f, b, rest);
        stop := false;
      }
    }
  }

  /** A variable holding the root pointer; the operations take its address. */
  class RootVar {
    var node: AvlTreeNode?

    constructor (node: AvlTreeNode?)
      ensures this.node == node
    {
      this.node := node;
    }
  }

  /** The address of a child pointer: the root variable, or one side of a node. */
  datatype Slot = RootSlot(root: RootVar) | ChildSlot(parent: AvlTreeNode, side: Dir) {

    function Read(): AvlTreeNode?
      reads if RootSlot? then {root} else {}, if ChildSlot? then {parent} else {}
    {
      if RootSlot? then root.node else parent.child.At(side)
    }

    /** The slot is not one of the sides of these nodes. */
    ghost predicate Outside(nodes: set<AvlTreeNode>) {
      ChildSlot? ==> parent !in nodes
    }

    method Write(v: AvlTreeNode?, ghost rest: set<Cells>)
      requires forall m :: m in rest ==> Holds(m) && (ChildSlot? ==> parent !in m)
      modifies if RootSlot? then {root} else {}, if ChildSlot? then {parent} else {}
      ensures Read() == v && OthersUnchanged()
      ensures forall m :: m in rest ==> Holds(m)
    {
      if RootSlot? {
        root.node := v;
      } else {
        parent.child := parent.child.With(side, v);
      }
    }

    /** Nothing in the slot's node changed but the slot itself. */
    twostate predicate OthersUnchanged()
      reads if RootSlot? then {root} else {}, if ChildSlot? then {parent} else {}
    {
      ChildSlot? ==> parent.state == old(parent.state) && parent.child.At(1 - side) == old(parent.child.At(1 - side))
    }
  }

  type NodeTree = Tree<AvlTreeNode>
  type NodePath = Path<AvlTreeNode>

  /** What a node object must hold. */
  datatype Cell = Cell(state: int, child: Kids)

  type Cells = map<AvlTreeNode, Cell>

  ghost function Ptr(t: NodeTree): AvlTreeNode? {
    if t.Leaf? then null else t.item
  }

  /** The fields every node of the tree must hold. */
  ghost function Want(t: NodeTree): (m: Cells)
    ensures m.Keys == Items(t)
  {
    match t
    case Leaf => map[]
    case Node(l, x, _, s, r) => (Want(l) + Want(r))[x := Cell(s, Kids(Ptr(l), Ptr(r)))]
  }

  /** The fields every node on the path and beside it must hold when `b` is at its end. */
  ghost function WantPath(p: NodePath, b: AvlTreeNode?): (m: Cells)
    ensures m.Keys == PathItems(p)
  {
    match p
    case Top => map[]
    case Step(up, x, _, s, n, o) =>
      (WantPath(up, x) + Want(o))[x := Cell(s, if n == LEFT then Kids(b, Ptr(o)) else Kids(Ptr(o), b))]
  }

  ghost predicate Holds(m: Cells)
    reads m.Keys
  {
    forall x :: x in m ==> x.state == m[x].state && x.child == m[x].child
  }

  /** All of these cells hold, and none is one of the nodes or the owner of the slot. */
  ghost function Untouchable(slot: Slot, nodes: set<AvlTreeNode>, rest: set<Cells>): Status
    reads set m, y | m in rest && y in m :: y
  {
    if forall m :: m in rest ==> Holds(m) && m.Keys !! nodes && slot.Outside(m.Keys) then Sound else Broken
  }

  lemma KeepFive(slot: Slot, nodes: set<AvlTreeNode>, a: Cells, b: Cells, c: Cells, d: Cells, e: Cells)
    requires Holds(a) && Holds(b) && Holds(c) && Holds(d) && Holds(e)
    requires a.Keys !! nodes && b.Keys !! nodes && c.Keys !! nodes && d.Keys !! nodes && e.Keys !! nodes
    requires slot.Outside(a.Keys) && slot.Outside(b.Keys) && slot.Outside(c.Keys) && slot.Outside(d.Keys)
    requires slot.Outside(e.Keys)
    ensures Untouchable(slot, nodes, {a, b, c, d, e}).Sound?
  {
  }

  lemma TwiceKeeps(slot: Slot, x: AvlTreeNode, c: AvlTreeNode, d: AvlTreeNode,
                   e: NodeTree, g: NodeTree, f: NodeTree, b: NodeTree, rest: Cells)
    requires Holds(Want(e)) && Holds(Want(g)) && Holds(Want(f)) && Holds(Want(b)) && Holds(rest)
    requires NotIn(x, e, g, f, b) && NotIn(c, e, g, f, b) && NotIn(d, e, g, f, b)
    requires x !in rest && c !in rest && d !in rest
    requires (slot.ChildSlot? ==> NotIn(slot.parent, e, g, f, b)) && slot.Outside(rest.Keys)
    ensures Untouchable(slot, {x, c, d}, {Want(e), Want(g), Want(f), Want(b), rest}).Sound?
  {
    hide Holds, Untouchable;
    KeepFive(slot, {x, c, d}, Want(e), Want(g), Want(f), Want(b), rest);
  }

  /** The keys recorded in the tree are the nodes' own. */
  ghost predicate KeysMatch(t: NodeTree) {
    t.Node? ==> t.item.key == t.key && KeysMatch(t.left) && KeysMatch(t.right)
  }

  ghost predicate PathKeysMatch(p: NodePath) {
    p.Step? ==> p.item.key == p.key && KeysMatch(p.other) && PathKeysMatch(p.up)
  }

  /** Whether the nodes reachable from `p` form the tree `t`, none reachable twice. */
  ghost function Rep(p: AvlTreeNode?, t: NodeTree): Status
    reads Items(t)
  {
    if p == Ptr(t) && Distinct(t) && KeysMatch(t) && Holds(Want(t)) then Sound else Broken
  }

  lemma {:induction false} RepKids(p: AvlTreeNode?, t: NodeTree, n: Dir)
    requires t.Node? && Rep(p, t).Sound?
    ensures p == t.item && p.key == t.key && p.state == t.state
    ensures var a, b := Kid(t, n), Kid(t, 1 - n);
            && Rep(p.child.At(n), a).Sound? && Rep(p.child.At(1 - n), b).Sound?
            && Items(t) == Items(a) + {p} + Items(b)
            && p !in Items(a) && p !in Items(b) && Items(a) !! Items(b)
  {
    assert forall x :: x in Want(t.left) ==> Want(t)[x] == Want(t.left)[x];
    assert forall x :: x in Want(t.right) ==> Want(t)[x] == Want(t.right)[x];
    assert Want(t)[p] == Cell(t.state, Kids(Ptr(t.left), Ptr(t.right)));
  }

  lemma {:induction false} RepJoin(x: AvlTreeNode, n: Dir, a: NodeTree, b: NodeTree)
    requires Rep(x.child.At(n), a).Sound? && Rep(x.child.At(1 - n), b).Sound?
    requires x !in Items(a) && x !in Items(b) && Items(a) !! Items(b)
    ensures Rep(x, Join(n, a, x, x.key, x.state, b)).Sound?
    ensures Items(Join(n, a, x, x.key, x.state, b)) == Items(a) + {x} + Items(b)
  {
  }

  ghost predicate NotIn(x: AvlTreeNode, e: NodeTree, g: NodeTree, f: NodeTree, b: NodeTree) {
    x !in Items(e) && x !in Items(g) && x !in Items(f) && x !in Items(b)
  }

  lemma JoinOnce(n: Dir, a: AvlTreeNode, c: AvlTreeNode, d: NodeTree, b: NodeTree, e: NodeTree)
    requires Rep(a.child.At(n), d).Sound? && Rep(a.child.At(1 - n), b).Sound? && Rep(c.child.At(n), e).Sound?
             && c.child.At(1 - n) == a
    requires a !in Items(d) && a !in Items(b) && a !in Items(e) && Items(d) !! Items(b)
    requires c != a && c !in Items(d) && c !in Items(b) && c !in Items(e)
    requires Items(d) !! Items(e) && Items(b) !! Items(e)
    ensures Rep(c, Join(1 - n, Join(n, d, a, a.key, a.state, b), c, c.key, c.state, e)).Sound?
  {
    RepJoin(a, n, d, b);
    RepJoin(c, 1 - n, Join(n, d, a, a.key, a.state, b), e);
  }

  lemma SidesApart(e: set<AvlTreeNode>, c: AvlTreeNode, g: set<AvlTreeNode>, f: set<AvlTreeNode>, a: AvlTreeNode,
                   b: set<AvlTreeNode>, d: AvlTreeNode)
    requires e !! f && e !! b && g !! f && g !! b && a != c && a != d && c != d
    requires a !in e && a !in g && c !in f && c !in b && d !in e && d !in g && d !in f && d !in b
    ensures e + {c} + g !! f + {a} + b && d !in e + {c} + g && d !in f + {a} + b
  {
  }

  lemma {:induction false} JoinTwice(n: Dir, d: AvlTreeNode, c: AvlTreeNode, a: AvlTreeNode, e: NodeTree, g: NodeTree,
                                     f: NodeTree, b: NodeTree)
    requires Rep(c.child.At(n), e).Sound? && Rep(c.child.At(1 - n), g).Sound? && Rep(a.child.At(n), f).Sound?
             && Rep(a.child.At(1 - n), b).Sound?
    requires d.child.At(n) == c && d.child.At(1 - n) == a
    requires Items(e) !! Items(g) && Items(e) !! Items(f) && Items(e) !! Items(b)
    requires Items(g) !! Items(f) && Items(g) !! Items(b) && Items(f) !! Items(b)
    requires a != c && a != d && c != d
    requires NotIn(a, e, g, f, b) && NotIn(c, e, g, f, b) && NotIn(d, e, g, f, b)
    ensures Rep(d, Join(n, Join(n, e, c, c.key, c.state, g), d, d.key, d.state,
                        Join(n, f, a, a.key, a.state, b))).Sound?
  {
    var cc, aa := Join(n, e, c, c.key, c.state, g), Join(n, f, a, a.key, a.state, b);
    RepJoin(c, n, e, g);
    RepJoin(a, n, f, b);
    SidesApart(Items(e), c, Items(g), Items(f), a, Items(b), d);
    JoinThird(n, d, cc, aa);
  }

  lemma JoinThird(n: Dir, d: AvlTreeNode, cc: NodeTree, aa: NodeTree)
    requires Rep(d.child.At(n), cc).Sound? && Rep(d.child.At(1 - n), aa).Sound?
    requires d !in Items(cc) && d !in Items(aa) && Items(cc) !! Items(aa)
    ensures Rep(d, Join(n, cc, d, d.key, d.state, aa)).Sound?
  {
    RepJoin(d, n, cc, aa);
  }

  // ----- Positions in a linked tree -----

  /** The node the path starts from when `b` is at its end. */
  ghost function First(p: NodePath, b: AvlTreeNode?): AvlTreeNode? {
    match p
    case Top => b
    case Step(up, x, _, _, _, _) => First(up, x)
  }

  /** The slot at the end of the path. */
  function SlotFor(root: RootVar, p: NodePath): Slot {
    if p.Top? then RootSlot(root) else ChildSlot(p.item, p.dir)
  }

  /** Whether the child pointers along `p` lead from `a` to `b`, the nodes of the path
      being apart from each other and from `below`. */
  ghost function Leads(a: AvlTreeNode?, p: NodePath, b: AvlTreeNode?, below: set<AvlTreeNode>): Status
    reads PathItems(p)
  {
    if PathDistinct(p, below) && PathKeysMatch(p) && a == First(p, b) && Holds(WantPath(p, b)) then Sound else Broken
  }

  /** Whether the subtree `t` hangs at the end of `p`, below the variable `root`. */
  ghost function At(root: RootVar, p: NodePath, t: NodeTree): Status
    reads root, PathItems(p), Items(t)
  {
    if Rep(Ptr(t), t).Sound? && Leads(root.node, p, Ptr(t), Items(t)).Sound? then Sound else Broken
  }

  lemma {:induction false} PathApart(p: NodePath, below: set<AvlTreeNode>)
    requires PathDistinct(p, below)
    ensures PathItems(p) !! below
    decreases p
  {
    if p.Step? {
      PathApart(p.up, below + {p.item} + Items(p.other));
    }
  }

  /** The cells of the path but for the node that owns the last slot. */
  ghost function PathRest(p: NodePath): Cells {
    if p.Top? then map[] else WantPath(p.up, p.item) + Want(p.other)
  }

  /** As `Holds`, with the frame of the whole path. */
  ghost predicate RestInPlace(p: NodePath)
    reads PathItems(p)
  {
    Holds(PathRest(p))
  }

  ghost predicate OwnerHolds(p: NodePath, b: AvlTreeNode?)
    reads PathItems(p)
  {
    p.Step? ==>
      p.item.state == p.state && p.item.child.At(p.dir) == b && p.item.child.At(1 - p.dir) == Ptr(p.other)
  }

  lemma PathSets(p: NodePath, below: set<AvlTreeNode>)
    requires PathDistinct(p, below)
    ensures PathItems(p) !! below && PathItems(p) == PathRest(p).Keys + (if p.Step? then {p.item} else {})
    ensures p.Step? ==> p.item !in PathRest(p) && p.item !in PathItems(p.up) && p.item !in Items(p.other)
    ensures p.Step? ==> PathItems(p.up) !! Items(p.other)
  {
    PathApart(p, below);
    if p.Step? {
      PathApart(p.up, below + {p.item} + Items(p.other));
    }
  }

  lemma {:induction false} PathHolds(p: NodePath, b: AvlTreeNode?)
    requires p.Step? ==> p.item !in PathRest(p)
    ensures Holds(WantPath(p, b)) <==> Holds(PathRest(p)) && OwnerHolds(p, b)
  {
    if p.Step? {
      var w := WantPath(p, b);
      assert forall x :: x in PathRest(p) ==> x in w && w[x] == PathRest(p)[x];
      assert forall x :: x in w ==> x == p.item || x in PathRest(p);
    }
  }

  lemma {:induction false} RestHolds(p: NodePath)
    requires p.Step? && PathItems(p.up) !! Items(p.other)
    ensures Holds(PathRest(p)) <==> Holds(WantPath(p.up, p.item)) && Holds(Want(p.other))
  {
    var w := PathRest(p);
    assert forall x :: x in WantPath(p.up, p.item) ==> x in w && w[x] == WantPath(p.up, p.item)[x];
    assert forall x :: x in Want(p.other) ==> x in w && w[x] == Want(p.other)[x];
  }

  /** Going up one step: the subtree and its sibling join under their parent. */
  lemma {:induction false} Ascend(root: RootVar, p: NodePath, t: NodeTree)
    requires At(root, p, t).Sound? && p.Step?
    ensures p.item.key == p.key && p.item.state == p.state
    ensures Rep(p.item.child.At(p.dir), t).Sound? && Rep(p.item.child.At(1 - p.dir), p.other).Sound?
    ensures p.item !in Items(t) && p.item !in Items(p.other) && Items(t) !! Items(p.other)
    ensures At(root, p.up, Join(p.dir, t, p.item, p.key, p.state, p.other)).Sound?
  {
    PathSets(p, Items(t));
    PathHolds(p, Ptr(t));
    RestHolds(p);
    RepJoin(p.item, p.dir, t, p.other);
    assert Items(t) + {p.item} + Items(p.other) == Items(Join(p.dir, t, p.item, p.key, p.state, p.other));
  }

  /** Going down one step, to the child on side `n`. */
  lemma {:induction false} DescendStep(root: RootVar, p: NodePath, t: NodeTree, n: Dir)
    requires At(root, p, t).Sound? && t.Node?
    ensures At(root, Step(p, t.item, t.key, t.state, n, Kid(t, 1 - n)), Kid(t, n)).Sound?
  {
    var q := Step(p, t.item, t.key, t.state, n, Kid(t, 1 - n));
    RepKids(t.item, t, n);
    assert Items(Kid(t, n)) + {t.item} + Items(Kid(t, 1 - n)) == Items(t);
    PathSets(q, Items(Kid(t, n)));
    RestHolds(q);
    PathHolds(q, Ptr(Kid(t, n)));
  }

  /** Reading the slot at the end of the path gives the subtree's root node. */
  lemma SlotReads(root: RootVar, p: NodePath, t: NodeTree)
    requires At(root, p, t).Sound?
    ensures SlotFor(root, p).Read() == Ptr(t)
  {
    PathSets(p, Items(t));
    PathHolds(p, Ptr(t));
  }

  /** The same, as far as the way up to the root needs it. */
  lemma {:induction false} AscendAt(root: RootVar, p: NodePath, t: NodeTree, a: NodeTree)
    requires At(root, p, t).Sound? && p.Step? && a == Join(p.dir, t, p.item, p.key, p.state, p.other)
    ensures At(root, p.up, a).Sound? && Plug(p, t) == Plug(p.up, a)
    ensures PathItems(p.up) + Items(a) == PathItems(p) + Items(t)
  {
    Ascend(root, p, t);
  }

  lemma {:induction false} PlugAt(root: RootVar, p: NodePath, t: NodeTree)
    requires At(root, p, t).Sound?
    ensures Rep(root.node, Plug(p, t)).Sound? && Items(Plug(p, t)) == PathItems(p) + Items(t)
    decreases p
  {
    if p.Step? {
      var a := Join(p.dir, t, p.item, p.key, p.state, p.other);
      AscendAt(root, p, t, a);
      PlugAt(root, p.up, a);
    }
  }

  // ----- One step of rebalancing -----

  /** Store a new balance state in the node at the root of the subtree at `p`. */
  method SetState(root: RootVar, x: AvlTreeNode, state: int, ghost p: NodePath, ghost t: NodeTree)
    requires t.Node? && t.item == x && At(root, p, t).Sound?
    modifies x
    ensures At(root, p, t.(state := state)).Sound?
  {
    RepKids(x, t, LEFT);
    PathSets(p, Items(t));
    ghost var m := WantPath(p, x);
    assert x !in m;
    SetField(x, state, {m, Want(t.left), Want(t.right)});
    RepJoin(x, LEFT, t.left, t.right);
    assert Items(t.(state := state)) == Items(t);
  }

  method SetField(x: AvlTreeNode, state: int, ghost rest: set<Cells>)
    requires forall m :: m in rest ==> Holds(m) && x !in m
    modifies x`state
    ensures x.state == state
    ensures forall m :: m in rest ==> Holds(m)
  {
    x.state := state;
  }

  /** What the end of a path shows while its subtree changes. */
  lemma BeforeEndChanges(root: RootVar, p: NodePath, t: NodeTree)
    requires At(root, p, t).Sound? && t.Node?
    ensures PathDistinct(p, Items(t)) && PathKeysMatch(p) && Holds(PathRest(p))
    ensures root.node == First(p, t.item) && OwnerHolds(p, t.item) && PathRest(p).Keys !! Items(t)
    ensures SlotFor(root, p).Outside(Items(t)) && SlotFor(root, p).Outside(PathRest(p).Keys)
    ensures SlotFor(root, p).ChildSlot? ==> SlotFor(root, p).parent in PathItems(p)
  {
    PathSets(p, Items(t));
    PathHolds(p, t.item);
  }

  lemma AfterEndChanged(root: RootVar, p: NodePath, t: NodeTree)
    requires PathDistinct(p, Items(t)) && PathKeysMatch(p) && Holds(PathRest(p))
    requires root.node == First(p, Ptr(t)) && OwnerHolds(p, Ptr(t)) && Rep(Ptr(t), t).Sound?
    ensures At(root, p, t).Sound?
  {
    PathSets(p, Items(t));
    PathHolds(p, Ptr(t));
  }

  /** Rotate the subtree at `p`, whose slot is `slot`. */
  method RotateAt(root: RootVar, x: AvlTreeNode, slot: Slot, n: Dir, ghost p: NodePath, ghost t: NodeTree)
    returns (stop: bool)
    requires t.Node? && t.item == x && At(root, p, t).Sound? && slot == SlotFor(root, p)
    requires CanRotate(t, n) && BALANCED <= Kid(t, n).state <= RIGHT
    modifies root, PathItems(p), Items(t)
    ensures var rot := AvlSpec.Rotate(t, n);
            stop == rot.stop && At(root, p, rot.tree).Sound? && Items(rot.tree) == Items(t)
  {
    BeforeEndChanges(root, p, t);
    stop := x.Rotate(slot, n, t, PathRest(p));
    AfterEndChanged(root, p, AvlSpec.Rotate(t, n).tree);
  }

  // ----- The stacks -----

  /** The stacks hold the slot and the direction of every step of the path, root first. */
  ghost predicate StackHolds(slots: seq<Slot>, dirs: seq<Dir>, root: RootVar, p: NodePath) {
    p.Step? ==>
      var d := Depth(p.up);
      && d < |slots| && d < |dirs| && slots[d] == SlotFor(root, p.up) && dirs[d] == p.dir
      && StackHolds(slots, dirs, root, p.up)
  }

  lemma {:induction false} StackAgrees(slots: seq<Slot>, dirs: seq<Dir>, slots': seq<Slot>, dirs': seq<Dir>,
                                      root: RootVar, p: NodePath)
    requires StackHolds(slots, dirs, root, p) && |slots'| == |slots| && |dirs'| == |dirs|
    requires forall i :: 0 <= i < Depth(p) && i < |slots| && i < |dirs| ==> slots'[i] == slots[i] && dirs'[i] == dirs[i]
    ensures StackHolds(slots', dirs', root, p)
    decreases p
  {
    if p.Step? {
      StackAgrees(slots, dirs, slots', dirs', root, p.up);
    }
  }

  /** The tree of a step whose subtree has become `t`, with balance state `s`. */
  ghost function Closed(p: NodePath, t: NodeTree, s: int): NodeTree
    requires p.Step?
  {
    Join(p.dir, t, p.item, p.key, s, p.other)
  }

  /** The three ways growth is absorbed or passed on. */
  lemma GrowCases(p: NodePath, t: NodeTree, h: int)
    requires Grown(p, t, h).Sound? && p.Step?
    ensures var n := p.dir; var a := Closed(p, t, p.state);
            if p.state == BALANCED then
              Grown(p.up, Closed(p, t, n), h + 1).Sound? && GrowUp(p, t, h) == GrowUp(p.up, Closed(p, t, n), h + 1)
            else if p.state == 1 - n then
              GrowUp(p, t, h) == Plug(p.up, Closed(p, t, BALANCED))
            else
              && CanRotate(a, n) && BALANCED <= Kid(a, n).state <= RIGHT
              && GrowUp(p, t, h) == Plug(p.up, AvlSpec.Rotate(a, n).tree)
  {
    if p.state == p.dir {
      RotateRepairs(Closed(p, t, p.state), p.dir, h - 1);
    }
  }

  lemma ClosedItems(p: NodePath, t: NodeTree, s: int)
    requires p.Step?
    ensures Items(Closed(p, t, s)) == Items(t) + {p.item} + Items(p.other)
    ensures PathItems(p.up) + Items(Closed(p, t, s)) == PathItems(p) + Items(t)
  {
  }

  /** Store a new balance state in the last node of the path, once its subtree is closed. */
  method SetClosed(root: RootVar, x: AvlTreeNode, s: int, ghost p: NodePath, ghost t: NodeTree)
    requires p.Step? && x == p.item && At(root, p.up, Closed(p, t, p.state)).Sound?
    modifies x
    ensures At(root, p.up, Closed(p, t, s)).Sound?
    ensures PathItems(p.up) + Items(Closed(p, t, s)) == PathItems(p) + Items(t)
  {
    ghost var a := Closed(p, t, p.state);
    assert a.(state := s) == Closed(p, t, s);
    SetState(root, x, s, p.up, a);
    ClosedItems(p, t, s);
  }

  /** Rotate the last node of the path, once its subtree is closed. */
  method RotateClosed(root: RootVar, x: AvlTreeNode, slot: Slot, n: Dir, ghost p: NodePath, ghost t: NodeTree)
    returns (stop: bool)
    requires p.Step? && x == p.item && slot == SlotFor(root, p.up) && At(root, p.up, Closed(p, t, p.state)).Sound?
    requires var a := Closed(p, t, p.state); CanRotate(a, n) && BALANCED <= Kid(a, n).state <= RIGHT
    modifies root, PathItems(p), Items(t)
    ensures var rot := AvlSpec.Rotate(Closed(p, t, p.state), n);
            && stop == rot.stop && At(root, p.up, rot.tree).Sound?
            && PathItems(p.up) + Items(rot.tree) == PathItems(p) + Items(t)
  {
    ClosedItems(p, t, p.state);
    stop := RotateAt(root, x, slot, n, p.up, Closed(p, t, p.state));
  }

  /** What a step of rebalancing finds in its slot. */
  lemma StepSees(root: RootVar, slot: Slot, p: NodePath, t: NodeTree)
    requires At(root, p, t).Sound? && p.Step? && slot == SlotFor(root, p.up)
    ensures At(root, p.up, Closed(p, t, p.state)).Sound? && p.item in PathItems(p)
    ensures slot.Read() == p.item && p.item.state == p.state
  {
    Ascend(root, p, t);
    SlotReads(root, p.up, Closed(p, t, p.state));
  }

  /** Adjust one node on the way up after an insertion. */
  method GrowStep(root: RootVar, ppThis: Slot, n: Dir, ghost p: NodePath, ghost t: NodeTree, ghost h: int)
    returns (done: bool, ghost t': NodeTree, ghost rotations: nat)
    requires Grown(p, t, h).Sound? && At(root, p, t).Sound?
    requires p.Step? && ppThis == SlotFor(root, p.up) && n == p.dir
    modifies root, PathItems(p), Items(t)
    ensures At(root, p.up, t').Sound? && PathItems(p.up) + Items(t') == PathItems(p) + Items(t)
    ensures done ==> GrowUp(p, t, h) == Plug(p.up, t')
    ensures !done ==> Grown(p.up, t', h + 1).Sound? && GrowUp(p, t, h) == GrowUp(p.up, t', h + 1)
    ensures rotations <= if done then 1 else 0
  {
    StepSees(root, ppThis, p, t);
    GrowCases(p, t, h);
    var pNode := ppThis.Read();
    if pNode.state == BALANCED {
      SetClosed(root, pNode, n, p, t);
      return false, Closed(p, t, n), 0;
    } else if pNode.state == 1 - n {
      SetClosed(root, pNode, BALANCED, p, t);
      return true, Closed(p, t, BALANCED), 0;
    } else {
      var stop := RotateClosed(root, pNode, ppThis, n, p, t);
      return true, AvlSpec.Rotate(Closed(p, t, p.state), n).tree, 1;
    }
  }

  lemma StackTop(slots: seq<Slot>, dirs: seq<Dir>, root: RootVar, p: NodePath)
    requires StackHolds(slots, dirs, root, p) && Depth(p) > 0
    ensures p.Step? && Depth(p) <= |slots| && Depth(p) <= |dirs| && Depth(p.up) == Depth(p) - 1
    ensures slots[Depth(p) - 1] == SlotFor(root, p.up) && dirs[Depth(p) - 1] == p.dir
    ensures StackHolds(slots, dirs, root, p.up)
  {
  }

  /** The state of the walk up after an insertion: `goal` is what will be reached. */
  ghost predicate Growing(root: RootVar, slots: seq<Slot>, dirs: seq<Dir>, top: nat, done: bool,
                          p: NodePath, t: NodeTree, h: int, goal: NodeTree)
    reads root, PathItems(p), Items(t)
  {
    && At(root, p, t).Sound?
    && (if done then goal == Plug(p, t)
        else Grown(p, t, h).Sound? && goal == GrowUp(p, t, h) && top == Depth(p) && StackHolds(slots, dirs, root, p))
  }

  /** Pop one entry of the stacks and adjust that node. */
  method GrowPop(root: RootVar, slots: seq<Slot>, dirs: seq<Dir>, top: nat,
                 ghost p: NodePath, ghost t: NodeTree, ghost h: int, ghost goal: NodeTree)
    returns (done: bool, ghost p': NodePath, ghost t': NodeTree, ghost rotations: nat)
    requires top > 0 && Growing(root, slots, dirs, top, false, p, t, h, goal)
    modifies root, PathItems(p), Items(t)
    ensures Growing(root, slots, dirs, top - 1, done, p', t', h + 1, goal)
    ensures PathItems(p') + Items(t') == PathItems(p) + Items(t)
    ensures rotations <= if done then 1 else 0
  {
    StackTop(slots, dirs, root, p);
    done, t', rotations := GrowStep(root, slots[top - 1], dirs[top - 1], p, t, h);
    p' := p.up;
  }

  /** Walk back up the stacks after an insertion; `rotations` counts the calls of Rotate. */
  method RebalanceGrown(root: RootVar, slots: seq<Slot>, dirs: seq<Dir>, top: nat,
                        ghost path: NodePath, ghost single: NodeTree, ghost goal: NodeTree)
    returns (ghost rotations: nat)
    requires Growing(root, slots, dirs, top, false, path, single, 0, goal)
    modifies root, PathItems(path), Items(single)
    ensures Rep(root.node, goal).Sound? && Items(goal) == PathItems(path) + Items(single)
    ensures rotations <= 1
  {
    var nStackTop := top;
    var done := false;
    ghost var p, t, h := path, single, 0;
    rotations := 0;
    while nStackTop > 0 && !done
      invariant Growing(root, slots, dirs, nStackTop, done, p, t, h, goal)
      invariant PathItems(p) + Items(t) == PathItems(path) + Items(single)
      invariant rotations <= if done then 1 else 0
    {
      ghost var more;
      done, p, t, more := GrowPop(root, slots, dirs, nStackTop, p, t, h, goal);
      nStackTop, h, rotations := nStackTop - 1, h + 1, rotations + more;
    }
    PlugAt(root, p, t);
  }

  // ----- The search -----

  /** The state of a search for `k` in `tree`, now at the subtree `t`. */
  ghost function Searching(root: RootVar, slots: seq<Slot>, dirs: seq<Dir>, top: nat, ppThis: Slot,
                           p: NodePath, t: NodeTree, k: int, tree: NodeTree): Status
    reads root, PathItems(p), Items(t)
  {
    if
      && At(root, p, t).Sound? && ppThis == SlotFor(root, p)
      && |slots| == |dirs| == TREE_MAX_HEIGHT
      && top == Depth(p) <= TREE_MAX_HEIGHT && StackHolds(slots, dirs, root, p)
      && Plug(p, t) == tree && Descend(p, t, k) == Descend(Top, tree, k)
      && PathItems(p) + Items(t) == Items(tree)
    then Sound else Broken
  }

  lemma SearchStarts(root: RootVar, slots: seq<Slot>, dirs: seq<Dir>, k: int, tree: NodeTree)
    requires Rep(root.node, tree).Sound? && |slots| == |dirs| == TREE_MAX_HEIGHT
    ensures Searching(root, slots, dirs, 0, RootSlot(root), Top, tree, k, tree).Sound?
  {
  }

  /** What the search sees at its current slot. */
  lemma SearchSees(root: RootVar, slots: seq<Slot>, dirs: seq<Dir>, top: nat, ppThis: Slot,
                   p: NodePath, t: NodeTree, k: int, tree: NodeTree)
    requires Searching(root, slots, dirs, top, ppThis, p, t, k, tree).Sound?
    ensures ppThis.Read() == Ptr(t) && (t.Node? ==> t.item.key == t.key && t.item in Items(tree))
    ensures Rep(root.node, tree).Sound? && At(root, p, t).Sound?
            && top == Depth(p) <= TREE_MAX_HEIGHT == |slots| == |dirs|
  {
    SlotReads(root, p, t);
    PlugAt(root, p, t);
  }

  lemma PushIsPure(p: NodePath, t: NodeTree, k: int, n: Dir)
    requires t.Node?
    ensures var q := Step(p, t.item, t.key, t.state, n, Kid(t, 1 - n));
            && Plug(q, Kid(t, n)) == Plug(p, t) && PathItems(q) + Items(Kid(t, n)) == PathItems(p) + Items(t)
            && (t.key != k && n == (if t.key < k then RIGHT else LEFT) ==> Descend(q, Kid(t, n), k) == Descend(p, t, k))
  {
    SplitJoin(t, n);
  }

  /** Push the current slot and go down to the child on side `n`. */
  lemma {:induction false} SearchGoesDown(root: RootVar, slots: seq<Slot>, dirs: seq<Dir>, top: nat, ppThis: Slot,
                       p: NodePath, t: NodeTree, k: int, tree: NodeTree, n: Dir)
    requires Searching(root, slots, dirs, top, ppThis, p, t, k, tree).Sound? && t.Node?
    requires t.key != k && top < TREE_MAX_HEIGHT && n == (if t.key < k then RIGHT else LEFT)
    ensures Searching(root, slots[top := ppThis], dirs[top := n], top + 1, ChildSlot(t.item, n),
                      Step(p, t.item, t.key, t.state, n, Kid(t, 1 - n)), Kid(t, n), k, tree).Sound?
    ensures t.item.child.At(n) == Ptr(Kid(t, n)) && (Kid(t, n).Node? ==> Kid(t, n).item.key == Kid(t, n).key)
  {
    DescendStep(root, p, t, n);
    PushIsPure(p, t, k, n);
    PushStack(root, slots, dirs, ppThis, p, t, n);
    SlotReads(root, Step(p, t.item, t.key, t.state, n, Kid(t, 1 - n)), Kid(t, n));
  }

  lemma PushStack(root: RootVar, slots: seq<Slot>, dirs: seq<Dir>, ppThis: Slot, p: NodePath, t: NodeTree, n: Dir)
    requires StackHolds(slots, dirs, root, p) && ppThis == SlotFor(root, p) && t.Node?
    requires Depth(p) < |slots| == |dirs|
    ensures StackHolds(slots[Depth(p) := ppThis], dirs[Depth(p) := n], root,
                       Step(p, t.item, t.key, t.state, n, Kid(t, 1 - n)))
  {
    StackAgrees(slots, dirs, slots[Depth(p) := ppThis], dirs[Depth(p) := n], root, p);
  }

  lemma {:induction false} DescendDeepens(p: NodePath, t: NodeTree, k: int)
    ensures Depth(Descend(p, t, k).path) >= Depth(p)
    ensures t.Node? && t.key != k ==> Depth(Descend(p, t, k).path) > Depth(p)
    decreases t
  {
    match t
    case Leaf =>
    case Node(l, x, key, s, r) =>
      if key < k {
        DescendDeepens(Step(p, x, key, s, RIGHT, l), r, k);
      } else if key > k {
        DescendDeepens(Step(p, x, key, s, LEFT, r), l, k);
      }
  }

  // ----- Insertion -----

  lemma {:induction false} PathTakes(p: NodePath, below: set<AvlTreeNode>, x: AvlTreeNode)
    requires PathDistinct(p, below) && x !in PathItems(p)
    ensures PathDistinct(p, below + {x})
    decreases p
  {
    if p.Step? {
      PathTakes(p.up, below + {p.item} + Items(p.other), x);
      assert below + {x} + {p.item} + Items(p.other) == below + {p.item} + Items(p.other) + {x};
    }
  }

  /** Hang a detached node into the empty slot at the end of the path. */
  method Hang(root: RootVar, slot: Slot, x: AvlTreeNode, ghost p: NodePath)
    requires At(root, p, Leaf).Sound? && slot == SlotFor(root, p)
    requires x !in PathItems(p) && x.state == BALANCED && x.child == Kids(null, null)
    modifies root, PathItems(p)
    ensures At(root, p, Node(Leaf, x, x.key, BALANCED, Leaf)).Sound?
  {
    ghost var single := Node(Leaf, x, x.key, BALANCED, Leaf);
    PathSets(p, {});
    PathHolds(p, null);
    PathTakes(p, {}, x);
    assert {} + {x} == Items(single);
    slot.Write(x, {PathRest(p), Want(single)});
    PathHolds(p, x);
  }

  datatype FindResult = Equal | TooDeep | Empty

  /** The search loop of Insert(1): stop at an equal node, at a full stack, or at an
      empty slot. */
  method FindSlot(root: RootVar, k: int, ghost tree: NodeTree)
    returns (r: FindResult, slots: seq<Slot>, dirs: seq<Dir>, nStackTop: nat, ppThis: Slot, ghost p: NodePath)
    requires Rep(root.node, tree).Sound?
    ensures r.Equal? <==> Descend(Top, tree, k).tree.Node? && Depth(Descend(Top, tree, k).path) <= TREE_MAX_HEIGHT
    ensures r.TooDeep? ==> Depth(Descend(Top, tree, k).path) > TREE_MAX_HEIGHT
    ensures r.Empty? ==> Searching(root, slots, dirs, nStackTop, ppThis, p, Leaf, k, tree).Sound?
  {
    ppThis := RootSlot(root);
    slots := seq(TREE_MAX_HEIGHT, _ => RootSlot(root));
    dirs := seq(TREE_MAX_HEIGHT, _ => LEFT);
    nStackTop := 0;
    p := Top;
    ghost var t := tree;
    SearchStarts(root, slots, dirs, k, tree);
    while ppThis.Read() != null
      invariant Searching(root, slots, dirs, nStackTop, ppThis, p, t, k, tree).Sound?
      invariant ppThis.Read() == Ptr(t) && (t.Node? ==> t.item.key == t.key)
      decreases t
    {
      DescendDeepens(p, t, k);
      var pThis := ppThis.Read();
      var n := pThis.CompareTo(k);
      if n == 0 {
        return Equal, slots, dirs, nStackTop, ppThis, p;
      }
      if nStackTop >= TREE_MAX_HEIGHT {
        return TooDeep, slots, dirs, nStackTop, ppThis, p;
      }
      var dir := DirOf(n);
      SearchGoesDown(root, slots, dirs, nStackTop, ppThis, p, t, k, tree, dir);
      slots, dirs, nStackTop := slots[nStackTop := ppThis], dirs[nStackTop := dir], nStackTop + 1;
      ppThis := ChildSlot(pThis, dir);
      p, t := Step(p, t.item, t.key, t.state, dir, Kid(t, 1 - dir)), Kid(t, dir);
    }
    return Empty, slots, dirs, nStackTop, ppThis, p;
  }

  lemma GrowingStarts(root: RootVar, slots: seq<Slot>, dirs: seq<Dir>, top: nat, x: AvlTreeNode,
                      p: NodePath, k: int, tree: NodeTree)
    requires Avl(tree) && Descend(Top, tree, k) == Spot(p, Leaf)
    requires top == Depth(p) <= TREE_MAX_HEIGHT && StackHolds(slots, dirs, root, p)
    requires At(root, p, Node(Leaf, x, k, BALANCED, Leaf)).Sound?
    ensures Growing(root, slots, dirs, top, false, p, Node(Leaf, x, k, BALANCED, Leaf), 0, AvlSpec.Insert(tree, x, k))
  {
    SpotAvl(tree, k);
  }

  /** Hang the node in the slot a search ended at, and rebalance. */
  method HangAndRebalance(root: RootVar, slots: seq<Slot>, dirs: seq<Dir>, top: nat, ppThis: Slot,
                          pInsert: AvlTreeNode, ghost p: NodePath, ghost tree: NodeTree)
    returns (ghost rotations: nat)
    requires Searching(root, slots, dirs, top, ppThis, p, Leaf, pInsert.key, tree).Sound? && Avl(tree)
    requires pInsert !in Items(tree) && pInsert.state == BALANCED && pInsert.child == Kids(null, null)
    modifies root, Items(tree), pInsert
    ensures Rep(root.node, AvlSpec.Insert(tree, pInsert, pInsert.key)).Sound?
    ensures Items(AvlSpec.Insert(tree, pInsert, pInsert.key)) == Items(tree) + {pInsert}
    ensures rotations <= 1
  {
    ghost var k := pInsert.key;
    ghost var single := Node(Leaf, pInsert, k, BALANCED, Leaf);
    Hang(root, ppThis, pInsert, p);
    GrowingStarts(root, slots, dirs, top, pInsert, p, k, tree);
    rotations := RebalanceGrown(root, slots, dirs, top, p, single, AvlSpec.Insert(tree, pInsert, k));
  }

  /** Insert(1): search, hang the node, rebalance. */
  method Insert(self: AvlTreeNode, pInsert: AvlTreeNode, ghost tree: NodeTree)
    returns (pRoot: AvlTreeNode?, ghost rotations: nat)
    requires Rep(self, tree).Sound? && Avl(tree)
    requires pInsert !in Items(tree) && pInsert.state == BALANCED && pInsert.child == Kids(null, null)
    modifies Items(tree), pInsert
    ensures Rep(pRoot, AvlSpec.Insert(tree, pInsert, pInsert.key)).Sound?
    ensures Items(AvlSpec.Insert(tree, pInsert, pInsert.key)) ==
              Items(tree) + if Inserts(tree, pInsert.key) then {pInsert} else {}
    ensures rotations <= 1
  {
    ghost var cells := Want(tree);
    assert Holds(cells);
    var root := new RootVar(self);
    assert Holds(cells);
    var r, slots, dirs, nStackTop, ppThis, p := FindSlot(root, pInsert.key, tree);
    rotations := 0;
    if r.Empty? {
      rotations := HangAndRebalance(root, slots, dirs, nStackTop, ppThis, pInsert, p, tree);
    }
    pRoot := root.node;
  }

  // ----- Rebalancing after a removal -----

  /** The four ways a loss of height is absorbed or passed on. */
  lemma {:induction false} ShrinkCases(p: NodePath, t: NodeTree, h: int)
    requires Shrunk(p, t, h).Sound? && p.Step?
    ensures var n := p.dir; var a := Closed(p, t, p.state);
            if p.state == BALANCED then
              ShrinkUp(p, t, h) == Plug(p.up, Closed(p, t, 1 - n))
            else if p.state == n then
              && Shrunk(p.up, Closed(p, t, BALANCED), h + 1).Sound?
              && ShrinkUp(p, t, h) == ShrinkUp(p.up, Closed(p, t, BALANCED), h + 1)
            else
              && CanRotate(a, 1 - n) && BALANCED <= Kid(a, 1 - n).state <= RIGHT
              && var rot := AvlSpec.Rotate(a, 1 - n);
                 if rot.stop then ShrinkUp(p, t, h) == Plug(p.up, rot.tree)
                 else Shrunk(p.up, rot.tree, h + 2).Sound? && ShrinkUp(p, t, h) == ShrinkUp(p.up, rot.tree, h + 2)
  {
    if p.state == 1 - p.dir {
      RotateRepairs(Closed(p, t, p.state), 1 - p.dir, h);
    }
  }

  /** Adjust one node on the way up after a removal. */
  method ShrinkStep(root: RootVar, ppThis: Slot, n: Dir, ghost p: NodePath, ghost t: NodeTree, ghost h: int)
    returns (done: bool, ghost t': NodeTree, ghost h': int)
    requires Shrunk(p, t, h).Sound? && At(root, p, t).Sound?
    requires p.Step? && ppThis == SlotFor(root, p.up) && n == p.dir
    modifies root, PathItems(p), Items(t)
    ensures At(root, p.up, t').Sound? && PathItems(p.up) + Items(t') == PathItems(p) + Items(t)
    ensures done ==> ShrinkUp(p, t, h) == Plug(p.up, t')
    ensures !done ==> Shrunk(p.up, t', h').Sound? && ShrinkUp(p, t, h) == ShrinkUp(p.up, t', h')
  {
    StepSees(root, ppThis, p, t);
    ShrinkCases(p, t, h);
    var pNode := ppThis.Read();
    if pNode.state == BALANCED {
      SetClosed(root, pNode, 1 - n, p, t);
      return true, Closed(p, t, 1 - n), h;
    } else if pNode.state == n {
      SetClosed(root, pNode, BALANCED, p, t);
      return false, Closed(p, t, BALANCED), h + 1;
    } else {
      done := RotateClosed(root, pNode, ppThis, 1 - n, p, t);
      return done, AvlSpec.Rotate(Closed(p, t, p.state), 1 - n).tree, h + 2;
    }
  }

  /** The state of the walk up after a removal: `goal` is what will be reached. */
  ghost predicate Shrinking(root: RootVar, slots: seq<Slot>, dirs: seq<Dir>, top: nat, done: bool,
                            p: NodePath, t: NodeTree, h: int, goal: NodeTree)
    reads root, PathItems(p), Items(t)
  {
    && At(root, p, t).Sound?
    && (if done then goal == Plug(p, t)
        else Shrunk(p, t, h).Sound? && goal == ShrinkUp(p, t, h) && top == Depth(p) && StackHolds(slots, dirs, root, p))
  }

  /** Pop one entry of the stacks and adjust that node. */
  method ShrinkPop(root: RootVar, slots: seq<Slot>, dirs: seq<Dir>, top: nat,
                   ghost p: NodePath, ghost t: NodeTree, ghost h: int, ghost goal: NodeTree)
    returns (done: bool, ghost p': NodePath, ghost t': NodeTree, ghost h': int)
    requires top > 0 && Shrinking(root, slots, dirs, top, false, p, t, h, goal)
    modifies root, PathItems(p), Items(t)
    ensures Shrinking(root, slots, dirs, top - 1, done, p', t', h', goal)
    ensures PathItems(p') + Items(t') == PathItems(p) + Items(t)
  {
    StackTop(slots, dirs, root, p);
    done, t', h' := ShrinkStep(root, slots[top - 1], dirs[top - 1], p, t, h);
    p' := p.up;
  }

  /** Walk back up the stacks after a removal. */
  method RebalanceShrunk(root: RootVar, slots: seq<Slot>, dirs: seq<Dir>, top: nat,
                         ghost path: NodePath, ghost hole: NodeTree, ghost height: int, ghost goal: NodeTree)
    requires Shrinking(root, slots, dirs, top, false, path, hole, height, goal)
    modifies root, PathItems(path), Items(hole)
    ensures Rep(root.node, goal).Sound? && Items(goal) == PathItems(path) + Items(hole)
  {
    var nStackTop := top;
    var done := false;
    ghost var p, t, h := path, hole, height;
    while nStackTop > 0 && !done
      invariant Shrinking(root, slots, dirs, nStackTop, done, p, t, h, goal)
      invariant PathItems(p) + Items(t) == PathItems(path) + Items(hole)
    {
      done, p, t, h := ShrinkPop(root, slots, dirs, nStackTop, p, t, h, goal);
      nStackTop := nStackTop - 1;
    }
    PlugAt(root, p, t);
  }

  // ----- Taking the node out -----

  /** The pointer updates that put the predecessor `pNode` in the place of `pTarget`,
      or close the gap when the target has no left child and is `pNode` itself. */
  method SwapOut(ppTarget: Slot, ppThis: Slot, n: Dir, pTarget: AvlTreeNode, pNode: AvlTreeNode, ghost rest: set<Cells>)
    requires SwapReady(ppTarget, ppThis, pTarget, pNode, rest).Sound?
    modifies pTarget, pNode
    modifies if ppTarget.RootSlot? then {ppTarget.root} else {}, if ppTarget.ChildSlot? then {ppTarget.parent} else {}
    modifies if ppThis.ChildSlot? then {ppThis.parent} else {}
    ensures pTarget.child == Kids(null, null)
    ensures pTarget == pNode ==> ppTarget.Read() == old(pNode.child.At(1 - n))
    ensures pTarget != pNode ==>
              && ppTarget.Read() == pNode && pNode.state == old(pTarget.state)
              && pNode.child.right == old(pTarget.child.right)
              && pNode.child.left == old(if ppThis.parent == pTarget then pNode.child.At(1 - n) else pTarget.child.left)
              && (ppThis.parent != pTarget ==> ppThis.Read() == old(pNode.child.At(1 - n)) && ppThis.OthersUnchanged())
    ensures ppTarget.OthersUnchanged()
    ensures forall m :: m in rest ==> Holds(m)
  {
    ppTarget.Write(pNode, rest);
    ppThis.Write(pNode.child.At(1 - n), rest);
    pNode.child := pNode.child.With(LEFT, pTarget.child.left);
    pNode.child := pNode.child.With(RIGHT, pTarget.child.right);
    pNode.state := pTarget.state;
    pTarget.child := Kids(null, null);
  }

  // ----- Trails put behind one another -----

  lemma {:induction false} AppendSets(base: NodePath, q: NodePath)
    ensures PathItems(Append(base, q)) == PathItems(base) + PathItems(q)
    decreases q
  {
    if q.Step? {
      AppendSets(base, q.up);
    }
  }

  lemma {:induction false} AppendDistinct(base: NodePath, q: NodePath, below: set<AvlTreeNode>)
    ensures PathDistinct(Append(base, q), below) <==> PathDistinct(q, below) && PathDistinct(base, below + PathItems(q))
    decreases q
  {
    if q.Step? {
      var s := below + {q.item} + Items(q.other);
      AppendDistinct(base, q.up, s);
      assert s + PathItems(q.up) == below + PathItems(q);
    } else {
      assert below + PathItems(q) == below;
    }
  }

  lemma {:induction false} PathDistinctLess(p: NodePath, s: set<AvlTreeNode>, less: set<AvlTreeNode>)
    requires PathDistinct(p, s) && less <= s
    ensures PathDistinct(p, less)
    decreases p
  {
    if p.Step? {
      PathDistinctLess(p.up, s + {p.item} + Items(p.other), less + {p.item} + Items(p.other));
    }
  }

  /** Replacing the target by its predecessor keeps all nodes apart. */
  lemma SwapDistinct(p: NodePath, T: AvlTreeNode, kT: int, s: int, r: NodeTree, q0: NodePath,
                     M: AvlTreeNode, kM: int, sM: int, ml: NodeTree)
    requires var q := Step(q0, M, kM, sM, RIGHT, ml);
             PathDistinct(Append(Step(p, T, kT, s, LEFT, r), q), {})
    ensures PathDistinct(q0, Items(ml)) && PathDistinct(Step(p, M, kM, s, LEFT, r), Items(ml) + PathItems(q0))
  {
    var q := Step(q0, M, kM, sM, RIGHT, ml);
    AppendDistinct(Step(p, T, kT, s, LEFT, r), q, {});
    PathDistinctLess(q0, {} + {M} + Items(ml), Items(ml));
    PathApart(q0, {} + {M} + Items(ml));
    assert PathItems(q) == PathItems(q0) + {M} + Items(ml);
    PathDistinctLess(p, {} + PathItems(q) + {T} + Items(r), Items(ml) + PathItems(q0) + {M} + Items(r));
  }

  /** The last step of a path: what its node holds, and the path above it. */
  lemma {:induction false} LeadsStep(a: AvlTreeNode?, p: NodePath, b: AvlTreeNode?, below: set<AvlTreeNode>)
    requires p.Step?
    ensures Leads(a, p, b, below).Sound? <==>
              && OwnerHolds(p, b) && p.item.key == p.key && Rep(Ptr(p.other), p.other).Sound?
              && p.item !in below && Items(p.other) !! below && p.item !in Items(p.other)
              && Leads(a, p.up, p.item, below + {p.item} + Items(p.other)).Sound?
  {
    if PathDistinct(p, below) {
      PathSets(p, below);
      PathHolds(p, b);
      RestHolds(p);
    }
  }

  /** A path splits where one trail was put behind another. */
  lemma {:induction false} LeadsSplits(a: AvlTreeNode?, base: NodePath, q: NodePath, b: AvlTreeNode?,
                                       below: set<AvlTreeNode>)
    ensures Leads(a, Append(base, q), b, below).Sound? <==>
              && Leads(a, base, First(q, b), below + PathItems(q)).Sound?
              && Leads(First(q, b), q, b, below).Sound?
    decreases q
  {
    if q.Step? {
      var s := below + {q.item} + Items(q.other);
      assert s + PathItems(q.up) == below + PathItems(q);
      LeadsStep(a, Append(base, q), b, below);
      LeadsStep(First(q, b), q, b, below);
      LeadsSplits(a, base, q.up, q.item, s);
    } else {
      assert below + PathItems(q) == below;
    }
  }

  /** The end of a path can be rewritten: its last node aside, nothing depends on it. */
  lemma LeadsEnd(a: AvlTreeNode?, p: NodePath, b: AvlTreeNode?, below: set<AvlTreeNode>)
    requires PathDistinct(p, below)
    ensures Leads(a, p, b, below).Sound? <==>
              PathKeysMatch(p) && a == First(p, b) && Holds(PathRest(p)) && OwnerHolds(p, b)
  {
    PathSets(p, below);
    PathHolds(p, b);
  }

  /** The linked tree around the target and its predecessor, taken apart. */
  lemma {:induction false} TakeApart(root: RootVar, p: NodePath, T: AvlTreeNode, kT: int, s: int, r: NodeTree,
                                     q0: NodePath,
                  M: AvlTreeNode, kM: int, sM: int, ml: NodeTree)
    requires At(root, Append(Step(p, T, kT, s, LEFT, r), Step(q0, M, kM, sM, RIGHT, ml)), Leaf).Sound?
    ensures root.node == First(p, T) && Holds(PathRest(p)) && OwnerHolds(p, T)
    ensures T.state == s && T.child == Kids(First(q0, M), Ptr(r)) && Rep(Ptr(r), r).Sound?
    ensures Holds(PathRest(q0)) && OwnerHolds(q0, M)
    ensures M.child == Kids(Ptr(ml), null) && Rep(Ptr(ml), ml).Sound?
    ensures T.key == kT && M.key == kM && PathKeysMatch(p) && PathKeysMatch(q0)
  {
    var q := Step(q0, M, kM, sM, RIGHT, ml);
    var base := Step(p, T, kT, s, LEFT, r);
    LeadsSplits(root.node, base, q, null, {});
    LeadsStep(root.node, base, First(q, null), {} + PathItems(q));
    LeadsStep(First(q, null), q, null, {});
    LeadsEnd(First(q, null), q0, M, {} + {M} + Items(ml));
    LeadsEnd(root.node, p, T, {} + PathItems(q) + {T} + Items(r));
  }

  /** The path below the predecessor, once its end has been closed. */
  lemma PutBelow(q0: NodePath, ml: NodeTree)
    requires PathDistinct(q0, Items(ml)) && PathKeysMatch(q0)
    requires Holds(PathRest(q0)) && OwnerHolds(q0, Ptr(ml))
    ensures Leads(First(q0, Ptr(ml)), q0, Ptr(ml), Items(ml)).Sound?
  {
    LeadsEnd(First(q0, Ptr(ml)), q0, Ptr(ml), Items(ml));
  }

  /** And the path down to the predecessor in its new place, above the nodes `below`. */
  lemma PutAbove(root: RootVar, p: NodePath, r: NodeTree, M: AvlTreeNode, s: int, f: AvlTreeNode?,
                 below: set<AvlTreeNode>)
    requires PathDistinct(Step(p, M, M.key, s, LEFT, r), below) && PathKeysMatch(p)
    requires root.node == First(p, M) && Holds(PathRest(p)) && OwnerHolds(p, M)
    requires M.state == s && M.child == Kids(f, Ptr(r)) && Rep(Ptr(r), r).Sound?
    ensures Leads(root.node, Step(p, M, M.key, s, LEFT, r), f, below).Sound?
  {
    var base := Step(p, M, M.key, s, LEFT, r);
    PathApart(base, below);
    LeadsEnd(root.node, p, M, below + {M} + Items(r));
    LeadsStep(root.node, base, f, below);
  }

  /** The linked tree put together again around the predecessor. */
  lemma PutTogether(root: RootVar, p: NodePath, r: NodeTree, q0: NodePath, M: AvlTreeNode, s: int, ml: NodeTree)
    requires PathDistinct(q0, Items(ml)) && PathDistinct(Step(p, M, M.key, s, LEFT, r), Items(ml) + PathItems(q0))
    requires root.node == First(p, M) && Holds(PathRest(p)) && OwnerHolds(p, M)
    requires M.state == s && M.child == Kids(First(q0, Ptr(ml)), Ptr(r)) && Rep(Ptr(r), r).Sound?
    requires Holds(PathRest(q0)) && OwnerHolds(q0, Ptr(ml)) && Rep(Ptr(ml), ml).Sound?
    requires PathKeysMatch(p) && PathKeysMatch(q0)
    ensures At(root, Append(Step(p, M, M.key, s, LEFT, r), q0), ml).Sound?
  {
    PutBelow(q0, ml);
    PutAbove(root, p, r, M, s, First(q0, Ptr(ml)), Items(ml) + PathItems(q0));
    AtJoins(root, Step(p, M, M.key, s, LEFT, r), q0, ml);
  }

  lemma AtJoins(root: RootVar, base: NodePath, q: NodePath, t: NodeTree)
    requires Leads(root.node, base, First(q, Ptr(t)), Items(t) + PathItems(q)).Sound?
    requires Leads(First(q, Ptr(t)), q, Ptr(t), Items(t)).Sound? && Rep(Ptr(t), t).Sound?
    ensures At(root, Append(base, q), t).Sound?
  {
    LeadsSplits(root.node, base, q, Ptr(t), Items(t));
  }

  // ----- Searching on for the predecessor -----

  ghost function DigBase(p: NodePath, target: NodeTree): NodePath
    requires target.Node?
  {
    Step(p, target.item, target.key, target.state, LEFT, target.right)
  }

  /** From the left child of the target, `q` has followed right children to `u`. */
  ghost predicate DugTo(q: NodePath, u: NodeTree, l: NodeTree) {
    if u.Node? then l.Node? && LastSpot(q, u) == LastSpot(Top, l)
    else if q.Top? then l.Leaf?
    else
      l.Node? && q.dir == RIGHT && LastSpot(Top, l) == Spot(q.up, Node(q.other, q.item, q.key, q.state, Leaf))
  }

  /** The state of a removal's search once the target at the end of `p` is known. */
  ghost predicate Digging(root: RootVar, slots: seq<Slot>, dirs: seq<Dir>, top: nat, ppThis: Slot,
                          p: NodePath, target: NodeTree, q: NodePath, u: NodeTree, k: int, tree: NodeTree)
    requires target.Node?
    reads root, PathItems(Append(DigBase(p, target), q)), Items(u)
  {
    var path := Append(DigBase(p, target), q);
    && At(root, path, u).Sound? && ppThis == SlotFor(root, path)
    && |slots| == |dirs| == TREE_MAX_HEIGHT && top == Depth(path) && StackHolds(slots, dirs, root, path)
    && top + RightSpine(u) == Depth(p) + 1 + RightSpine(target.left)
    && Descend(Top, tree, k) == Spot(p, target) && DugTo(q, u, target.left) && TreeBelow(u, k)
    && PathItems(path) + Items(u) == Items(tree)
  }

  /** The search has met the target: push it and go left. */
  lemma {:induction false} SearchFinds(root: RootVar, slots: seq<Slot>, dirs: seq<Dir>, top: nat, ppThis: Slot,
                    p: NodePath, t: NodeTree, k: int, tree: NodeTree)
    requires Searching(root, slots, dirs, top, ppThis, p, t, k, tree).Sound? && t.Node? && t.key == k
    requires top < TREE_MAX_HEIGHT && Ordered(tree)
    ensures Digging(root, slots[top := ppThis], dirs[top := LEFT], top + 1, ChildSlot(t.item, LEFT),
                    p, t, Top, t.left, k, tree)
    ensures t.item.child.left == Ptr(t.left) && (t.left.Node? ==> t.left.item.key == t.left.key)
    ensures Descend(Top, tree, k) == Spot(p, t) && top == Depth(p)
  {
    DescendStep(root, p, t, LEFT);
    PushIsPure(p, t, k, LEFT);
    PushStack(root, slots, dirs, ppThis, p, t, LEFT);
    SlotReads(root, DigBase(p, t), t.left);
    DescendSplits(Top, tree, k);
  }

  /** Below the target every node is smaller: push it and go right. */
  lemma {:induction false} DigDeeper(root: RootVar, slots: seq<Slot>, dirs: seq<Dir>, top: nat, ppThis: Slot,
                  p: NodePath, target: NodeTree, q: NodePath, u: NodeTree, k: int, tree: NodeTree)
    requires target.Node? && u.Node?
    requires Digging(root, slots, dirs, top, ppThis, p, target, q, u, k, tree)
    requires top < TREE_MAX_HEIGHT
    ensures u.key < k
    ensures Digging(root, slots[top := ppThis], dirs[top := RIGHT], top + 1, ChildSlot(u.item, RIGHT),
                    p, target, Step(q, u.item, u.key, u.state, RIGHT, u.left), u.right, k, tree)
    ensures u.item.child.right == Ptr(u.right) && (u.right.Node? ==> u.right.item.key == u.right.key)
  {
    var path := Append(DigBase(p, target), q);
    DescendStep(root, path, u, RIGHT);
    PushIsPure(path, u, k, RIGHT);
    PushStack(root, slots, dirs, ppThis, path, u, RIGHT);
    SlotReads(root, Step(path, u.item, u.key, u.state, RIGHT, u.left), u.right);
  }

  lemma DigSees(root: RootVar, slots: seq<Slot>, dirs: seq<Dir>, top: nat, ppThis: Slot,
                p: NodePath, target: NodeTree, q: NodePath, u: NodeTree, k: int, tree: NodeTree)
    requires target.Node? && Digging(root, slots, dirs, top, ppThis, p, target, q, u, k, tree)
    ensures Descend(Top, tree, k) == Spot(p, target) && |slots| == |dirs| == TREE_MAX_HEIGHT
    ensures top + RightSpine(u) == Depth(p) + 1 + RightSpine(target.left)
  {
  }

  lemma {:induction false} AppendDepth(base: NodePath, q: NodePath)
    ensures Depth(Append(base, q)) == Depth(base) + Depth(q)
    decreases q
  {
    if q.Step? {
      AppendDepth(base, q.up);
    }
  }

  /** Patching the entry after the target's makes the stacks those of the new path. */
  lemma {:induction false} PatchStack(slots: seq<Slot>, dirs: seq<Dir>, root: RootVar, p: NodePath, target: NodeTree,
                                      q: NodePath, m: AvlTreeNode, km: int)
    requires target.Node? && Depth(p) + 1 < |slots|
    requires StackHolds(slots, dirs, root, Append(DigBase(p, target), q))
    ensures StackHolds(slots[Depth(p) + 1 := ChildSlot(m, LEFT)], dirs, root,
                       Append(Step(p, m, km, target.state, LEFT, target.right), q))
    decreases q
  {
    var slots' := slots[Depth(p) + 1 := ChildSlot(m, LEFT)];
    if q.Step? {
      AppendDepth(DigBase(p, target), q.up);
      AppendDepth(Step(p, m, km, target.state, LEFT, target.right), q.up);
      PatchStack(slots, dirs, root, p, target, q.up, m, km);
    } else {
      StackAgrees(slots, dirs, slots', dirs, root, p);
    }
  }

  // ----- Removal -----

  /** The cells the swap leaves alone, and the facts it needs, when the target has no
      left child and gives way itself. */
  lemma {:induction false} GapBefore(root: RootVar, slots: seq<Slot>, dirs: seq<Dir>, p: NodePath, target: NodeTree)
    requires target.Node? && At(root, DigBase(p, target), Leaf).Sound?
    requires StackHolds(slots, dirs, root, DigBase(p, target))
    ensures var T, r, slot := target.item, target.right, SlotFor(root, p);
            && Depth(p) < |slots| && Depth(p) < |dirs| && slots[Depth(p)] == slot && dirs[Depth(p)] == LEFT
            && StackHolds(slots, dirs, root, p)
            && slot.Read() == T && slot.Outside({T}) && slot.Outside(PathRest(p).Keys) && slot.Outside(Items(r))
            && Holds(PathRest(p)) && T !in PathRest(p) && Rep(Ptr(r), r).Sound? && T !in Items(r)
            && T.child == Kids(null, Ptr(r)) && PathDistinct(p, Items(r)) && PathKeysMatch(p)
            && root.node == First(p, T) && OwnerHolds(p, T)
            && PathItems(p) + Items(r) == PathItems(DigBase(p, target)) - {T}
  {
    var base := DigBase(p, target);
    var below := {} + {target.item} + Items(target.right);
    LeadsStep(root.node, base, null, {});
    LeadsEnd(root.node, p, target.item, below);
    PathSets(p, below);
    PathDistinctLess(p, below, Items(target.right));
  }

  lemma GapAfter(root: RootVar, p: NodePath, r: NodeTree)
    requires PathDistinct(p, Items(r)) && PathKeysMatch(p) && Rep(Ptr(r), r).Sound?
    requires root.node == First(p, Ptr(r)) && Holds(PathRest(p)) && OwnerHolds(p, Ptr(r))
    ensures At(root, p, r).Sound?
  {
    LeadsEnd(root.node, p, Ptr(r), Items(r));
  }

  /** The same when the predecessor `m` takes the target's place: the stacks. */
  lemma SwapStacks(root: RootVar, slots: seq<Slot>, dirs: seq<Dir>, p: NodePath, target: NodeTree,
                   q0: NodePath, m: AvlTreeNode, km: int, sm: int, ml: NodeTree)
    requires target.Node?
    requires StackHolds(slots, dirs, root, Append(DigBase(p, target), Step(q0, m, km, sm, RIGHT, ml)))
    ensures var slot', d := SlotFor(root, Append(DigBase(p, target), q0)), Depth(p) + 1 + Depth(q0);
            && d < |slots| && d < |dirs| && slots[d] == slot' && dirs[d] == RIGHT
            && StackHolds(slots, dirs, root, Append(DigBase(p, target), q0))
  {
    AppendDepth(DigBase(p, target), q0);
    StackTop(slots, dirs, root, Append(DigBase(p, target), Step(q0, m, km, sm, RIGHT, ml)));
  }

  /** And the slots. */
  lemma {:induction false} SwapSlots(root: RootVar, p: NodePath, target: NodeTree,
                  q0: NodePath, m: AvlTreeNode, km: int, sm: int, ml: NodeTree)
    requires target.Node? && At(root, Append(DigBase(p, target), Step(q0, m, km, sm, RIGHT, ml)), Leaf).Sound?
    ensures var slot' := SlotFor(root, Append(DigBase(p, target), q0));
            && SlotFor(root, p).Read() == target.item && slot'.Read() == m
            && slot' == if q0.Top? then ChildSlot(target.item, LEFT) else ChildSlot(q0.item, q0.dir)
  {
    TakeApart(root, p, target.item, target.key, target.state, target.right, q0, m, km, sm, ml);
    if q0.Step? {
      AppendLast(DigBase(p, target), q0);
    }
  }

  lemma AppendLast(base: NodePath, q: NodePath)
    requires q.Step?
    ensures Append(base, q).Step? && Append(base, q).item == q.item && Append(base, q).dir == q.dir
  {
  }

  /** What is apart from what around the target `T` with right subtree `r` and its
      predecessor `m` with left subtree `ml`. */
  ghost predicate AllApart(P: set<AvlTreeNode>, Q: set<AvlTreeNode>, T: AvlTreeNode, R: set<AvlTreeNode>,
                           m: AvlTreeNode,
                           L: set<AvlTreeNode>)
  {
    && T != m && T !in Q && m !in Q && T !in R && T !in L && m !in R && m !in L && T !in P && m !in P
    && Q !! L && Q !! R && R !! L && P !! Q && P !! R && P !! L
  }

  lemma StepApart(p: NodePath, below: set<AvlTreeNode>)
    requires p.Step? && PathDistinct(p, below)
    ensures p.item !in below && p.item !in Items(p.other) && Items(p.other) !! below
    ensures PathItems(p.up) !! below && p.item !in PathItems(p.up) && PathItems(p.up) !! Items(p.other)
  {
    PathApart(p.up, below + {p.item} + Items(p.other));
  }

  lemma SwapApart(base: NodePath, q: NodePath)
    requires base.Step? && q.Step? && PathDistinct(Append(base, q), {})
    ensures AllApart(PathItems(base.up), PathItems(q.up), base.item, Items(base.other), q.item, Items(q.other))
  {
    AppendDistinct(base, q, {});
    StepApart(q, {});
    StepApart(base, {} + PathItems(q));
    assert PathItems(q) == PathItems(q.up) + {q.item} + Items(q.other);
  }

  lemma SwapItems(base: NodePath, q: NodePath, km: int)
    requires base.Step? && q.Step?
    requires AllApart(PathItems(base.up), PathItems(q.up), base.item, Items(base.other), q.item, Items(q.other))
    ensures PathItems(Append(base.(item := q.item, key := km), q.up)) + Items(q.other) ==
            PathItems(Append(base, q)) - {base.item}
  {
    AppendSets(base, q);
    AppendSets(base.(item := q.item, key := km), q.up);
    Shuffle(PathItems(base.up), PathItems(q.up), base.item, Items(base.other), q.item, Items(q.other));
  }

  lemma Shuffle(P: set<AvlTreeNode>, Q: set<AvlTreeNode>, T: AvlTreeNode, R: set<AvlTreeNode>, m: AvlTreeNode,
                L: set<AvlTreeNode>)
    requires AllApart(P, Q, T, R, m, L)
    ensures (P + {m} + R) + Q + L == (P + {T} + R) + (Q + {m} + L) - {T}
  {
  }

  lemma PathEnds(root: RootVar, p: NodePath, below: set<AvlTreeNode>)
    requires PathDistinct(p, below)
    ensures SlotFor(root, p).ChildSlot? ==>
              SlotFor(root, p).parent in PathItems(p) && SlotFor(root, p).parent !in PathRest(p)
    ensures PathRest(p).Keys <= PathItems(p)
  {
    PathSets(p, below);
  }

  /** The cells the swap leaves alone. */
  ghost function Untouched(p: NodePath, target: NodeTree, q: NodePath): set<Cells>
    requires target.Node?
  {
    if q.Top? then {PathRest(p), Want(target.right)}
    else {PathRest(p), Want(target.right), PathRest(q.up), Want(q.other)}
  }

  /** The slot the last node of the search hangs in. */
  ghost function LastSlot(root: RootVar, p: NodePath, target: NodeTree, q: NodePath): Slot
    requires target.Node?
  {
    if q.Top? then SlotFor(root, p)
    else if q.up.Top? then ChildSlot(target.item, LEFT)
    else ChildSlot(q.up.item, q.up.dir)
  }

  ghost function LastNode(target: NodeTree, q: NodePath): AvlTreeNode
    requires target.Node?
  {
    if q.Top? then target.item else q.item
  }

  /** Everything the swap requires of its slots and nodes. */
  ghost function SwapReady(slot: Slot, slot': Slot, T: AvlTreeNode, x: AvlTreeNode, rest: set<Cells>): Status
    reads if slot.RootSlot? then {slot.root} else {}, if slot.ChildSlot? then {slot.parent} else {}
    reads if slot'.RootSlot? then {slot'.root} else {}, if slot'.ChildSlot? then {slot'.parent} else {}
    reads set m, y | m in rest && y in m :: y
  {
    if
      && slot.Read() == T && slot'.Read() == x && slot.Outside({T, x}) && slot'.Outside({x})
      && (if T == x then slot' == slot
          else slot'.ChildSlot? && slot.Outside({slot'.parent}) && (slot'.parent == T ==> slot'.side == LEFT))
      && (forall m :: m in rest ==>
            Holds(m) && T !in m && x !in m && slot.Outside(m.Keys) && (T != x ==> slot'.Outside(m.Keys)))
    then Sound else Broken
  }

  lemma GapReady(root: RootVar, slots: seq<Slot>, dirs: seq<Dir>, p: NodePath, target: NodeTree)
    requires target.Node? && At(root, DigBase(p, target), Leaf).Sound?
    requires StackHolds(slots, dirs, root, DigBase(p, target))
    ensures SwapReady(SlotFor(root, p), SlotFor(root, p), target.item, target.item, Untouched(p, target, Top)).Sound?
  {
    GapBefore(root, slots, dirs, p, target);
    ReadyFromTwo(SlotFor(root, p), target.item, PathRest(p), Want(target.right));
  }

  lemma ReadyFromTwo(slot: Slot, T: AvlTreeNode, rp: Cells, r: Cells)
    requires Holds(rp) && Holds(r) && T !in rp && T !in r
    requires slot.Read() == T && slot.Outside({T}) && slot.Outside(rp.Keys) && slot.Outside(r.Keys)
    ensures SwapReady(slot, slot, T, T, {rp, r}).Sound?
  {
  }

  lemma PredecessorReady(root: RootVar, slots: seq<Slot>, dirs: seq<Dir>, p: NodePath, target: NodeTree, q: NodePath)
    requires target.Node? && q.Step? && q.dir == RIGHT
    requires At(root, Append(DigBase(p, target), q), Leaf).Sound?
    requires StackHolds(slots, dirs, root, Append(DigBase(p, target), q))
    ensures SwapReady(SlotFor(root, p), LastSlot(root, p, target, q), target.item, q.item,
                      Untouched(p, target, q)).Sound?
  {
    SwapSlots(root, p, target, q.up, q.item, q.key, q.state, q.other);
    TakeApart(root, p, target.item, target.key, target.state, target.right, q.up, q.item, q.key, q.state, q.other);
    AppendDistinct(DigBase(p, target), q, {});
    SwapApart(DigBase(p, target), q);
    PathEnds(root, p, {} + PathItems(q) + {target.item} + Items(target.right));
    PathEnds(root, q.up, {} + {q.item} + Items(q.other));
    ReadyFromParts(SlotFor(root, p), LastSlot(root, p, target, q), target.item, q.item, PathRest(p), Want(target.right),
                   PathRest(q.up), Want(q.other), PathItems(p), PathItems(q.up));
  }

  lemma {:induction false} ReadyFromParts(slot: Slot, slot': Slot, T: AvlTreeNode, m: AvlTreeNode, rp: Cells,
                                          r: Cells, rq: Cells, l: Cells,
                       P: set<AvlTreeNode>, Q: set<AvlTreeNode>)
    requires AllApart(P, Q, T, r.Keys, m, l.Keys) && rp.Keys <= P && rq.Keys <= Q
    requires Holds(rp) && Holds(r) && Holds(rq) && Holds(l)
    requires slot.Read() == T && slot'.Read() == m && slot'.ChildSlot?
    requires slot.ChildSlot? ==> slot.parent in P && slot.parent !in rp
    requires (slot'.parent == T && slot'.side == LEFT) || (slot'.parent in Q && slot'.parent !in rq)
    ensures SwapReady(slot, slot', T, m, {rp, r, rq, l}).Sound?
  {
  }

  /** The state of a removal's search at its end; `nodes` are those of the whole tree. */
  ghost predicate Trail(root: RootVar, slots: seq<Slot>, dirs: seq<Dir>, top: nat, p: NodePath, target: NodeTree,
                        q: NodePath, nodes: set<AvlTreeNode>)
    requires target.Node?
    reads root, PathItems(Append(DigBase(p, target), q))
  {
    var path := Append(DigBase(p, target), q);
    && At(root, path, Leaf).Sound? && DugTo(q, Leaf, target.left)
    && top == Depth(path) && StackHolds(slots, dirs, root, path) && nodes == PathItems(path)
  }

  /** What the swap needs to know of its slots. */
  ghost predicate SlotsReady(root: RootVar, slots: seq<Slot>, dirs: seq<Dir>, top: nat, p: NodePath, target: NodeTree,
                             q: NodePath, nodes: set<AvlTreeNode>)
    requires target.Node?
    ensures SlotsReady(root, slots, dirs, top, p, target, q, nodes) ==>
              0 < top <= |slots| && top <= |dirs| && slots[top - 1] == LastSlot(root, p, target, q)
    ensures SlotsReady(root, slots, dirs, top, p, target, q, nodes) ==> dirs[top - 1] == if q.Top? then LEFT else RIGHT
  {
    var slot, slot' := SlotFor(root, p), LastSlot(root, p, target, q);
    && 0 < top <= |slots| && top <= |dirs| && slots[top - 1] == slot'
    && dirs[top - 1] == (if q.Top? then LEFT else RIGHT)
    && target.item in nodes && LastNode(target, q) in nodes
    && (slot.ChildSlot? ==> slot.parent in nodes) && (slot'.ChildSlot? ==> slot'.parent in nodes)
    && (slot'.RootSlot? ==> slot'.root == root)
  }

  lemma GapTrail(root: RootVar, slots: seq<Slot>, dirs: seq<Dir>, p: NodePath, target: NodeTree)
    requires target.Node? && StackHolds(slots, dirs, root, DigBase(p, target))
    ensures SlotsReady(root, slots, dirs, Depth(p) + 1, p, target, Top, PathItems(DigBase(p, target)))
  {
    StackTop(slots, dirs, root, DigBase(p, target));
  }

  lemma {:induction false} PredecessorTrail(root: RootVar, slots: seq<Slot>, dirs: seq<Dir>, p: NodePath,
                                            target: NodeTree, q: NodePath)
    requires target.Node? && q.Step? && q.dir == RIGHT
    requires At(root, Append(DigBase(p, target), q), Leaf).Sound?
    requires StackHolds(slots, dirs, root, Append(DigBase(p, target), q))
    ensures SlotsReady(root, slots, dirs, Depth(Append(DigBase(p, target), q)), p, target, q,
                       PathItems(Append(DigBase(p, target), q)))
  {
    AppendSets(DigBase(p, target), q);
    AppendDepth(DigBase(p, target), q);
    SwapStacks(root, slots, dirs, p, target, q.up, q.item, q.key, q.state, q.other);
    SwapSlots(root, p, target, q.up, q.item, q.key, q.state, q.other);
  }

  lemma TrailParts(root: RootVar, slots: seq<Slot>, dirs: seq<Dir>, top: nat, p: NodePath, target: NodeTree,
                   q: NodePath, nodes: set<AvlTreeNode>)
    requires target.Node? && Trail(root, slots, dirs, top, p, target, q, nodes)
    ensures At(root, Append(DigBase(p, target), q), Leaf).Sound?
    ensures StackHolds(slots, dirs, root, Append(DigBase(p, target), q))
    ensures top == Depth(Append(DigBase(p, target), q)) && nodes == PathItems(Append(DigBase(p, target), q))
    ensures q.Step? ==> q.dir == RIGHT
  {
  }

  /** The stacks and the last node before the swap. */
  lemma TrailReady(root: RootVar, slots: seq<Slot>, dirs: seq<Dir>, top: nat, p: NodePath, target: NodeTree,
                   q: NodePath, nodes: set<AvlTreeNode>)
    requires target.Node? && Trail(root, slots, dirs, top, p, target, q, nodes)
    ensures SwapReady(SlotFor(root, p), LastSlot(root, p, target, q), target.item, LastNode(target, q),
                      Untouched(p, target, q)).Sound?
  {
    TrailParts(root, slots, dirs, top, p, target, q, nodes);
    if q.Top? {
      GapReady(root, slots, dirs, p, target);
    } else {
      PredecessorReady(root, slots, dirs, p, target, q);
    }
  }

  lemma TrailSlots(root: RootVar, slots: seq<Slot>, dirs: seq<Dir>, top: nat, p: NodePath, target: NodeTree,
                   q: NodePath, nodes: set<AvlTreeNode>)
    requires target.Node? && Trail(root, slots, dirs, top, p, target, q, nodes)
    ensures SlotsReady(root, slots, dirs, top, p, target, q, nodes)
  {
    TrailParts(root, slots, dirs, top, p, target, q, nodes);
    if q.Top? {
      GapTrail(root, slots, dirs, p, target);
    } else {
      PredecessorTrail(root, slots, dirs, p, target, q);
    }
  }

  /** What is to be reached: the rebalancing starts from the hole, with patched stacks. */
  ghost predicate AtHole(root: RootVar, slots: seq<Slot>, dirs: seq<Dir>, top: nat,
                         p: NodePath, target: NodeTree, nodes: set<AvlTreeNode>)
    requires target.Node?
    reads root, PathItems(Hole(p, target).path), Items(Hole(p, target).tree)
  {
    var h := Hole(p, target);
    && At(root, h.path, h.tree).Sound? && StackHolds(slots, dirs, root, h.path) && Depth(h.path) == top
    && PathItems(h.path) + Items(h.tree) == nodes
  }

  /** What the target and its surroundings hold before the swap. */
  ghost predicate TargetHolds(root: RootVar, p: NodePath, target: NodeTree, left: AvlTreeNode?)
    requires target.Node?
    reads root, PathItems(p), target.item
  {
    && root.node == First(p, target.item) && OwnerHolds(p, target.item)
    && target.item.state == target.state && target.item.child == Kids(left, Ptr(target.right))
  }

  /** Everything known before the swap. */
  ghost predicate Primed(root: RootVar, p: NodePath, target: NodeTree, q: NodePath)
    requires target.Node?
    reads root, PathItems(p), Items(target.right), target.item, PathItems(q)
  {
    && Rep(Ptr(target.right), target.right).Sound? && (q.Step? ==> Rep(Ptr(q.other), q.other).Sound?)
    && (q.Top? ==> TargetHolds(root, p, target, null))
    && (q.Step? ==>
          && TargetHolds(root, p, target, First(q.up, q.item)) && q.item.child == Kids(Ptr(q.other), null)
          && q.item != target.item && OwnerHolds(q.up, q.item) && (q.up.Step? ==> q.up.item != target.item))
  }

  /** Everything known after it. */
  ghost predicate Swapped(root: RootVar, p: NodePath, target: NodeTree, q: NodePath)
    requires target.Node?
    reads root, PathItems(p), Items(target.right), PathItems(q)
  {
    && Rep(Ptr(target.right), target.right).Sound? && Holds(PathRest(p))
    && (q.Top? ==> root.node == First(p, Ptr(target.right)) && OwnerHolds(p, Ptr(target.right)))
    && (q.Step? ==>
          && Rep(Ptr(q.other), q.other).Sound? && RestInPlace(q.up) && OwnerHolds(q.up, Ptr(q.other))
          && root.node == First(p, q.item) && OwnerHolds(p, q.item)
          && q.item.state == target.state && q.item.child == Kids(First(q.up, Ptr(q.other)), Ptr(target.right)))
  }

  /** The part that does not depend on the heap. */
  ghost function Apart(root: RootVar, slots: seq<Slot>, dirs: seq<Dir>, top: nat, p: NodePath, target: NodeTree,
                       q: NodePath, nodes: set<AvlTreeNode>): Status
    requires target.Node?
  {
    if
      && PathKeysMatch(p) && DugTo(q, Leaf, target.left)
      && (q.Top? ==>
            && StackHolds(slots, dirs, root, p) && PathDistinct(p, Items(target.right))
            && top == Depth(p) + 1 && PathItems(p) + Items(target.right) == nodes - {target.item})
      && (q.Step? ==>
            && StackHolds(slots, dirs, root, Append(DigBase(p, target), q.up))
            && PathDistinct(Append(DigBase(p, target), q), {}) && q.item.key == q.key && PathKeysMatch(q.up)
            && top == Depth(p) + 2 + Depth(q.up) && nodes == PathItems(Append(DigBase(p, target), q)))
    then Sound else Broken
  }

  lemma {:induction false} BeforeGap(root: RootVar, slots: seq<Slot>, dirs: seq<Dir>, p: NodePath, target: NodeTree)
    requires target.Node? && At(root, DigBase(p, target), Leaf).Sound? && target.left.Leaf?
    requires StackHolds(slots, dirs, root, DigBase(p, target))
    ensures Primed(root, p, target, Top)
    ensures Apart(root, slots, dirs, Depth(p) + 1, p, target, Top, PathItems(DigBase(p, target))).Sound?
  {
    GapBefore(root, slots, dirs, p, target);
  }

  lemma {:induction false} PredecessorPrimed(root: RootVar, p: NodePath, target: NodeTree, q: NodePath)
    requires target.Node? && q.Step? && q.dir == RIGHT
    requires At(root, Append(DigBase(p, target), q), Leaf).Sound?
    ensures Primed(root, p, target, q) && PathKeysMatch(p) && PathKeysMatch(q.up) && q.item.key == q.key
  {
    TakeApart(root, p, target.item, target.key, target.state, target.right, q.up, q.item, q.key, q.state, q.other);
    SwapApart(DigBase(p, target), q);
  }

  lemma BeforePredecessor(root: RootVar, slots: seq<Slot>, dirs: seq<Dir>, p: NodePath, target: NodeTree, q: NodePath)
    requires target.Node? && q.Step? && DugTo(q, Leaf, target.left)
    requires At(root, Append(DigBase(p, target), q), Leaf).Sound?
    requires StackHolds(slots, dirs, root, Append(DigBase(p, target), q))
    ensures Primed(root, p, target, q)
    ensures Apart(root, slots, dirs, Depth(Append(DigBase(p, target), q)), p, target, q,
                  PathItems(Append(DigBase(p, target), q))).Sound?
  {
    PredecessorPrimed(root, p, target, q);
    SwapStacks(root, slots, dirs, p, target, q.up, q.item, q.key, q.state, q.other);
    AppendDepth(DigBase(p, target), q);
  }

  lemma {:induction false} BeforeSwap(root: RootVar, slots: seq<Slot>, dirs: seq<Dir>, top: nat, p: NodePath,
                                      target: NodeTree,
                   q: NodePath, nodes: set<AvlTreeNode>)
    requires target.Node? && Trail(root, slots, dirs, top, p, target, q, nodes)
    ensures Primed(root, p, target, q) && Apart(root, slots, dirs, top, p, target, q, nodes).Sound?
  {
    if q.Top? {
      BeforeGap(root, slots, dirs, p, target);
    } else {
      BeforePredecessor(root, slots, dirs, p, target, q);
    }
  }

  /** The swap, in terms of the paths to the target and to its predecessor. */
  method SwapOutAt(root: RootVar, ppTarget: Slot, ppThis: Slot, n: Dir, pTarget: AvlTreeNode, pNode: AvlTreeNode,
                   ghost p: NodePath, ghost target: NodeTree, ghost q: NodePath)
    requires target.Node? && pTarget == target.item && pNode == LastNode(target, q)
    requires SwapReady(ppTarget, ppThis, pTarget, pNode, Untouched(p, target, q)).Sound?
    requires ppTarget == SlotFor(root, p) && ppThis == LastSlot(root, p, target, q)
             && n == if q.Top? then LEFT else RIGHT
    requires Primed(root, p, target, q)
    modifies pTarget, pNode
    modifies if ppTarget.RootSlot? then {ppTarget.root} else {}, if ppTarget.ChildSlot? then {ppTarget.parent} else {}
    modifies if ppThis.ChildSlot? then {ppThis.parent} else {}
    ensures pTarget.child == Kids(null, null) && Swapped(root, p, target, q)
  {
    SwapOut(ppTarget, ppThis, n, pTarget, pNode, Untouched(p, target, q));
    assert Holds(PathRest(p)) && Holds(Want(target.right));
    assert q.Step? ==> Holds(PathRest(q.up)) && Holds(Want(q.other));
  }

  lemma AtHoleIntro(root: RootVar, slots: seq<Slot>, dirs: seq<Dir>, p: NodePath, target: NodeTree,
                    path: NodePath, tree: NodeTree)
    requires target.Node? && Hole(p, target) == Spot(path, tree)
    requires At(root, path, tree).Sound? && StackHolds(slots, dirs, root, path)
    ensures AtHole(root, slots, dirs, Depth(path), p, target, PathItems(path) + Items(tree))
  {
  }

  lemma AfterGap(root: RootVar, slots: seq<Slot>, dirs: seq<Dir>, top: nat, p: NodePath, target: NodeTree, q: NodePath,
                 nodes: set<AvlTreeNode>, idx: nat, slot: Slot, slots': seq<Slot>)
    requires target.Node? && q.Top? && idx == Depth(p) + 1 < |slots| && slots' == slots[idx := slot] && top > 0
    requires Apart(root, slots, dirs, top, p, target, q, nodes).Sound? && Swapped(root, p, target, q)
    ensures AtHole(root, slots', dirs, top - 1, p, target, nodes - {target.item})
  {
    GapAfter(root, p, target.right);
    StackAgrees(slots, dirs, slots', dirs, root, p);
    AtHoleIntro(root, slots', dirs, p, target, p, target.right);
  }

  lemma AfterPredecessor(root: RootVar, slots: seq<Slot>, dirs: seq<Dir>, top: nat, p: NodePath, target: NodeTree,
                         q: NodePath,
                         nodes: set<AvlTreeNode>, idx: nat, slots': seq<Slot>)
    requires target.Node? && q.Step? && idx == Depth(p) + 1 < |slots| && slots' == slots[idx := ChildSlot(q.item, LEFT)]
    requires Apart(root, slots, dirs, top, p, target, q, nodes).Sound? && Swapped(root, p, target, q) && top > 0
    ensures AtHole(root, slots', dirs, top - 1, p, target, nodes - {target.item})
  {
    var path := Append(Step(p, q.item, q.key, target.state, LEFT, target.right), q.up);
    PatchedTrail(root, slots, dirs, top, p, target, q, nodes, idx, slots', path);
    PutTogether(root, p, target.right, q.up, q.item, target.state, q.other);
    AtHoleIntro(root, slots', dirs, p, target, path, q.other);
  }

  lemma PatchedTrail(root: RootVar, slots: seq<Slot>, dirs: seq<Dir>, top: nat, p: NodePath, target: NodeTree,
                     q: NodePath,
                     nodes: set<AvlTreeNode>, idx: nat, slots': seq<Slot>, path: NodePath)
    requires target.Node? && q.Step? && idx == Depth(p) + 1 < |slots| && slots' == slots[idx := ChildSlot(q.item, LEFT)]
    requires Apart(root, slots, dirs, top, p, target, q, nodes).Sound?
    requires path == Append(Step(p, q.item, q.key, target.state, LEFT, target.right), q.up)
    ensures StackHolds(slots', dirs, root, path) && Depth(path) == top - 1 && Hole(p, target) == Spot(path, q.other)
    ensures PathItems(path) + Items(q.other) == nodes - {target.item}
    ensures q.item.key == q.key && PathKeysMatch(p) && PathKeysMatch(q.up)
    ensures PathDistinct(q.up, Items(q.other))
    ensures PathDistinct(Step(p, q.item, q.key, target.state, LEFT, target.right), Items(q.other) + PathItems(q.up))
  {
    SwapDistinct(p, target.item, target.key, target.state, target.right, q.up, q.item, q.key, q.state, q.other);
    PatchStack(slots, dirs, root, p, target, q.up, q.item, q.key);
    AppendDepth(Step(p, q.item, q.key, target.state, LEFT, target.right), q.up);
    SwapApart(DigBase(p, target), q);
    SwapItems(DigBase(p, target), q, q.key);
    HoleForm(p, target, q);
  }

  lemma HoleForm(p: NodePath, target: NodeTree, q: NodePath)
    requires target.Node? && q.Step? && DugTo(q, Leaf, target.left)
    ensures Hole(p, target) == Spot(Append(Step(p, q.item, q.key, target.state, LEFT, target.right), q.up), q.other)
  {
  }

  lemma AfterSwap(root: RootVar, slots: seq<Slot>, dirs: seq<Dir>, top: nat, p: NodePath, target: NodeTree, q: NodePath,
                  nodes: set<AvlTreeNode>, idx: nat, slots': seq<Slot>)
    requires target.Node? && idx == Depth(p) + 1 < |slots| && top > 0
    requires slots' == slots[idx := ChildSlot(LastNode(target, q), if q.Top? then RIGHT else LEFT)]
    requires Apart(root, slots, dirs, top, p, target, q, nodes).Sound? && Swapped(root, p, target, q)
    ensures AtHole(root, slots', dirs, top - 1, p, target, nodes - {target.item})
  {
    if q.Top? {
      AfterGap(root, slots, dirs, top, p, target, q, nodes, idx, ChildSlot(target.item, RIGHT), slots');
    } else {
      AfterPredecessor(root, slots, dirs, top, p, target, q, nodes, idx, slots');
    }
  }

  /** Pop the last node, put it in the target's place and patch the stack; a target
      without a left child is itself that node, and its gap is closed. */
  method ReplaceTarget(root: RootVar, slots: seq<Slot>, dirs: seq<Dir>, top: nat, ppTarget: Slot, idx: nat,
                       ghost p: NodePath, ghost target: NodeTree, ghost q: NodePath, ghost nodes: set<AvlTreeNode>)
    returns (slots': seq<Slot>, pTarget: AvlTreeNode)
    requires target.Node? && Trail(root, slots, dirs, top, p, target, q, nodes)
    requires ppTarget == SlotFor(root, p) && idx == Depth(p) + 1 < |slots|
    modifies root, nodes
    ensures top > 0 && AtHole(root, slots', dirs, top - 1, p, target, nodes - {target.item})
    ensures pTarget == target.item && pTarget.child == Kids(null, null)
  {
    TrailReady(root, slots, dirs, top, p, target, q, nodes);
    TrailSlots(root, slots, dirs, top, p, target, q, nodes);
    BeforeSwap(root, slots, dirs, top, p, target, q, nodes);
    slots', pTarget := SwapAndPatch(root, slots, dirs, top, ppTarget, idx, p, target, q, nodes);
  }

  method SwapAndPatch(root: RootVar, slots: seq<Slot>, dirs: seq<Dir>, top: nat, ppTarget: Slot, idx: nat,
                      ghost p: NodePath, ghost target: NodeTree, ghost q: NodePath, ghost nodes: set<AvlTreeNode>)
    returns (slots': seq<Slot>, pTarget: AvlTreeNode)
    requires target.Node? && ppTarget == SlotFor(root, p) && idx == Depth(p) + 1 < |slots|
    requires SwapReady(ppTarget, LastSlot(root, p, target, q), target.item, LastNode(target, q),
                       Untouched(p, target, q)).Sound?
    requires SlotsReady(root, slots, dirs, top, p, target, q, nodes)
    requires Primed(root, p, target, q) && Apart(root, slots, dirs, top, p, target, q, nodes).Sound?
    modifies root, nodes
    ensures top > 0 && AtHole(root, slots', dirs, top - 1, p, target, nodes - {target.item})
    ensures pTarget == target.item && pTarget.child == Kids(null, null)
  {
    var ppThis := slots[top - 1];
    var n := dirs[top - 1];
    pTarget := ppTarget.Read();
    var pNode := ppThis.Read();
    SwapOutAt(root, ppTarget, ppThis, n, pTarget, pNode, p, target, q);
    slots' := slots[idx := ChildSlot(pNode, 1 - n)];
    AfterSwap(root, slots, dirs, top, p, target, q, nodes, idx, slots');
  }

  lemma RemovalReaches(root: RootVar, slots: seq<Slot>, dirs: seq<Dir>, top: nat, p: NodePath, target: NodeTree,
                       nodes: set<AvlTreeNode>, k: int, tree: NodeTree)
    requires target.Node? && AtHole(root, slots, dirs, top, p, target, nodes)
    requires Avl(tree) && Descend(Top, tree, k) == Spot(p, target)
    ensures var h := Hole(p, target);
            && Shrinking(root, slots, dirs, top, false, h.path, h.tree, Height(h.tree), AvlSpec.Remove(tree, k))
            && PathItems(h.path) + Items(h.tree) == nodes
  {
    SpotAvl(tree, k);
    HoleShrunk(p, target, Height(target));
  }

  /** Take the target out and rebalance: the part both removals share. */
  method TakeOut(root: RootVar, slots: seq<Slot>, dirs: seq<Dir>, top: nat, ppTarget: Slot, idx: nat,
                 ghost p: NodePath, ghost target: NodeTree, ghost q: NodePath, ghost k: int, ghost tree: NodeTree)
    returns (pTarget: AvlTreeNode)
    requires target.Node? && Trail(root, slots, dirs, top, p, target, q, Items(tree))
    requires ppTarget == SlotFor(root, p) && idx == Depth(p) + 1 < |slots|
    requires Avl(tree) && Descend(Top, tree, k) == Spot(p, target)
    modifies root, Items(tree)
    ensures Rep(root.node, AvlSpec.Remove(tree, k)).Sound?
            && Items(AvlSpec.Remove(tree, k)) == Items(tree) - {target.item}
    ensures pTarget == target.item && pTarget.child == Kids(null, null)
  {
    ghost var nodes := Items(tree);
    var slots';
    slots', pTarget := ReplaceTarget(root, slots, dirs, top, ppTarget, idx, p, target, q, nodes);
    RemovalReaches(root, slots', dirs, top - 1, p, target, nodes - {target.item}, k, tree);
    ghost var h := Hole(p, target);
    assert pTarget !in PathItems(h.path) + Items(h.tree);
    RebalanceShrunk(root, slots', dirs, top - 1, h.path, h.tree, Height(h.tree), AvlSpec.Remove(tree, k));
  }

  /** The state of Remove(1)'s only loop: before the match it searches, after it digs. */
  ghost predicate Hunting(root: RootVar, slots: seq<Slot>, dirs: seq<Dir>, top: nat, ppThis: Slot,
                          ppTarget: Option<Slot>,
                          idx: nat, p: NodePath, target: NodeTree, q: NodePath, t: NodeTree, k: int, tree: NodeTree)
    reads root, PathItems(p), Items(t), if target.Node? then PathItems(Append(DigBase(p, target), q)) else {}
  {
    && (ppTarget.None? ==> target.Leaf? && Searching(root, slots, dirs, top, ppThis, p, t, k, tree).Sound?)
    && (ppTarget.Some? ==>
          && target.Node? && ppTarget.value == SlotFor(root, p) && idx == Depth(p) + 1
          && Digging(root, slots, dirs, top, ppThis, p, target, q, t, k, tree))
  }

  lemma HuntFits(root: RootVar, slots: seq<Slot>, dirs: seq<Dir>, top: nat, ppThis: Slot, ppTarget: Option<Slot>,
                 idx: nat, p: NodePath, target: NodeTree, q: NodePath, t: NodeTree, k: int, tree: NodeTree)
    requires Hunting(root, slots, dirs, top, ppThis, ppTarget, idx, p, target, q, t, k, tree)
    requires RemovalFits(tree, k) && t.Node?
    ensures top < TREE_MAX_HEIGHT == |slots| == |dirs| && (ppTarget.Some? ==> t.key < k)
  {
    if ppTarget.None? {
      DescendDeepens(p, t, k);
    }
  }

  /** One iteration of the loop. */
  method HuntStep(root: RootVar, slots: seq<Slot>, dirs: seq<Dir>, top: nat, ppThis: Slot, ppTarget: Option<Slot>,
                  idx: nat,
                  k: int, ghost p: NodePath, ghost target: NodeTree, ghost q: NodePath, ghost t: NodeTree,
                  ghost tree: NodeTree)
    returns (slots': seq<Slot>, dirs': seq<Dir>, ppThis': Slot, ppTarget': Option<Slot>, idx': nat,
             ghost p': NodePath, ghost target': NodeTree, ghost q': NodePath, ghost t': NodeTree)
    requires Hunting(root, slots, dirs, top, ppThis, ppTarget, idx, p, target, q, t, k, tree)
    requires RemovalFits(tree, k) && Ordered(tree)
    requires t.Node? && ppThis.Read() == t.item && t.item.key == t.key
    ensures Hunting(root, slots', dirs', top + 1, ppThis', ppTarget', idx', p', target', q', t', k, tree)
    ensures t' < t && ppThis'.Read() == Ptr(t') && (t'.Node? ==> t'.item.key == t'.key)
  {
    HuntFits(root, slots, dirs, top, ppThis, ppTarget, idx, p, target, q, t, k, tree);
    var pThis := ppThis.Read();
    var n := pThis.CompareTo(k);
    ppTarget', idx' := ppTarget, idx;
    p', target', q' := p, target, q;
    if n == 0 {
      SearchFinds(root, slots, dirs, top, ppThis, p, t, k, tree);
      ppTarget', idx' := Some(ppThis), top + 1;
      target', q' := t, Top;
    } else if ppTarget.None? {
      SearchGoesDown(root, slots, dirs, top, ppThis, p, t, k, tree, DirOf(n));
      p' := Step(p, t.item, t.key, t.state, DirOf(n), Kid(t, 1 - DirOf(n)));
    } else {
      DigDeeper(root, slots, dirs, top, ppThis, p, target, q, t, k, tree);
      q' := Step(q, t.item, t.key, t.state, RIGHT, t.left);
    }
    var dir := DirOf(n);
    slots', dirs' := slots[top := ppThis], dirs[top := dir];
    ppThis' := ChildSlot(pThis, dir);
    t' := Kid(t, dir);
  }

  lemma HuntEnds(root: RootVar, slots: seq<Slot>, dirs: seq<Dir>, top: nat, ppThis: Slot,
                 p: NodePath, target: NodeTree, q: NodePath, k: int, tree: NodeTree)
    requires target.Node? && Digging(root, slots, dirs, top, ppThis, p, target, q, Leaf, k, tree)
    ensures Trail(root, slots, dirs, top, p, target, q, Items(tree))
    ensures Descend(Top, tree, k) == Spot(p, target) && |slots| == TREE_MAX_HEIGHT
    ensures SlotFor(root, p).ChildSlot? || SlotFor(root, p).root == root
  {
  }

  /** What a removal hands back: the node with the key, or null. */
  ghost function Match(tree: NodeTree, k: int): AvlTreeNode? {
    Ptr(Descend(Top, tree, k).tree)
  }

  /** Remove(1): search for the node and its predecessor, take it out, rebalance. */
  method Remove(self: AvlTreeNode, k: int, ghost tree: NodeTree) returns (pRoot: AvlTreeNode?, pRemoved: AvlTreeNode?)
    requires Rep(self, tree).Sound? && Avl(tree) && Ordered(tree) && RemovalFits(tree, k)
    modifies Items(tree)
    ensures Rep(pRoot, AvlSpec.Remove(tree, k)).Sound?
    ensures Items(AvlSpec.Remove(tree, k)) == Items(tree) - {pRemoved}
    ensures pRemoved == Match(tree, k) && (pRemoved != null ==> pRemoved.child == Kids(null, null))
  {
    ghost var cells := Want(tree);
    assert Holds(cells);
    var root := new RootVar(self);
    assert Holds(cells);
    var ppThis := RootSlot(root);
    var slots := seq(TREE_MAX_HEIGHT, _ => RootSlot(root));
    var dirs: seq<Dir> := seq(TREE_MAX_HEIGHT, _ => LEFT);
    var nStackTop: nat := 0;
    var ppTarget: Option<Slot> := None;
    var idx: nat := 0;
    ghost var p, target, q, t := Top, Leaf, Top, tree;
    SearchStarts(root, slots, dirs, k, tree);
    while ppThis.Read() != null
      invariant Hunting(root, slots, dirs, nStackTop, ppThis, ppTarget, idx, p, target, q, t, k, tree)
      invariant ppThis.Read() == Ptr(t) && (t.Node? ==> t.item.key == t.key)
      modifies {}
      decreases t
    {
      slots, dirs, ppThis, ppTarget, idx, p, target, q, t :=
        HuntStep(root, slots, dirs, nStackTop, ppThis, ppTarget, idx, k, p, target, q, t, tree);
      nStackTop := nStackTop + 1;
    }
    if ppTarget.None? {
      SearchSees(root, slots, dirs, nStackTop, ppThis, p, t, k, tree);
      return root.node, null;
    }
    HuntEnds(root, slots, dirs, nStackTop, ppThis, p, target, q, k, tree);
    pRemoved := TakeOut(root, slots, dirs, nStackTop, ppTarget.value, idx, p, target, q, k, tree);
    pRoot := root.node;
  }

  // ----- Two-phase operations -----

  datatype ProbeResult = FOUND | NOT_FOUND | FULL

  /** Whether the stacks keep the search for `k` in `tree`, which is linked below
      `root`.  FULL means that TREE_MAX_HEIGHT nodes were passed without a match. */
  ghost function ProbeState(root: RootVar, slots: seq<Slot>, dirs: seq<Dir>, top: nat, result: ProbeResult,
                            k: int, tree: NodeTree): Status
    reads root, Items(tree), PathItems(Descend(Top, tree, k).path), Items(Descend(Top, tree, k).tree)
  {
    var s := Descend(Top, tree, k);
    var d := Depth(s.path);
    if
      && Rep(root.node, tree).Sound? && |slots| == |dirs| == TREE_MAX_HEIGHT && 0 < top <= TREE_MAX_HEIGHT
      && result == (if d >= TREE_MAX_HEIGHT then FULL else if s.tree.Node? then FOUND else NOT_FOUND)
      && (result == FULL ==>
            && (slots[top - 1].RootSlot? ==> slots[top - 1].root == root)
            && (slots[top - 1].ChildSlot? ==> slots[top - 1].parent in Items(tree))
            && slots[top - 1].Read() != null)
      && (result != FULL ==>
            && At(root, s.path, s.tree).Sound? && top == d + 1 && slots[d] == SlotFor(root, s.path)
            && StackHolds(slots, dirs, root, s.path) && PathItems(s.path) + Items(s.tree) == Items(tree)
            && (result == FOUND ==> dirs[d] == LEFT))
    then Sound else Broken
  }

  /** A search kept for a later insertion, removal or replacement. */
  class ProbePath {
    const root: RootVar
    var nStackTop: nat
    var slots: seq<Slot>
    var dirs: seq<Dir>
    var result: ProbeResult

    constructor (root: RootVar)
      ensures this.root == root
    {
      this.root := root;
      nStackTop, slots, dirs, result := 0, [], [], FULL;
    }

    ghost function Probed(k: int, tree: NodeTree): Status
      reads this, root, Items(tree), PathItems(Descend(Top, tree, k).path), Items(Descend(Top, tree, k).tree)
    {
      ProbeState(root, slots, dirs, nStackTop, result, k, tree)
    }

    method Keep(slots: seq<Slot>, dirs: seq<Dir>, nStackTop: nat, result: ProbeResult, ghost k: int,
                ghost tree: NodeTree)
      requires ProbeState(root, slots, dirs, nStackTop, result, k, tree).Sound?
      modifies this
      ensures Probed(k, tree).Sound? && this.result == result
    {
      this.slots, this.dirs, this.nStackTop, this.result := slots, dirs, nStackTop, result;
    }

    /** The node found, or null. */
    method Access(ghost k: int, ghost tree: NodeTree) returns (node: AvlTreeNode?)
      requires Probed(k, tree).Sound?
      ensures node == if result == FOUND then Match(tree, k) else null
    {
      if result == FOUND {
        SlotReads(root, Descend(Top, tree, k).path, Descend(Top, tree, k).tree);
        node := slots[nStackTop - 1].Read();
      } else {
        node := null;
      }
    }
  }

  /** An entry above the top does not disturb the ones below. */
  lemma {:induction false} PushKeeps(root: RootVar, slots: seq<Slot>, dirs: seq<Dir>, top: nat, ppThis: Slot, dir: Dir,
                  p: NodePath, t: NodeTree, k: int, tree: NodeTree)
    requires Searching(root, slots, dirs, top, ppThis, p, t, k, tree).Sound? && top < TREE_MAX_HEIGHT
    ensures Searching(root, slots[top := ppThis], dirs[top := dir], top, ppThis, p, t, k, tree).Sound?
    ensures Searching(root, slots[top := ppThis], dirs, top, ppThis, p, t, k, tree).Sound?
  {
    StackAgrees(slots, dirs, slots[top := ppThis], dirs[top := dir], root, p);
    StackAgrees(slots, dirs, slots[top := ppThis], dirs, root, p);
  }

  /** The search loop of Probe, which pushes each node before looking at the result. */
  method ProbeLoop(root: RootVar, k: int, ghost tree: NodeTree)
    returns (r: ProbeResult, slots: seq<Slot>, dirs: seq<Dir>, nStackTop: nat)
    requires Rep(root.node, tree).Sound?
    ensures ProbeState(root, slots, dirs, nStackTop, r, k, tree).Sound?
  {
    var ppThis := RootSlot(root);
    slots := seq(TREE_MAX_HEIGHT, _ => RootSlot(root));
    dirs := seq(TREE_MAX_HEIGHT, _ => LEFT);
    nStackTop := 0;
    ghost var p, t := Top, tree;
    SearchStarts(root, slots, dirs, k, tree);
    while ppThis.Read() != null
      invariant Searching(root, slots, dirs, nStackTop, ppThis, p, t, k, tree).Sound?
      invariant ppThis.Read() == Ptr(t) && (t.Node? ==> t.item.key == t.key)
      invariant nStackTop < TREE_MAX_HEIGHT
      decreases t
    {
      var pThis := ppThis.Read();
      var n := pThis.CompareTo(k);
      var dir := DirOf(n);
      PushKeeps(root, slots, dirs, nStackTop, ppThis, dir, p, t, k, tree);
      if n != 0 {
        SearchGoesDown(root, slots, dirs, nStackTop, ppThis, p, t, k, tree, dir);
      }
      slots, dirs, nStackTop := slots[nStackTop := ppThis], dirs[nStackTop := dir], nStackTop + 1;
      if n == 0 {
        ProbeStops(root, slots, dirs, nStackTop, ppThis, p, t, k, tree, FOUND);
        return FOUND, slots, dirs, nStackTop;
      }
      if nStackTop >= TREE_MAX_HEIGHT {
        ProbeStops(root, slots, dirs, nStackTop, ppThis, p, t, k, tree, FULL);
        return FULL, slots, dirs, nStackTop;
      }
      ppThis := ChildSlot(pThis, dir);
      p, t := Step(p, t.item, t.key, t.state, dir, Kid(t, 1 - dir)), Kid(t, dir);
    }
    PushKeeps(root, slots, dirs, nStackTop, ppThis, LEFT, p, t, k, tree);
    slots := slots[nStackTop := ppThis];
    nStackTop := nStackTop + 1;
    r := NOT_FOUND;
    ProbeStops(root, slots, dirs, nStackTop, ppThis, p, t, k, tree, r);
  }

  lemma ProbeStops(root: RootVar, slots: seq<Slot>, dirs: seq<Dir>, top: nat, ppThis: Slot,
                   p: NodePath, t: NodeTree, k: int, tree: NodeTree, r: ProbeResult)
    requires 0 < top <= TREE_MAX_HEIGHT && Searching(root, slots, dirs, top - 1, ppThis, p, t, k, tree).Sound?
    requires slots[top - 1] == ppThis
    requires match r
             case FOUND => t.Node? && t.key == k && dirs[top - 1] == LEFT
             case NOT_FOUND => t.Leaf?
             case FULL => t.Node? && t.key != k && top == TREE_MAX_HEIGHT
    ensures ProbeState(root, slots, dirs, top, r, k, tree).Sound?
  {
    SearchSees(root, slots, dirs, top - 1, ppThis, p, t, k, tree);
    DescendDeepens(p, t, k);
  }

  /** Probe: search and keep the path. */
  method Probe(self: AvlTreeNode, k: int, path: ProbePath, ghost tree: NodeTree) returns (r: ProbeResult)
    requires Rep(self, tree).Sound?
    modifies path, path.root
    ensures path.Probed(k, tree).Sound? && r == path.result
  {
    ghost var cells := Want(tree);
    assert Holds(cells);
    path.root.node := self;
    assert Holds(cells);
    var slots, dirs, nStackTop;
    r, slots, dirs, nStackTop := ProbeLoop(path.root, k, tree);
    path.Keep(slots, dirs, nStackTop, r, k, tree);
  }

  /** Insert(2): hang the node in the slot the probe ended at, and rebalance. */
  method InsertAt(path: ProbePath, pInsert: AvlTreeNode, ghost tree: NodeTree)
    returns (pRoot: AvlTreeNode?, ghost rotations: nat)
    requires path.Probed(pInsert.key, tree).Sound? && Avl(tree)
    requires pInsert !in Items(tree) && pInsert.state == BALANCED && pInsert.child == Kids(null, null)
    modifies path.root, Items(tree), pInsert
    ensures Rep(pRoot, if path.result == NOT_FOUND then AvlSpec.Insert(tree, pInsert, pInsert.key) else tree).Sound?
    ensures path.result != FULL ==> Rep(pRoot, AvlSpec.Insert(tree, pInsert, pInsert.key)).Sound?
    ensures rotations <= 1
  {
    var ppThis := path.slots[path.nStackTop - 1];
    ghost var s := Descend(Top, tree, pInsert.key);
    if path.result != FULL {
      SlotReads(path.root, s.path, s.tree);
    }
    if ppThis.Read() != null {
      return path.root.node, 0;
    }
    ProbeSearched(path.root, path.slots, path.dirs, path.nStackTop, pInsert.key, tree);
    rotations := HangAndRebalance(path.root, path.slots, path.dirs, path.nStackTop - 1, ppThis, pInsert, s.path, tree);
    pRoot := path.root.node;
  }

  /** Probe and then Insert(2): what Insert(1) does, but for an absent key below
      TREE_MAX_HEIGHT nodes, which only Insert(1) takes. */
  method ProbeThenInsert(self: AvlTreeNode, pInsert: AvlTreeNode, path: ProbePath, ghost tree: NodeTree)
    returns (pRoot: AvlTreeNode?)
    requires Rep(self, tree).Sound? && Avl(tree)
    requires pInsert !in Items(tree) && pInsert.state == BALANCED && pInsert.child == Kids(null, null)
    modifies path, path.root, Items(tree), pInsert
    ensures var d := Depth(Descend(Top, tree, pInsert.key).path);
            Rep(pRoot, if d == TREE_MAX_HEIGHT then tree else AvlSpec.Insert(tree, pInsert, pInsert.key)).Sound?
    ensures Height(tree) < TREE_MAX_HEIGHT ==> Rep(pRoot, AvlSpec.Insert(tree, pInsert, pInsert.key)).Sound?
  {
    if Height(tree) < TREE_MAX_HEIGHT {
      LowTreesNeverFull(tree, pInsert.key);
    }
    ghost var cells := Want(tree);
    assert Holds(cells);
    var r := Probe(self, pInsert.key, path, tree);
    ghost var rotations;
    pRoot, rotations := InsertAt(path, pInsert, tree);
  }

  lemma ProbeSearched(root: RootVar, slots: seq<Slot>, dirs: seq<Dir>, top: nat, k: int, tree: NodeTree)
    requires ProbeState(root, slots, dirs, top, NOT_FOUND, k, tree).Sound?
    ensures var s := Descend(Top, tree, k);
            s.tree.Leaf? && Searching(root, slots, dirs, top - 1, slots[top - 1], s.path, Leaf, k, tree).Sound?
  {
    DescendPlugs(Top, tree, k);
    DescendTwice(Top, tree, k);
  }

  lemma {:induction false} DescendPlugs(p: NodePath, t: NodeTree, k: int)
    ensures Plug(Descend(p, t, k).path, Descend(p, t, k).tree) == Plug(p, t)
    decreases t
  {
    match t
    case Leaf =>
    case Node(l, x, key, s, r) =>
      if key < k {
        DescendPlugs(Step(p, x, key, s, RIGHT, l), r, k);
      } else if key > k {
        DescendPlugs(Step(p, x, key, s, LEFT, r), l, k);
      }
  }

  lemma {:induction false} DescendTwice(p: NodePath, t: NodeTree, k: int)
    ensures var s := Descend(p, t, k); Descend(s.path, s.tree, k) == s && (s.tree.Node? ==> s.tree.key == k)
    decreases t
  {
    match t
    case Leaf =>
    case Node(l, x, key, s, r) =>
      if key < k {
        DescendTwice(Step(p, x, key, s, RIGHT, l), r, k);
      } else if key > k {
        DescendTwice(Step(p, x, key, s, LEFT, r), l, k);
      }
  }

  /** The left side of a node at the end of the path. */
  lemma LeftOf(root: RootVar, p: NodePath, t: NodeTree)
    requires At(root, p, t).Sound? && t.Node?
    ensures t.item.child.left == Ptr(t.left) && (t.left.Node? ==> t.left.item.key == t.left.key)
    ensures At(root, DigBase(p, t), t.left).Sound? && SlotFor(root, DigBase(p, t)) == ChildSlot(t.item, LEFT)
  {
    DescendStep(root, p, t, LEFT);
    SlotReads(root, DigBase(p, t), t.left);
  }

  lemma ProbeFound(root: RootVar, slots: seq<Slot>, dirs: seq<Dir>, top: nat, k: int, tree: NodeTree)
    requires ProbeState(root, slots, dirs, top, FOUND, k, tree).Sound?
    ensures var s := Descend(Top, tree, k);
            && s.tree.Node? && slots[top - 1] == SlotFor(root, s.path) && slots[top - 1].Read() == s.tree.item
            && dirs[top - 1] == LEFT && top == Depth(s.path) + 1 && At(root, s.path, s.tree).Sound?
            && |slots| == |dirs| == TREE_MAX_HEIGHT && StackHolds(slots, dirs, root, DigBase(s.path, s.tree))
            && PathItems(s.path) + Items(s.tree) == Items(tree)
  {
    SlotReads(root, Descend(Top, tree, k).path, Descend(Top, tree, k).tree);
  }

  lemma ProbeDigs(root: RootVar, slots: seq<Slot>, dirs: seq<Dir>, top: nat, k: int, tree: NodeTree)
    requires ProbeState(root, slots, dirs, top, FOUND, k, tree).Sound? && Ordered(tree)
    ensures var s := Descend(Top, tree, k);
            && s.tree.Node? && slots[top - 1] == SlotFor(root, s.path) && slots[top - 1].Read() == s.tree.item
            && dirs[top - 1] == LEFT && top == Depth(s.path) + 1
            && s.tree.item.child.left == Ptr(s.tree.left)
            && (s.tree.left.Node? ==> s.tree.left.item.key == s.tree.left.key)
            && Digging(root, slots, dirs, top, ChildSlot(s.tree.item, LEFT), s.path, s.tree, Top, s.tree.left, k, tree)
  {
    var s := Descend(Top, tree, k);
    ProbeFound(root, slots, dirs, top, k, tree);
    LeftOf(root, s.path, s.tree);
    PushIsPure(s.path, s.tree, k, LEFT);
    DescendSplits(Top, tree, k);
  }

  /** One step down below the target, in a search that fits its stacks. */
  lemma DigOn(root: RootVar, slots: seq<Slot>, dirs: seq<Dir>, top: nat, ppThis: Slot,
              p: NodePath, target: NodeTree, q: NodePath, u: NodeTree, k: int, tree: NodeTree)
    requires target.Node? && u.Node? && RemovalFits(tree, k)
    requires Digging(root, slots, dirs, top, ppThis, p, target, q, u, k, tree)
    ensures u.key < k && top < |slots| == |dirs|
    ensures Digging(root, slots[top := ppThis], dirs[top := RIGHT], top + 1, ChildSlot(u.item, RIGHT),
                    p, target, Step(q, u.item, u.key, u.state, RIGHT, u.left), u.right, k, tree)
    ensures u.item.child.right == Ptr(u.right) && (u.right.Node? ==> u.right.item.key == u.right.key)
  {
    DigSees(root, slots, dirs, top, ppThis, p, target, q, u, k, tree);
    DigDeeper(root, slots, dirs, top, ppThis, p, target, q, u, k, tree);
  }

  /** Follow the comparisons below the target down to an empty slot. */
  method FindLast(root: RootVar, slots: seq<Slot>, dirs: seq<Dir>, top: nat, slot: Slot, k: int,
                  ghost p: NodePath, ghost target: NodeTree, ghost tree: NodeTree)
    returns (slots': seq<Slot>, dirs': seq<Dir>, nStackTop: nat, ppThis: Slot, ghost q: NodePath)
    requires target.Node? && Digging(root, slots, dirs, top, slot, p, target, Top, target.left, k, tree)
    requires slot.Read() == Ptr(target.left) && (target.left.Node? ==> target.left.item.key == target.left.key)
    requires RemovalFits(tree, k)
    ensures Digging(root, slots', dirs', nStackTop, ppThis, p, target, q, Leaf, k, tree)
  {
    slots', dirs', nStackTop, ppThis := slots, dirs, top, slot;
    q := Top;
    ghost var t := target.left;
    while ppThis.Read() != null
      invariant Digging(root, slots', dirs', nStackTop, ppThis, p, target, q, t, k, tree)
      invariant ppThis.Read() == Ptr(t) && (t.Node? ==> t.item.key == t.key)
      decreases t
    {
      DigOn(root, slots', dirs', nStackTop, ppThis, p, target, q, t, k, tree);
      var pThis := ppThis.Read();
      var n := DirOf(pThis.CompareTo(k));
      slots', dirs', nStackTop := slots'[nStackTop := ppThis], dirs'[nStackTop := n], nStackTop + 1;
      ppThis := ChildSlot(pThis, n);
      q, t := Step(q, t.item, t.key, t.state, RIGHT, t.left), t.right;
    }
  }

  /** Remove(2): go on from the node the probe found to its predecessor, take the
      node out, rebalance. */
  method RemoveAt(path: ProbePath, k: int, ghost tree: NodeTree) returns (pRoot: AvlTreeNode?, pRemoved: AvlTreeNode?)
    requires path.Probed(k, tree).Sound? && path.result != FULL && Avl(tree) && Ordered(tree) && RemovalFits(tree, k)
    modifies path.root, Items(tree)
    ensures Rep(pRoot, AvlSpec.Remove(tree, k)).Sound?
    ensures Items(AvlSpec.Remove(tree, k)) == Items(tree) - {pRemoved}
    ensures pRemoved == Match(tree, k) && (pRemoved != null ==> pRemoved.child == Kids(null, null))
  {
    ghost var s := Descend(Top, tree, k);
    SlotReads(path.root, s.path, s.tree);
    var ppTarget := path.slots[path.nStackTop - 1];
    if ppTarget.Read() == null {
      return path.root.node, null;
    }
    ProbeDigs(path.root, path.slots, path.dirs, path.nStackTop, k, tree);
    var ppThis := ChildSlot(ppTarget.Read(), path.dirs[path.nStackTop - 1]);
    var slots, dirs, nStackTop, last, q :=
      FindLast(path.root, path.slots, path.dirs, path.nStackTop, ppThis, k, s.path, s.tree, tree);
    HuntEnds(path.root, slots, dirs, nStackTop, last, s.path, s.tree, q, k, tree);
    pRemoved := TakeOut(path.root, slots, dirs, nStackTop, ppTarget, path.nStackTop, s.path, s.tree, q, k, tree);
    pRoot := path.root.node;
  }

  /** Probe and then Remove(2): what Remove(1) does. */
  method ProbeThenRemove(self: AvlTreeNode, k: int, path: ProbePath, ghost tree: NodeTree)
    returns (pRoot: AvlTreeNode?, pRemoved: AvlTreeNode?)
    requires Rep(self, tree).Sound? && Avl(tree) && Ordered(tree) && Height(tree) < TREE_MAX_HEIGHT
    modifies path, path.root, Items(tree)
    ensures Rep(pRoot, AvlSpec.Remove(tree, k)).Sound?
    ensures Items(AvlSpec.Remove(tree, k)) == Items(tree) - {pRemoved}
    ensures pRemoved == Match(tree, k) && (pRemoved != null ==> pRemoved.child == Kids(null, null))
  {
    LowTreesNeverFull(tree, k);
    ghost var cells := Want(tree);
    assert Holds(cells);
    var r := Probe(self, k, path, tree);
    pRoot, pRemoved := RemoveAt(path, k, tree);
  }

  // ----- Replacement -----

  lemma PathAdds(p: NodePath, below: set<AvlTreeNode>, less: set<AvlTreeNode>, y: AvlTreeNode)
    requires PathDistinct(p, below) && less <= below && y !in PathItems(p)
    ensures PathDistinct(p, less + {y})
  {
    PathDistinctLess(p, below, less);
    PathTakes(p, less, y);
  }

  /** The place before and after the node at the end of `p` is exchanged for `y`. */
  lemma BeforeReplace(root: RootVar, p: NodePath, t: NodeTree, y: AvlTreeNode)
    requires At(root, p, t).Sound? && t.Node? && y !in PathItems(p) && y !in Items(t)
    ensures PathDistinct(p, Items(t.left) + Items(t.right) + {y}) && PathKeysMatch(p)
    ensures root.node == First(p, t.item) && Holds(PathRest(p)) && OwnerHolds(p, t.item)
    ensures t.item !in PathRest(p) && y !in PathRest(p) && SlotFor(root, p).Read() == t.item
    ensures SlotFor(root, p).ChildSlot? ==>
              SlotFor(root, p).parent in PathItems(p) && SlotFor(root, p).parent !in PathRest(p)
              && SlotFor(root, p).parent !in Items(t)
  {
    SlotReads(root, p, t);
    LeadsEnd(root.node, p, t.item, Items(t));
    PathSets(p, Items(t));
    PathAdds(p, Items(t), Items(t.left) + Items(t.right), y);
  }

  lemma AfterReplace(root: RootVar, p: NodePath, t: NodeTree, y: AvlTreeNode)
    requires t.Node? && y.key == t.key && y !in Items(t)
    requires PathDistinct(p, Items(t.left) + Items(t.right) + {y}) && PathKeysMatch(p)
    requires root.node == First(p, y) && Holds(PathRest(p)) && OwnerHolds(p, y)
    requires y.state == t.state && Rep(y.child.left, t.left).Sound? && Rep(y.child.right, t.right).Sound?
    requires Items(t.left) !! Items(t.right)
    ensures At(root, p, t.(item := y)).Sound?
  {
    RepJoin(y, LEFT, t.left, t.right);
    assert Items(t.left) + Items(t.right) + {y} == Items(t.(item := y));
    LeadsEnd(root.node, p, y, Items(t.left) + Items(t.right) + {y});
  }

  /** Put `y` in the place of the node at the root of the subtree at `p`. */
  method ReplaceNode(root: RootVar, slot: Slot, y: AvlTreeNode, ghost p: NodePath, ghost t: NodeTree)
    returns (pReturn: AvlTreeNode)
    requires At(root, p, t).Sound? && t.Node? && slot == SlotFor(root, p)
    requires y.key == t.key && y !in PathItems(p) && y !in Items(t)
    modifies root, PathItems(p), t.item, y
    ensures pReturn == t.item && pReturn.child == Kids(null, null) && pReturn.state == BALANCED
    ensures At(root, p, t.(item := y)).Sound?
  {
    RepKids(t.item, t, LEFT);
    BeforeReplace(root, p, t, y);
    ghost var rest := {PathRest(p), Want(t.left), Want(t.right)};
    ExchangeReady(slot, t.item, y, PathRest(p), Want(t.left), Want(t.right));
    pReturn := slot.Read();
    Exchange(slot, pReturn, y, rest);
    assert PathRest(p) in rest && Want(t.left) in rest && Want(t.right) in rest;
    AfterReplace(root, p, t, y);
  }

  /** Nothing the exchange of `x` for `y` in the slot writes belongs to the rest. */
  ghost predicate Exchangeable(slot: Slot, x: AvlTreeNode, y: AvlTreeNode, rest: set<Cells>)
    reads set m, z | m in rest && z in m :: z
  {
    && x != y && slot.Outside({x, y})
    && forall m :: m in rest ==> Holds(m) && x !in m && y !in m && slot.Outside(m.Keys)
  }

  lemma ExchangeReady(slot: Slot, x: AvlTreeNode, y: AvlTreeNode, rp: Cells, l: Cells, r: Cells)
    requires x != y && slot.Outside({x, y}) && Holds(rp) && Holds(l) && Holds(r)
    requires x !in rp && x !in l && x !in r && y !in rp && y !in l && y !in r
    requires slot.Outside(rp.Keys) && slot.Outside(l.Keys) && slot.Outside(r.Keys)
    ensures Exchangeable(slot, x, y, {rp, l, r})
  {
  }

  /** Make the slot point to `y`, which takes over what `x` holds. */
  method Exchange(slot: Slot, x: AvlTreeNode, y: AvlTreeNode, ghost rest: set<Cells>)
    requires Exchangeable(slot, x, y, rest)
    modifies x, y, if slot.RootSlot? then {slot.root} else {}, if slot.ChildSlot? then {slot.parent} else {}
    ensures slot.Read() == y && slot.OthersUnchanged()
    ensures y.child == old(x.child) && y.state == old(x.state) && x.child == Kids(null, null) && x.state == BALANCED
    ensures forall m :: m in rest ==> Holds(m)
  {
    slot.Write(y, rest);
    SwapContents(x, y, rest);
  }

  /** Move the links and the state from `x` to `y`, and leave `x` detached. */
  method SwapContents(x: AvlTreeNode, y: AvlTreeNode, ghost rest: set<Cells>)
    requires x != y && forall m :: m in rest ==> Holds(m) && x !in m && y !in m
    modifies x, y
    ensures y.child == old(x.child) && y.state == old(x.state) && x.child == Kids(null, null) && x.state == BALANCED
    ensures forall m :: m in rest ==> Holds(m)
  {
    y.child := y.child.With(LEFT, x.child.left);
    y.child := y.child.With(RIGHT, x.child.right);
    y.state := x.state;
    x.child := Kids(null, null);
    x.state := BALANCED;
  }

  /** The found position as a replacement needs it. */
  lemma ReplaceReaches(root: RootVar, p: NodePath, t: NodeTree, y: AvlTreeNode, k: int, tree: NodeTree)
    requires t.Node? && Descend(Top, tree, k) == Spot(p, t) && At(root, p, t.(item := y)).Sound?
    ensures Rep(root.node, AvlSpec.Replace(tree, k, y)).Sound?
  {
    PlugAt(root, p, t.(item := y));
  }

  /** Replace(1): search, then put the new node in the place of the match. */
  method Replace(self: AvlTreeNode, k: int, pReplace: AvlTreeNode, ghost tree: NodeTree)
    returns (pRoot: AvlTreeNode?, pReturn: AvlTreeNode)
    requires Rep(self, tree).Sound? && Ordered(tree)
    requires pReplace.key == k && (pReplace in Items(tree) ==> pReplace == Match(tree, k))
    modifies Items(tree), pReplace
    ensures Rep(pRoot, AvlSpec.Replace(tree, k, pReplace)).Sound?
    ensures pReturn == if Match(tree, k) != null then Match(tree, k) else pReplace
    ensures pReturn != pReplace ==> pReturn.child == Kids(null, null) && pReturn.state == BALANCED
  {
    ghost var cells := Want(tree);
    assert Holds(cells);
    var root := new RootVar(self);
    assert Holds(cells);
    var ppThis, p, t := Seek(root, k, tree);
    if ppThis.Read() == null {
      SeekMisses(root, ppThis, p, t, k, tree);
      return root.node, pReplace;
    }
    if pReplace == ppThis.Read() {
      SeekFinds(root, ppThis, p, t, k, tree);
      return root.node, pReplace;
    }
    pReturn := ReplaceFound(root, ppThis, pReplace, k, p, t, tree);
    pRoot := root.node;
  }

  /** The search loop of Replace(1): stop at the match or at an empty slot. */
  method Seek(root: RootVar, k: int, ghost tree: NodeTree) returns (ppThis: Slot, ghost p: NodePath, ghost t: NodeTree)
    requires Rep(root.node, tree).Sound?
    ensures Seeking(root, ppThis, p, t, k, tree) && ppThis.Read() == Ptr(t) && (t.Node? ==> t.key == k)
  {
    ppThis := RootSlot(root);
    p, t := Top, tree;
    while ppThis.Read() != null
      invariant Seeking(root, ppThis, p, t, k, tree)
      invariant ppThis.Read() == Ptr(t) && (t.Node? ==> t.item.key == t.key)
      decreases t
    {
      var pThis := ppThis.Read();
      var n := pThis.CompareTo(k);
      if n == 0 {
        return;
      }
      SeekGoesDown(root, ppThis, p, t, k, tree, DirOf(n));
      ppThis := ChildSlot(pThis, DirOf(n));
      p, t := Step(p, t.item, t.key, t.state, DirOf(n), Kid(t, 1 - DirOf(n))), Kid(t, DirOf(n));
    }
  }

  /** The state of a search that keeps no stack. */
  ghost predicate Seeking(root: RootVar, ppThis: Slot, p: NodePath, t: NodeTree, k: int, tree: NodeTree)
    reads root, PathItems(p), Items(t)
  {
    && At(root, p, t).Sound? && ppThis == SlotFor(root, p) && Plug(p, t) == tree
    && Descend(p, t, k) == Descend(Top, tree, k) && PathItems(p) + Items(t) == Items(tree)
  }

  lemma {:induction false} SeekGoesDown(root: RootVar, ppThis: Slot, p: NodePath, t: NodeTree, k: int, tree: NodeTree,
                                        n: Dir)
    requires Seeking(root, ppThis, p, t, k, tree) && t.Node?
    requires t.key != k && n == (if t.key < k then RIGHT else LEFT)
    ensures Seeking(root, ChildSlot(t.item, n), Step(p, t.item, t.key, t.state, n, Kid(t, 1 - n)), Kid(t, n), k, tree)
    ensures t.item.child.At(n) == Ptr(Kid(t, n)) && (Kid(t, n).Node? ==> Kid(t, n).item.key == Kid(t, n).key)
  {
    DescendStep(root, p, t, n);
    PushIsPure(p, t, k, n);
    SlotReads(root, Step(p, t.item, t.key, t.state, n, Kid(t, 1 - n)), Kid(t, n));
  }

  lemma SeekFinds(root: RootVar, ppThis: Slot, p: NodePath, t: NodeTree, k: int, tree: NodeTree)
    requires Seeking(root, ppThis, p, t, k, tree) && t.Node? && t.key == k
    ensures Match(tree, k) == t.item && Rep(root.node, AvlSpec.Replace(tree, k, t.item)).Sound?
  {
    PlugAt(root, p, t);
    assert t.(item := t.item) == t;
  }

  lemma SeekMisses(root: RootVar, ppThis: Slot, p: NodePath, t: NodeTree, k: int, tree: NodeTree)
    requires Seeking(root, ppThis, p, t, k, tree) && t.Leaf?
    ensures Match(tree, k) == null && Rep(root.node, tree).Sound?
  {
    PlugAt(root, p, t);
  }

  method ReplaceFound(root: RootVar, ppThis: Slot, pReplace: AvlTreeNode, k: int,
                      ghost p: NodePath, ghost t: NodeTree, ghost tree: NodeTree)
    returns (pReturn: AvlTreeNode)
    requires Seeking(root, ppThis, p, t, k, tree) && t.Node? && t.key == k
    requires pReplace.key == k && pReplace !in Items(tree)
    modifies root, Items(tree), pReplace
    ensures pReturn == t.item == Match(tree, k) && pReturn.child == Kids(null, null) && pReturn.state == BALANCED
    ensures Rep(root.node, AvlSpec.Replace(tree, k, pReplace)).Sound?
  {
    SeekFinds(root, ppThis, p, t, k, tree);
    pReturn := ReplaceNode(root, ppThis, pReplace, p, t);
    ReplaceReaches(root, p, t, pReplace, k, tree);
  }

  /** Replace(2): put the new node in the place of the one the probe found. */
  method ReplaceAt(path: ProbePath, k: int, pReplace: AvlTreeNode, ghost tree: NodeTree)
    returns (pRoot: AvlTreeNode?, pReturn: AvlTreeNode)
    requires path.Probed(k, tree).Sound? && path.result != FULL
    requires pReplace.key == k && (pReplace in Items(tree) ==> pReplace == Match(tree, k))
    modifies path.root, Items(tree), pReplace
    ensures Rep(pRoot, AvlSpec.Replace(tree, k, pReplace)).Sound?
    ensures pReturn == if Match(tree, k) != null then Match(tree, k) else pReplace
    ensures pReturn != pReplace ==> pReturn.child == Kids(null, null) && pReturn.state == BALANCED
  {
    ghost var s := Descend(Top, tree, k);
    SlotReads(path.root, s.path, s.tree);
    DescendPlugs(Top, tree, k);
    DescendTwice(Top, tree, k);
    var ppThis := path.slots[path.nStackTop - 1];
    ghost var cells := Want(tree);
    assert Holds(cells) && Seeking(path.root, ppThis, s.path, s.tree, k, tree);
    if ppThis.Read() == null {
      return path.root.node, pReplace;
    }
    if pReplace == ppThis.Read() {
      SeekFinds(path.root, ppThis, s.path, s.tree, k, tree);
      return path.root.node, pReplace;
    }
    pReturn := ReplaceFound(path.root, ppThis, pReplace, k, s.path, s.tree, tree);
    return path.root.node, pReturn;
  }
}
