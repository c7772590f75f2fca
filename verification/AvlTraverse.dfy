/** InitTraverse and Traverse: in-order iteration with a stack of pending left spines. */
module AvlTraverse {
  import opened Common
  import opened AvlSpec
  import opened AvlTheorems
  import opened AvlTree

  type Todo = List<NodeTree>

  class TraversePath {
    var nStackTop: nat
    var nodes: seq<AvlTreeNode?>

    constructor ()
      ensures nStackTop == 0 && |nodes| == TREE_MAX_HEIGHT
    {
      nStackTop := 0;
      nodes := seq(TREE_MAX_HEIGHT, _ => null);
    }
  }

  /** The entries still to be visited: every stacked node, each followed by its right
      subtree, the top of the stack first. */
  ghost function Pending(todo: Todo): List<Entry<AvlTreeNode>> {
    match todo
    case Nil => Nil
    case Cons(t, rest) => if t.Leaf? then Pending(rest) else Cons(Entry(t.item, t.key), Flat(t.right, Pending(rest)))
  }

  /** `t` is linked as the cells `m` say. */
  ghost predicate Linked(t: NodeTree, m: Cells) {
    t.Node? ==>
      && t.item.key == t.key && t.item in m && m[t.item].child == Kids(Ptr(t.left), Ptr(t.right))
      && Linked(t.left, m) && Linked(t.right, m)
  }

  lemma {:induction false} WantLinks(t: NodeTree, m: Cells)
    requires Distinct(t) && KeysMatch(t)
    requires forall x :: x in Want(t) ==> x in m && m[x] == Want(t)[x]
    ensures Linked(t, m)
    decreases t
  {
    if t.Node? {
      var w := Want(t);
      assert w[t.item] == Cell(t.state, Kids(Ptr(t.left), Ptr(t.right)));
      assert forall x :: x in Want(t.left) ==> x in w && w[x] == Want(t.left)[x];
      assert forall x :: x in Want(t.right) ==> x in w && w[x] == Want(t.right)[x];
      WantLinks(t.left, m);
      WantLinks(t.right, m);
    }
  }

  /** The first `n` entries of the stack are the roots of the pending trees, and
      pushing any left spine of them stays within the stack. */
  ghost predicate Stacked(nodes: seq<AvlTreeNode?>, n: int, todo: Todo, m: Cells)
    decreases todo
  {
    match todo
    case Nil => n == 0
    case Cons(t, rest) =>
      && 0 < n <= |nodes| && t.Node? && nodes[n - 1] == t.item && Linked(t, m)
      && n - 1 + Height(t) <= |nodes| && Stacked(nodes, n - 1, rest, m)
  }

  lemma {:induction false} StackedAgrees(nodes: seq<AvlTreeNode?>, nodes': seq<AvlTreeNode?>, n: int, todo: Todo,
                                         m: Cells)
    requires Stacked(nodes, n, todo, m) && |nodes'| == |nodes|
    requires forall i :: 0 <= i < n && i < |nodes| ==> nodes'[i] == nodes[i]
    ensures Stacked(nodes', n, todo, m)
    decreases todo
  {
    if todo.Cons? {
      StackedAgrees(nodes, nodes', n - 1, todo.tail, m);
    }
  }

  /** Push a node and its left descendants. */
  method PushLeft(nodes: seq<AvlTreeNode?>, n: nat, node: AvlTreeNode?, ghost t: NodeTree, ghost todo: Todo,
                  ghost m: Cells)
    returns (nodes': seq<AvlTreeNode?>, n': nat, ghost todo': Todo)
    requires Holds(m) && Stacked(nodes, n, todo, m)
    requires node == Ptr(t) && Linked(t, m) && n + Height(t) <= |nodes|
    ensures Stacked(nodes', n', todo', m) && |nodes'| == |nodes| && Holds(m)
    ensures Pending(todo') == Flat(t, Pending(todo))
  {
    var pNode := node;
    nodes', n', todo' := nodes, n, todo;
    ghost var u := t;
    while pNode != null
      invariant Stacked(nodes', n', todo', m) && pNode == Ptr(u) && Linked(u, m)
      invariant n' + Height(u) <= |nodes'| == |nodes|
      invariant Flat(u, Pending(todo')) == Flat(t, Pending(todo))
      decreases u
    {
      StackedAgrees(nodes', nodes'[n' := pNode], n', todo', m);
      nodes', n', todo' := nodes'[n' := pNode], n' + 1, Cons(u, todo');
      pNode := pNode.child.left;
      u := u.left;
    }
  }

  method Keep(path: TraversePath, nodes: seq<AvlTreeNode?>, n: nat, ghost m: Cells)
    requires Holds(m)
    modifies path
    ensures path.nodes == nodes && path.nStackTop == n && Holds(m)
  {
    path.nodes, path.nStackTop := nodes, n;
  }

  /** InitTraverse: push the left spine of the tree. */
  method InitTraverse(self: AvlTreeNode, path: TraversePath, ghost tree: NodeTree) returns (ghost todo: Todo)
    requires Rep(self, tree).Sound? && Height(tree) <= TREE_MAX_HEIGHT && |path.nodes| == TREE_MAX_HEIGHT
    modifies path
    ensures |path.nodes| == TREE_MAX_HEIGHT && Stacked(path.nodes, path.nStackTop, todo, Want(tree))
    ensures Pending(todo) == InOrder(tree) && Holds(Want(tree))
  {
    WantLinks(tree, Want(tree));
    ghost var m := Want(tree);
    var nodes, n;
    nodes, n, todo := PushLeft(path.nodes, 0, self, tree, Nil, m);
    Keep(path, nodes, n, m);
  }

  /** Traverse: hand back the next node in order and push the left spine to its right;
      null when nothing is pending. */
  method Traverse(path: TraversePath, ghost todo: Todo, ghost m: Cells) returns (pRet: AvlTreeNode?, ghost todo': Todo)
    requires |path.nodes| == TREE_MAX_HEIGHT && Stacked(path.nodes, path.nStackTop, todo, m) && Holds(m)
    modifies path
    ensures |path.nodes| == TREE_MAX_HEIGHT && Stacked(path.nodes, path.nStackTop, todo', m) && Holds(m)
    ensures match Pending(todo)
            case Nil => pRet == null && todo' == todo
            case Cons(e, rest) => pRet == e.item && e.item.key == e.key && Pending(todo') == rest
  {
    if path.nStackTop <= 0 {
      return null, todo;
    }
    var top := path.nStackTop - 1;
    var pNode := path.nodes[top];
    ghost var t := todo.head;
    var nodes, n;
    nodes, n, todo' := PushLeft(path.nodes, top, pNode.child.right, t.right, todo.tail, m);
    pRet := pNode;
    Keep(path, nodes, n, m);
  }

  /** The entries of the nodes visited, then `rest`. */
  ghost function AsList(s: seq<AvlTreeNode>, rest: List<Entry<AvlTreeNode>>): List<Entry<AvlTreeNode>> {
    if s == [] then rest else Cons(Entry(s[0], s[0].key), AsList(s[1..], rest))
  }

  lemma {:induction false} AsListAppends(s: seq<AvlTreeNode>, x: AvlTreeNode, rest: List<Entry<AvlTreeNode>>)
    ensures AsList(s + [x], rest) == AsList(s, Cons(Entry(x, x.key), rest))
    decreases |s|
  {
    if s == [] {
      assert (s + [x])[1..] == [];
    } else {
      assert (s + [x])[1..] == s[1..] + [x];
      AsListAppends(s[1..], x, rest);
    }
  }

  lemma {:induction false} SortedVisits(s: seq<AvlTreeNode>)
    requires Sorted(AsList(s, Nil))
    ensures forall i, j :: 0 <= i < j < |s| ==> s[i].key < s[j].key
    decreases |s|
  {
    if s != [] {
      SortedVisits(s[1..]);
      if |s| > 1 {
        assert s[0].key < s[1].key;
        forall j | 0 < j < |s|
          ensures s[0].key < s[j].key
        {
          assert s[1..][0] == s[1] && s[1..][j - 1] == s[j];
        }
        forall i, j | 0 <= i < j < |s|
          ensures s[i].key < s[j].key
        {
          if i > 0 {
            assert s[1..][i - 1] == s[i] && s[1..][j - 1] == s[j];
          }
        }
      }
    }
  }

  /** A whole traversal hands back exactly the in-order sequence, in increasing key
      order, and then null. */
  method TraverseAll(self: AvlTreeNode, ghost tree: NodeTree) returns (visited: seq<AvlTreeNode>)
    requires Rep(self, tree).Sound? && Height(tree) <= TREE_MAX_HEIGHT && Ordered(tree)
    ensures AsList(visited, Nil) == InOrder(tree)
    ensures forall i, j :: 0 <= i < j < |visited| ==> visited[i].key < visited[j].key
  {
    ghost var m := Want(tree);
    assert Holds(m);
    var path := new TraversePath();
    assert Holds(m);
    ghost var todo := InitTraverse(self, path, tree);
    visited := [];
    var pNode: AvlTreeNode?;
    pNode, todo := Traverse(path, todo, m);
    ghost var left := InOrder(tree);
    while pNode != null
      invariant |path.nodes| == TREE_MAX_HEIGHT && Stacked(path.nodes, path.nStackTop, todo, m) && Holds(m)
      invariant left.Cons? <==> pNode != null
      invariant left.Cons? ==> left == Cons(Entry(pNode, pNode.key), Pending(todo))
      invariant AsList(visited, left) == InOrder(tree)
      decreases Length(left)
    {
      AsListAppends(visited, pNode, Pending(todo));
      visited := visited + [pNode];
      left := Pending(todo);
      pNode, todo := Traverse(path, todo, m);
    }
    SortedVisits(visited);
  }
}
