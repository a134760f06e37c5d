/** The pointer work of avl_tree_del_by_key: finding the node that takes the deleted node's
    place, unhooking it and moving it up. */
module AvlSplice {
  import opened AvlHeap
  import opened AvlPath
  import opened AvlSpec

  /** The greatest node below start, the path down to it, and the subtree it tops. */
  method FindGreatest(start: AvlNode, ghost l: Shape, ghost end: AvlNode?)
    returns (temp: AvlNode, ghost d: Path<AvlNode>, ghost s: Shape)
    requires l.Node? && l.elem == start && Placed(Root, l, end)
    ensures temp == Greatest(l).elem
    ensures s.Node? && s.elem == temp && s.right.Leaf? && Placed(d, s, end)
    ensures PathRepr(d) + Repr(s) == Repr(l) && Summit(d, temp) == start
    ensures Greatest(l) == Entry(s.key, temp) && Resume(d, s.left) == DropGreatest(l)
    ensures if l.right.Leaf? then d == Root && s == l else d.FromRight?
  {
    temp := start;
    d, s := Root, l;
    while temp.rightChild != null
      invariant s.Node? && s.elem == temp && Placed(d, s, end)
      invariant PathRepr(d) + Repr(s) == Repr(l) && Summit(d, temp) == start
      invariant Greatest(s) == Greatest(l) && Resume(d, DropGreatest(s)) == DropGreatest(l)
      invariant if d.Root? then s == l else l.right.Node? && d.FromRight?
      decreases s
    {
      DescendRight(d, s, end);
      temp := temp.rightChild;
      d, s := FromRight(d, s.left, s.key, s.elem), s.right;
    }
  }

  method FindLeast(start: AvlNode, ghost r: Shape, ghost end: AvlNode?)
    returns (temp: AvlNode, ghost d: Path<AvlNode>, ghost s: Shape)
    requires r.Node? && r.elem == start && Placed(Root, r, end)
    ensures temp == Least(r).elem
    ensures s.Node? && s.elem == temp && s.left.Leaf? && Placed(d, s, end)
    ensures PathRepr(d) + Repr(s) == Repr(r) && Summit(d, temp) == start
    ensures Least(r) == Entry(s.key, temp) && Resume(d, s.right) == DropLeast(r)
    ensures if r.left.Leaf? then d == Root && s == r else d.FromLeft?
  {
    temp := start;
    d, s := Root, r;
    while temp.leftChild != null
      invariant s.Node? && s.elem == temp && Placed(d, s, end)
      invariant PathRepr(d) + Repr(s) == Repr(r) && Summit(d, temp) == start
      invariant Least(s) == Least(r) && Resume(d, DropLeast(s)) == DropLeast(r)
      invariant if d.Root? then s == r else r.left.Node? && d.FromLeft?
      decreases s
    {
      DescendLeft(d, s, end);
      temp := temp.leftChild;
      d, s := FromLeft(d, s.key, s.elem, s.right), s.left;
    }
  }

  ghost function NodeSet(n: AvlNode?): set<AvlNode> {
    if n == null then {} else {n}
  }

  /** The right side, the parent and the depth of the node that moves up, from those of the deleted node. */
  method SettleRight(node: AvlNode, temp: AvlNode, ghost r: Shape)
    requires Linked(r) && node.rightChild == Top(r) && temp != node && temp !in Repr(r) && node !in Repr(r)
    requires temp.leftChild != temp
    modifies temp, NodeSet(node.rightChild)`parent
    ensures Linked(r) && temp.rightChild == Top(r) && (r.Node? ==> r.elem.parent == temp)
    ensures temp.parent == node.parent && temp.leftChild == old(temp.leftChild) && temp.depth == HeightOf(temp)
  {
    ReprAllocated(r);
    temp.rightChild := node.rightChild;
    if temp.rightChild != null {
      temp.rightChild.parent := temp;
    }
    temp.parent := node.parent;
    temp.depth := HeightOf(temp);
    Kept(r);
  }

  /** The same on the left; here the code writes the parent field twice. */
  method SettleLeft(node: AvlNode, temp: AvlNode, ghost l: Shape)
    requires Linked(l) && node.leftChild == Top(l) && temp != node && temp !in Repr(l) && node !in Repr(l)
    requires temp.rightChild != temp
    modifies temp, NodeSet(node.leftChild)`parent
    ensures Linked(l) && temp.leftChild == Top(l) && (l.Node? ==> l.elem.parent == temp)
    ensures temp.parent == node.parent && temp.rightChild == old(temp.rightChild) && temp.depth == HeightOf(temp)
  {
    ReprAllocated(l);
    temp.parent := node.parent;
    temp.leftChild := node.leftChild;
    if temp.leftChild != null {
      temp.leftChild.parent := temp;
    }
    temp.parent := node.parent;
    temp.depth := HeightOf(temp);
    Kept(l);
  }

  /** Close the gap the greatest node leaves: its left subtree takes its place. */
  method UnhookGreatest(temp: AvlNode, ghost d: Path<AvlNode>, ghost s: Shape, ghost end: AvlNode?)
    requires s.Node? && s.elem == temp && s.right.Leaf? && d.FromRight? && Placed(d, s, end)
    modifies PathRepr(d), Repr(s) - {temp}
    ensures Placed(d, s.left, end)
  {
    PathAllocated(d);
    ReprAllocated(s);
    assert temp !in Repr(s.left) && Linked(s.left);
    temp.parent.rightChild := temp.leftChild;
    if temp.leftChild != null {
      temp.leftChild.parent := temp.parent;
    }
    Kept(s.left);
    assert Linked(d.left) && LinkedPath(d.up, d.elem, end);
  }

  method UnhookLeast(temp: AvlNode, ghost d: Path<AvlNode>, ghost s: Shape, ghost end: AvlNode?)
    requires s.Node? && s.elem == temp && s.left.Leaf? && d.FromLeft? && Placed(d, s, end)
    modifies PathRepr(d), Repr(s) - {temp}
    ensures Placed(d, s.right, end)
  {
    PathAllocated(d);
    ReprAllocated(s);
    assert temp !in Repr(s.right) && Linked(s.right);
    temp.parent.leftChild := temp.rightChild;
    if temp.rightChild != null {
      temp.rightChild.parent := temp.parent;
    }
    Kept(s.right);
    assert Linked(d.right) && LinkedPath(d.up, d.elem, end);
  }

  /** `temp->leftChild = node->leftChild; temp->leftChild->parent = temp` */
  method AdoptLeft(node: AvlNode, temp: AvlNode, ghost d: Path<AvlNode>, ghost q: Shape)
    requires !d.Root? && LinkedPath(d, Top(q), node) && node.leftChild == Summit(d, Top(q)) && node.leftChild != null
    requires temp != node && temp !in PathRepr(d)
    modifies temp`leftChild, node.leftChild`parent
    ensures LinkedPath(d, Top(q), temp) && temp.leftChild == node.leftChild
  {
    PathAllocated(d);
    SummitOnPath(d, Top(q));
    temp.leftChild := node.leftChild;
    temp.leftChild.parent := temp;
    PathRehung(Strand(d, Top(q), node), temp);
  }

  method AdoptRight(node: AvlNode, temp: AvlNode, ghost d: Path<AvlNode>, ghost q: Shape)
    requires !d.Root? && LinkedPath(d, Top(q), node) && node.rightChild == Summit(d, Top(q)) && node.rightChild != null
    requires temp != node && temp !in PathRepr(d)
    modifies temp`rightChild, node.rightChild`parent
    ensures LinkedPath(d, Top(q), temp) && temp.rightChild == node.rightChild
  {
    PathAllocated(d);
    SummitOnPath(d, Top(q));
    temp.rightChild := node.rightChild;
    temp.rightChild.parent := temp;
    PathRehung(Strand(d, Top(q), node), temp);
  }

  /** The unhooked node takes both sides of the deleted one, the left below the path d. */
  method AdoptSides(node: AvlNode, temp: AvlNode, ghost d: Path<AvlNode>, ghost q: Shape, ghost r: Shape)
    requires !d.Root? && LinkedPath(d, Top(q), node) && node.leftChild == Summit(d, Top(q)) && node.leftChild != null
    requires Linked(q) && Linked(r) && node.rightChild == Top(r) && PathRepr(d) !! Repr(q) !! Repr(r)
    requires temp != node && temp !in PathRepr(d) + Repr(q) + Repr(r) && node !in PathRepr(d) + Repr(q) + Repr(r)
    modifies temp, node.leftChild`parent, NodeSet(node.rightChild)`parent
    ensures LinkedPath(d, Top(q), temp) && temp.leftChild == old(node.leftChild) && Linked(q) && Linked(r)
    ensures temp.rightChild == Top(r) && (r.Node? ==> r.elem.parent == temp)
    ensures temp.parent == old(node.parent) && temp.depth == HeightOf(temp)
  {
    PathAllocated(d);
    ReprAllocated(q);
    ReprAllocated(r);
    SummitOnPath(d, Top(q));
    AdoptLeft(node, temp, d, q);
    assert Linked(q) && Linked(r);
    SettleRight(node, temp, r);
    assert Linked(q) && LinkedPath(d, Top(q), temp);
  }

  /** The same with the path d on the right. */
  method AdoptSidesMirrored(node: AvlNode, temp: AvlNode, ghost d: Path<AvlNode>, ghost q: Shape, ghost l: Shape)
    requires !d.Root? && LinkedPath(d, Top(q), node) && node.rightChild == Summit(d, Top(q)) && node.rightChild != null
    requires Linked(q) && Linked(l) && node.leftChild == Top(l) && PathRepr(d) !! Repr(q) !! Repr(l)
    requires temp != node && temp !in PathRepr(d) + Repr(q) + Repr(l) && node !in PathRepr(d) + Repr(q) + Repr(l)
    modifies temp, node.rightChild`parent, NodeSet(node.leftChild)`parent
    ensures LinkedPath(d, Top(q), temp) && temp.rightChild == old(node.rightChild) && Linked(q) && Linked(l)
    ensures temp.leftChild == Top(l) && (l.Node? ==> l.elem.parent == temp)
    ensures temp.parent == old(node.parent) && temp.depth == HeightOf(temp)
  {
    PathAllocated(d);
    ReprAllocated(q);
    ReprAllocated(l);
    SummitOnPath(d, Top(q));
    AdoptRight(node, temp, d, q);
    assert Linked(q) && Linked(l);
    SettleLeft(node, temp, l);
    assert Linked(q) && LinkedPath(d, Top(q), temp);
  }

  /** The greatest node of the left subtree, deeper than its top, is unhooked and moved up. */
  method SpliceGreatest(node: AvlNode, temp: AvlNode, ghost t: Shape, ghost d: Path<AvlNode>, ghost s: Shape)
    requires t.Node? && t.elem == node && Linked(t) && t.left.Node?
    requires s.Node? && s.elem == temp && s.right.Leaf? && d.FromRight? && Placed(d, s, node)
    requires PathRepr(d) + Repr(s) == Repr(t.left) && Summit(d, temp) == t.left.elem
    modifies Repr(t) - {node}
    ensures Placed(Over(d, FromLeft(Root, s.key, temp, t.right)), s.left, node.parent)
  {
    ghost var b := FromLeft(Root, s.key, temp, t.right);
    ghost var q := s.left;
    PathAllocated(d);
    ReprAllocated(t);
    SummitOnPath(d, temp);
    assert s.key == temp.key && temp !in PathRepr(d) && temp !in Repr(q) && temp !in Repr(t.right);
    UnhookGreatest(temp, d, s, node);
    assert Linked(t.right);
    AdoptSides(node, temp, d, q, t.right);
    assert Joint(b, Summit(d, Top(q)), node.parent);
    JoinPaths(d, b, Top(q), node.parent);
  }

  method SpliceLeast(node: AvlNode, temp: AvlNode, ghost t: Shape, ghost d: Path<AvlNode>, ghost s: Shape)
    requires t.Node? && t.elem == node && Linked(t) && t.right.Node?
    requires s.Node? && s.elem == temp && s.left.Leaf? && d.FromLeft? && Placed(d, s, node)
    requires PathRepr(d) + Repr(s) == Repr(t.right) && Summit(d, temp) == t.right.elem
    modifies Repr(t) - {node}
    ensures Placed(Over(d, FromRight(Root, t.left, s.key, temp)), s.right, node.parent)
  {
    ghost var b := FromRight(Root, t.left, s.key, temp);
    ghost var q := s.right;
    PathAllocated(d);
    ReprAllocated(t);
    SummitOnPath(d, temp);
    assert s.key == temp.key && temp !in PathRepr(d) && temp !in Repr(q) && temp !in Repr(t.left);
    UnhookLeast(temp, d, s, node);
    assert Linked(t.left);
    AdoptSidesMirrored(node, temp, d, q, t.left);
    assert Joint(b, Summit(d, Top(q)), node.parent);
    JoinPaths(d, b, Top(q), node.parent);
  }

  /** A direct left child without right subtree moves up into the place of its parent. */
  method MoveUpLeft(node: AvlNode, temp: AvlNode, ghost t: Shape)
    requires t.Node? && t.elem == node && Linked(t) && t.left.Node? && t.left.elem == temp && t.left.right.Leaf?
    modifies Repr(t) - {node}
    ensures Placed(Root, Node(t.left.left, t.left.key, temp, t.right), node.parent)
  {
    ghost var l := t.left;
    ReprAllocated(t);
    assert Wired(l) && Linked(l.left) && Repr(l) == {temp} + Repr(l.left);
    SettleRight(node, temp, t.right);
    assert Linked(l.left);
    HeightOfHub(Node(l.left, l.key, temp, t.right));
  }

  method MoveUpRight(node: AvlNode, temp: AvlNode, ghost t: Shape)
    requires t.Node? && t.elem == node && Linked(t) && t.right.Node? && t.right.elem == temp && t.right.left.Leaf?
    modifies Repr(t) - {node}
    ensures Placed(Root, Node(t.left, t.right.key, temp, t.right.right), node.parent)
  {
    ghost var r := t.right;
    ReprAllocated(t);
    assert Wired(r) && Linked(r.right) && Repr(r) == {temp} + Repr(r.right);
    SettleLeft(node, temp, t.left);
    assert Linked(r.right);
    HeightOfHub(Node(t.left, r.key, temp, r.right));
  }

  /** The left side is taller: its greatest node takes the place of `node`.  The walk up will start at p. */
  method TakeFromLeft(node: AvlNode, ghost t: Shape)
    returns (temp: AvlNode, p: AvlNode?, ghost e: Path<AvlNode>, ghost q: Shape)
    requires t.Node? && t.elem == node && Linked(t) && t.left.Node? && Height(t.left) > Height(t.right)
    modifies Repr(t) - {node}
    ensures Placed(e, q, node.parent) && Summit(e, Top(q)) == temp && p == Above(e, node.parent)
    ensures PathRepr(e) + Repr(q) <= Repr(t) - {node} && Resume(e, q) == DeleteTop(t)
  {
    ghost var d, s;
    ReprAllocated(t);
    temp, d, s := FindGreatest(node.leftChild, t.left, node);
    p := node.parent;
    if temp != node.leftChild {
      p := temp.parent;
      SpliceGreatest(node, temp, t, d, s);
      ghost var b := FromLeft(Root, s.key, temp, t.right);
      e, q := Over(d, b), s.left;
      OverFacts(d, b, q);
    } else {
      MoveUpLeft(node, temp, t);
      e, q := Root, Node(t.left.left, t.left.key, temp, t.right);
    }
  }

  method TakeFromRight(node: AvlNode, ghost t: Shape)
    returns (temp: AvlNode, p: AvlNode?, ghost e: Path<AvlNode>, ghost q: Shape)
    requires t.Node? && t.elem == node && Linked(t) && t.right.Node? && Height(t.left) <= Height(t.right)
    modifies Repr(t) - {node}
    ensures Placed(e, q, node.parent) && Summit(e, Top(q)) == temp && p == Above(e, node.parent)
    ensures PathRepr(e) + Repr(q) <= Repr(t) - {node} && Resume(e, q) == DeleteTop(t)
  {
    ghost var d, s;
    ReprAllocated(t);
    temp, d, s := FindLeast(node.rightChild, t.right, node);
    p := node.parent;
    if temp != node.rightChild {
      p := temp.parent;
      SpliceLeast(node, temp, t, d, s);
      ghost var b := FromRight(Root, t.left, s.key, temp);
      e, q := Over(d, b), s.right;
      OverFacts(d, b, q);
    } else {
      MoveUpRight(node, temp, t);
      e, q := Root, Node(t.left, t.right.key, temp, t.right.right);
    }
  }

  /** The parent of the deleted node, if there is one, points at the replacement instead. */
  method ReplaceChild(node: AvlNode, temp: AvlNode?, ghost c: Path<AvlNode>)
    requires LinkedPath(c, node, null) && node !in PathRepr(c) && node.parent == Above(c, null)
    modifies PathRepr(c)
    ensures LinkedPath(c, temp, null)
  {
    PathAllocated(c);
    if node.parent != null {
      if node == node.parent.leftChild {
        node.parent.leftChild := temp;
      } else if node == node.parent.rightChild {
        node.parent.rightChild := temp;
      }
      assert Linked(Sibling(c)) && LinkedPath(c.up, c.elem, null);
    }
  }

  lemma {:induction false} OverFacts(d: Path<AvlNode>, b: Path<AvlNode>, q: Shape)
    ensures PathRepr(Over(d, b)) == PathRepr(d) + PathRepr(b)
    ensures Summit(Over(d, b), Top(q)) == Summit(b, Summit(d, Top(q)))
    ensures Resume(Over(d, b), q) == Resume(b, Resume(d, q))
  {
    ResumeOver(d, b, q);
    OverRepr(d, b, Top(q));
  }

  lemma {:induction false} OverRepr(d: Path<AvlNode>, b: Path<AvlNode>, top: AvlNode?)
    ensures PathRepr(Over(d, b)) == PathRepr(d) + PathRepr(b)
    ensures Summit(Over(d, b), top) == Summit(b, Summit(d, top))
    decreases d
  {
    if !d.Root? { OverRepr(d.up, b, d.elem); }
  }
}
