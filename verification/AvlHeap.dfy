/** The pointer code of lib/data_struct/src/avltree.c: nodes with parent links and cached
    depths, rotated and spliced in place.  A ghost tree of AvlSpec, whose payloads are the
    nodes themselves, says what the heap holds. */
module AvlHeap {
  import opened AvlPath
  import opened AvlSpec

  class AvlNode {
    var parent: AvlNode?
    var leftChild: AvlNode?
    var rightChild: AvlNode?
    var depth: int
    const key: int
    const element: nat  // the element pointer

    constructor (key: int, element: nat)
      ensures this.key == key && this.element == element
    {
      this.key, this.element := key, element;
      parent, leftChild, rightChild := null, null, null;
      depth := 0;
    }
  }

  type Shape = Tree<AvlNode>

  function Top(t: Shape): AvlNode? {
    if t.Leaf? then null else t.elem
  }

  ghost function Repr(t: Shape): set<AvlNode> {
    match t
    case Leaf => {}
    case Node(l, _, n, r) => {n} + Repr(l) + Repr(r)
  }

  /** The node at the top of t and the tops of its subtrees point at each other, and the subtrees share no node. */
  ghost predicate Wired(t: Shape)
    requires t.Node?
    reads Repr(t)
  {
    var l, n, r := t.left, t.elem, t.right;
    n.key == t.key && n.leftChild == Top(l) && n.rightChild == Top(r) &&
    (l.Node? ==> l.elem.parent == n) && (r.Node? ==> r.elem.parent == n) &&
    n !in Repr(l) && n !in Repr(r) && Repr(l) !! Repr(r)
  }

  /** The heap holds t: every link in both directions, every key, and every depth the true height.
      Only the parent field of the top node is left open. */
  ghost predicate Linked(t: Shape)
    reads Repr(t)
  {
    t.Leaf? || (t.elem.depth == Height(t) && Wired(t) && Linked(t.left) && Linked(t.right))
  }

  /** Linked but for the depth field of the top node. */
  ghost predicate Hub(t: Shape)
    requires t.Node?
    reads Repr(t)
  {
    Wired(t) && Linked(t.left) && Linked(t.right)
  }

  /** HEIGHT: one more than the greater depth field of the two children. */
  function HeightOf(n: AvlNode?): int
    reads n, if n == null then {} else {n.leftChild, n.rightChild}
  {
    if n == null then 0
    else
      var dl := if n.leftChild != null then n.leftChild.depth else 0;
      var dr := if n.rightChild != null then n.rightChild.depth else 0;
      1 + if dl > dr then dl else dr
  }

  /** HEIGHT of the top of a linked tree is the height of the tree. */
  lemma HeightIsExact(t: Shape)
    requires Linked(t)
    ensures HeightOf(Top(t)) == Height(t)
  {
  }

  lemma HeightOfHub(t: Shape)
    requires t.Node? && Hub(t)
    ensures HeightOf(t.elem) == Height(t)
  {
  }

  lemma ReprAllocated(t: Shape)
    ensures forall n :: n in Repr(t) ==> allocated(n)
  {
  }

  /** Linked looks at every field of a tree's nodes except the parent field of the top one. */
  twostate lemma Kept(t: Shape)
    requires old(Linked(t))
    requires forall n :: n in Repr(t) ==> old(allocated(n))
    requires forall n :: n in Repr(t) ==> n.leftChild == old(n.leftChild) && n.rightChild == old(n.rightChild) &&
                                          n.depth == old(n.depth) && (n != Top(t) ==> n.parent == old(n.parent))
    ensures Linked(t)
  {
    if t.Node? {
      Kept(t.left);
      Kept(t.right);
    }
  }

  /** `node->depth = HEIGHT(node)` */
  method UpdateDepth(node: AvlNode, ghost t: Shape)
    requires t.Node? && t.elem == node && Hub(t)
    modifies node`depth
    ensures Linked(t)
  {
    HeightOfHub(t);
    node.depth := HeightOf(node);
    assert Linked(t.left) && Linked(t.right);
  }

  /** The two depth updates at the end of a rotation, the lowered node first. */
  method UpdateDepths(node: AvlNode, temp: AvlNode, ghost low: Shape, ghost high: Shape)
    requires low.Node? && low.elem == node && Hub(low)
    requires high.Node? && high.elem == temp && Wired(high)
    requires (high.left == low && Linked(high.right)) || (high.right == low && Linked(high.left))
    modifies node`depth, temp`depth
    ensures Linked(high)
  {
    ghost var other := if high.left == low then high.right else high.left;
    ReprAllocated(other);
    assert node in Repr(low) && node !in Repr(other);
    UpdateDepth(node, low);
    assert Linked(other);
    assert Wired(high);
    UpdateDepth(temp, high);
  }

  /** The three subtrees that a rotation to the right moves around lie apart from each other and from the two nodes. */
  lemma PartsToTheRight(node: AvlNode, t: Shape)
    requires t.Node? && t.elem == node && Hub(t) && t.left.Node?
    ensures var temp, a, b, c := t.left.elem, t.left.left, t.left.right, t.right;
            Wired(t.left) && Linked(a) && Linked(b) && Linked(c) && Repr(t.left) == {temp} + Repr(a) + Repr(b) &&
            {node, temp} !! Repr(a) !! Repr(b) !! Repr(c)
  {
  }

  lemma PartsToTheLeft(node: AvlNode, t: Shape)
    requires t.Node? && t.elem == node && Hub(t) && t.right.Node?
    ensures var temp, a, b, c := t.right.elem, t.left, t.right.left, t.right.right;
            Wired(t.right) && Linked(a) && Linked(b) && Linked(c) && Repr(t.right) == {temp} + Repr(b) + Repr(c) &&
            {node, temp} !! Repr(a) !! Repr(b) !! Repr(c)
  {
  }

  method RotateRightAt(node: AvlNode, ghost t: Shape) returns (temp: AvlNode)
    requires t.Node? && t.elem == node && Hub(t) && t.left.Node?
    modifies Repr(t)
    ensures Linked(RotateRight(t)) && temp == Top(RotateRight(t)) && temp.parent == old(node.parent)
    ensures Repr(RotateRight(t)) == Repr(t)
  {
    ReprAllocated(t);
    temp := node.leftChild;
    ghost var a, b, c := t.left.left, t.left.right, t.right;
    PartsToTheRight(node, t);
    node.leftChild := temp.rightChild;
    if temp.rightChild != null {
      node.leftChild.parent := node;
    }
    temp.parent := node.parent;
    temp.rightChild := node;
    node.parent := temp;
    Kept(a);
    Kept(b);
    Kept(c);
    ghost var low := Node(b, t.key, node, c);
    assert Hub(low);
    UpdateDepths(node, temp, low, Node(a, t.left.key, temp, low));
  }

  method RotateLeftAt(node: AvlNode, ghost t: Shape) returns (temp: AvlNode)
    requires t.Node? && t.elem == node && Hub(t) && t.right.Node?
    modifies Repr(t)
    ensures Linked(RotateLeft(t)) && temp == Top(RotateLeft(t)) && temp.parent == old(node.parent)
    ensures Repr(RotateLeft(t)) == Repr(t)
  {
    ReprAllocated(t);
    temp := node.rightChild;
    ghost var a, b, c := t.left, t.right.left, t.right.right;
    PartsToTheLeft(node, t);
    node.rightChild := temp.leftChild;
    if temp.leftChild != null {
      node.rightChild.parent := node;
    }
    temp.parent := node.parent;
    temp.leftChild := node;
    node.parent := temp;
    Kept(a);
    Kept(b);
    Kept(c);
    ghost var low := Node(a, t.key, node, b);
    assert Hub(low);
    UpdateDepths(node, temp, low, Node(low, t.right.key, temp, c));
  }

  /** `node->leftChild = rr(node->leftChild); return ll(node)` */
  method RotateLeftRightAt(node: AvlNode, ghost t: Shape) returns (temp: AvlNode)
    requires t.Node? && t.elem == node && Hub(t) && t.left.Node? && t.left.right.Node?
    modifies Repr(t)
    ensures var u := RotateRight(t.(left := RotateLeft(t.left)));
            Linked(u) && temp == Top(u) && temp.parent == old(node.parent) && Repr(u) == Repr(t)
  {
    ReprAllocated(t);
    ghost var u := t.(left := RotateLeft(t.left));
    assert Hub(t.left);
    var l := RotateLeftAt(node.leftChild, t.left);
    node.leftChild := l;
    assert Linked(t.right);
    assert Linked(u.left);
    temp := RotateRightAt(node, u);
  }

  method RotateRightLeftAt(node: AvlNode, ghost t: Shape) returns (temp: AvlNode)
    requires t.Node? && t.elem == node && Hub(t) && t.right.Node? && t.right.left.Node?
    modifies Repr(t)
    ensures var u := RotateLeft(t.(right := RotateRight(t.right)));
            Linked(u) && temp == Top(u) && temp.parent == old(node.parent) && Repr(u) == Repr(t)
  {
    ReprAllocated(t);
    ghost var u := t.(right := RotateRight(t.right));
    assert Hub(t.right);
    var r := RotateRightAt(node.rightChild, t.right);
    node.rightChild := r;
    assert Linked(t.left);
    assert Linked(u.right);
    temp := RotateLeftAt(node, u);
  }

  /** avl_tree_adjust: whatever shape the subtree has, balanced or not, no rotation meets a null child. */
  method AdjustAt(node: AvlNode, ghost t: Shape) returns (top: AvlNode)
    requires t.Node? && t.elem == node && Linked(t)
    modifies Repr(t)
    ensures Linked(Adjust(t)) && top == Top(Adjust(t)) && top.parent == old(node.parent)
    ensures Repr(Adjust(t)) == Repr(t)
  {
    var left, right := node.leftChild, node.rightChild;
    HeightIsExact(t.left);
    HeightIsExact(t.right);
    var diff := HeightOf(left) - HeightOf(right);
    if -2 < diff < 2 { return node; }
    if HeightOf(left) > HeightOf(right) {
      if left == null { return node; }
      HeightIsExact(t.left.left);
      HeightIsExact(t.left.right);
      if HeightOf(left.leftChild) > HeightOf(left.rightChild) {
        top := RotateRightAt(node, t);
      } else {
        top := RotateLeftRightAt(node, t);
      }
    } else {
      if right == null { return node; }
      HeightIsExact(t.right.left);
      HeightIsExact(t.right.right);
      if HeightOf(right.leftChild) > HeightOf(right.rightChild) {
        top := RotateRightLeftAt(node, t);
      } else {
        top := RotateLeftAt(node, t);
      }
    }
  }

  // ----- the path above a subtree -----

  ghost function PathRepr(c: Path<AvlNode>): set<AvlNode> {
    match c
    case Root => {}
    case FromLeft(up, _, n, r) => {n} + Repr(r) + PathRepr(up)
    case FromRight(up, l, _, n) => {n} + Repr(l) + PathRepr(up)
  }

  function Above(c: Path<AvlNode>, end: AvlNode?): AvlNode? {
    if c.Root? then end else c.elem
  }

  function Sibling(c: Path<AvlNode>): Shape
    requires !c.Root?
  {
    if c.FromLeft? then c.right else c.left
  }

  /** The first node of the path points at the subtree below it, at its sibling and at its own parent. */
  ghost predicate Joint(c: Path<AvlNode>, top: AvlNode?, end: AvlNode?)
    requires !c.Root?
    reads PathRepr(c)
  {
    var n, s := c.elem, Sibling(c);
    n.key == c.key && n.parent == Above(c.up, end) &&
    (if c.FromLeft? then n.leftChild == top && n.rightChild == Top(s)
     else n.rightChild == top && n.leftChild == Top(s)) &&
    (s.Node? ==> s.elem.parent == n) &&
    n !in Repr(s) && n !in PathRepr(c.up) && Repr(s) !! PathRepr(c.up)
  }

  /** The heap holds the path c above a subtree topped by `top`; `end` is the parent of its last node.
      Depth fields along the path are left open. */
  ghost predicate LinkedPath(c: Path<AvlNode>, top: AvlNode?, end: AvlNode?)
    reads PathRepr(c)
  {
    c.Root? || (Joint(c, top, end) && Linked(Sibling(c)) && LinkedPath(c.up, c.elem, end))
  }

  /** A subtree in its place: linked, hanging from the path above it, and sharing no node with it. */
  ghost predicate Placed(c: Path<AvlNode>, t: Shape, end: AvlNode?)
    reads PathRepr(c), Repr(t)
  {
    Linked(t) && LinkedPath(c, Top(t), end) && PathRepr(c) !! Repr(t) &&
    (t.Node? ==> t.elem.parent == Above(c, end))
  }

  lemma PathAllocated(c: Path<AvlNode>)
    ensures forall n :: n in PathRepr(c) ==> allocated(n)
  {
    if !c.Root? { ReprAllocated(Sibling(c)); }
  }

  /** A node on the path with the subtree below it filled in is ready to have its depth renewed. */
  lemma FillIsHub(c: Path<AvlNode>, t: Shape)
    requires !c.Root? && Placed(c, t, null)
    ensures Hub(Fill(c, t)) && LinkedPath(c.up, c.elem, null)
    ensures Repr(Fill(c, t)) == {c.elem} + Repr(t) + Repr(Sibling(c))
    ensures PathRepr(c) == {c.elem} + Repr(Sibling(c)) + PathRepr(c.up)
    ensures Repr(Fill(c, t)) !! PathRepr(c.up)
    ensures c.elem.parent == Above(c.up, null)
  {
  }

  /** `q->leftChild = avl_tree_adjust(q->leftChild)`, or the same on the right. */
  method AdjustLeft(q: AvlNode, ghost c: Path<AvlNode>, ghost u: Shape)
    requires c.FromLeft? && q == c.elem && u.Node? && Placed(c, u, null)
    modifies Repr(u), q`leftChild
    ensures Placed(c, Adjust(u), null) && Repr(Adjust(u)) == Repr(u)
  {
    PathAllocated(c);
    assert q !in Repr(u);
    var top := AdjustAt(q.leftChild, u);
    assert Linked(c.right) && LinkedPath(c.up, q, null);
    q.leftChild := top;
    assert Linked(c.right) && LinkedPath(c.up, q, null);
  }

  method AdjustRight(q: AvlNode, ghost c: Path<AvlNode>, ghost u: Shape)
    requires c.FromRight? && q == c.elem && u.Node? && Placed(c, u, null)
    modifies Repr(u), q`rightChild
    ensures Placed(c, Adjust(u), null) && Repr(Adjust(u)) == Repr(u)
  {
    PathAllocated(c);
    assert q !in Repr(u);
    var top := AdjustAt(q.rightChild, u);
    assert Linked(c.left) && LinkedPath(c.up, q, null);
    q.rightChild := top;
    assert Linked(c.left) && LinkedPath(c.up, q, null);
  }

  /** One turn of the walk at a node that is not the root: renew its depth, adjust it, and hang the result
      from its parent on the side it came from. */
  method ClimbOnce(p: AvlNode, ghost c: Path<AvlNode>, ghost t: Shape) returns (q: AvlNode)
    requires !c.Root? && !c.up.Root? && Placed(c, t, null) && p == c.elem
    modifies PathRepr(c), Repr(t)
    ensures Placed(c.up, Adjust(Fill(c, t)), null) && q == c.up.elem
    ensures PathRepr(c.up) + Repr(Adjust(Fill(c, t))) == PathRepr(c) + Repr(t)
  {
    FillIsHub(c, t);
    PathAllocated(c);
    ghost var u := Fill(c, t);
    UpdateDepth(p, u);
    assert LinkedPath(c.up, p, null);
    q := p.parent;
    if p == p.parent.leftChild {
      AdjustLeft(q, c.up, u);
    } else {
      AdjustRight(q, c.up, u);
    }
  }

  /** The last turn of the walk, at the root. */
  method ClimbLast(p: AvlNode, ghost c: Path<AvlNode>, ghost t: Shape) returns (top: AvlNode)
    requires !c.Root? && c.up.Root? && Placed(c, t, null) && p == c.elem
    modifies PathRepr(c), Repr(t)
    ensures Placed(Root, Adjust(Fill(c, t)), null) && top == Top(Adjust(Fill(c, t)))
    ensures Repr(Adjust(Fill(c, t))) == PathRepr(c) + Repr(t)
  {
    FillIsHub(c, t);
    UpdateDepth(p, Fill(c, t));
    top := AdjustAt(p, Fill(c, t));
  }

  /** Stepping down to a child. */
  lemma DescendLeft(c: Path<AvlNode>, t: Shape, end: AvlNode?)
    requires t.Node? && Placed(c, t, end)
    ensures var d := FromLeft(c, t.key, t.elem, t.right);
            Placed(d, t.left, end) && PathRepr(d) + Repr(t.left) == PathRepr(c) + Repr(t)
  {
  }

  lemma DescendRight(c: Path<AvlNode>, t: Shape, end: AvlNode?)
    requires t.Node? && Placed(c, t, end)
    ensures var d := FromRight(c, t.left, t.key, t.elem);
            Placed(d, t.right, end) && PathRepr(d) + Repr(t.right) == PathRepr(c) + Repr(t)
  {
  }

  /** The top of everything on or below the path c over a subtree topped by `top`. */
  function Summit(c: Path<AvlNode>, top: AvlNode?): AvlNode? {
    if c.Root? then top else Summit(c.up, c.elem)
  }

  /** Two linked paths, the lower ending where the upper begins, make one. */
  lemma {:induction false} JoinPaths(d: Path<AvlNode>, c: Path<AvlNode>, top: AvlNode?, end: AvlNode?)
    requires LinkedPath(d, top, Above(c, end)) && LinkedPath(c, Summit(d, top), end)
    requires PathRepr(d) !! PathRepr(c)
    ensures LinkedPath(Over(d, c), top, end) && PathRepr(Over(d, c)) == PathRepr(d) + PathRepr(c)
    ensures Above(Over(d, c), end) == Above(d, Above(c, end))
    ensures Summit(Over(d, c), top) == Summit(c, Summit(d, top))
    decreases d
  {
    if !d.Root? { JoinPaths(d.up, c, d.elem, end); }
  }

  /** A path with the top of the subtree below it and the parent of its last node. */
  datatype Strand = Strand(path: Path<AvlNode>, top: AvlNode?, end: AvlNode?)

  /** LinkedPath with another end: only the parent field of the last node on the path may differ. */
  twostate lemma {:induction false} PathRehung(s: Strand, new newEnd: AvlNode?)
    requires old(LinkedPath(s.path, s.top, s.end))
    requires forall n :: n in PathRepr(s.path) ==> old(allocated(n))
    requires forall n :: n in PathRepr(s.path) ==>
               n.leftChild == old(n.leftChild) && n.rightChild == old(n.rightChild) && n.depth == old(n.depth)
    requires forall n :: n in PathRepr(s.path) && n != Summit(s.path, s.top) ==> n.parent == old(n.parent)
    requires !s.path.Root? ==> Summit(s.path, s.top) != null && Summit(s.path, s.top).parent == newEnd
    ensures LinkedPath(s.path, s.top, newEnd)
    decreases s.path
  {
    var d := s.path;
    if !d.Root? {
      SummitOnPath(d, s.top);
      Kept(Sibling(d));
      PathRehung(Strand(d.up, d.elem, s.end), newEnd);
    }
  }

  lemma SummitOnPath(d: Path<AvlNode>, top: AvlNode?)
    requires !d.Root?
    ensures Summit(d, top) in PathRepr(d) && Summit(d, top) == if d.up.Root? then d.elem else Summit(d.up, d.elem)
    ensures !d.up.Root? ==> Summit(d, top) in PathRepr(d.up)
  {
    if !d.up.Root? { SummitOnPath(d.up, d.elem); }
  }
}
