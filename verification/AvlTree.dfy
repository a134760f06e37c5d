/** avl_tree_add, query_by_key and avl_tree_del_by_key on the heap of AvlHeap, each proved to
    turn the shape of the tree into what AvlSpec says. */
module AvlTree {
  import opened AvlHeap
  import opened AvlPath
  import opened AvlSplice
  import opened AvlSpec

  /** `add_to_left`: the new node becomes the missing left child of p. */
  method AttachLeft(node: AvlNode, p: AvlNode, ghost c: Path<AvlNode>, ghost t: Shape)
    requires t.Node? && t.elem == p && Placed(c, t, null) && t.left.Leaf?
    requires node !in Repr(t) && node !in PathRepr(c)
    modifies p`leftChild, node
    ensures var d, leaf := FromLeft(c, t.key, p, t.right), Node(Leaf, node.key, node, Leaf);
            Placed(d, leaf, null) && PathRepr(d) + Repr(leaf) == PathRepr(c) + Repr(t) + {node}
  {
    PathAllocated(c);
    ReprAllocated(t);
    p.leftChild := node;
    node.parent := p;
    node.leftChild, node.rightChild := null, null;
    node.depth := 1;
    assert Linked(t.right) && LinkedPath(c, p, null);
  }

  method AttachRight(node: AvlNode, p: AvlNode, ghost c: Path<AvlNode>, ghost t: Shape)
    requires t.Node? && t.elem == p && Placed(c, t, null) && t.right.Leaf?
    requires node !in Repr(t) && node !in PathRepr(c)
    modifies p`rightChild, node
    ensures var d, leaf := FromRight(c, t.left, t.key, p), Node(Leaf, node.key, node, Leaf);
            Placed(d, leaf, null) && PathRepr(d) + Repr(leaf) == PathRepr(c) + Repr(t) + {node}
  {
    PathAllocated(c);
    ReprAllocated(t);
    p.rightChild := node;
    node.parent := p;
    node.leftChild, node.rightChild := null, null;
    node.depth := 1;
    assert Linked(t.left) && LinkedPath(c, p, null);
  }

  class AvlTree {
    var root: AvlNode?
    var nodeCount: nat
    ghost var shape: Shape

    /** The heap holds `shape`, a search tree; the counter is right once there is a root
        (creation leaves it unset). */
    ghost predicate Valid()
      reads this, Repr(shape)
    {
      root == Top(shape) && Placed(Root, shape, null) && Sorted(Inorder(shape)) &&
      (root != null ==> nodeCount == |Inorder(shape)|)
    }

    constructor ()
      ensures Valid() && shape == Leaf
    {
      root := null;
      shape := Leaf;
    }

    /** query_by_key: null exactly when the tree does not hold the key. */
    method Query(key: int) returns (p: AvlNode?)
      requires Valid()
      ensures p == null <==> !HasKey(Inorder(shape), key)
      ensures p != null ==> Entry(key, p) in Inorder(shape)
    {
      LookupMeaning(shape, key);
      ghost var c, t;
      p, c, t := Locate(key);
    }

    /** The loop of query_by_key, and for the proofs the path it takes. */
    method Locate(key: int) returns (p: AvlNode?, ghost c: Path<AvlNode>, ghost t: Shape)
      requires Valid()
      ensures p == Top(Lookup(shape, key))
      ensures t == Lookup(shape, key) && p == Top(t)
      ensures Placed(c, t, null) && PathRepr(c) + Repr(t) == Repr(shape)
      ensures Resume(c, DeleteAt(t, key)) == DeleteAt(shape, key)
    {
      p := root;
      c, t := Root, shape;
      while p != null
        invariant p == Top(t) && Lookup(t, key) == Lookup(shape, key)
        invariant Placed(c, t, null) && PathRepr(c) + Repr(t) == Repr(shape)
        invariant Resume(c, DeleteAt(t, key)) == DeleteAt(shape, key)
        decreases t
      {
        if key > p.key {
          DescendRight(c, t, null);
          p := p.rightChild;
          c, t := FromRight(c, t.left, t.key, t.elem), t.right;
        } else if key < p.key {
          DescendLeft(c, t, null);
          p := p.leftChild;
          c, t := FromLeft(c, t.key, t.elem, t.right), t.left;
        } else {
          break;
        }
      }
    }

    /** The loop that ends both add and delete: from p up to the root, renew each depth and adjust each node. */
    method WalkUp(start: AvlNode, ghost c0: Path<AvlNode>, ghost t0: Shape)
      requires !c0.Root? && start == c0.elem && Placed(c0, t0, null)
      modifies this`root, PathRepr(c0), Repr(t0)
      ensures var u := Resume(c0, t0);
              root == Top(u) && Placed(Root, u, null) && Repr(u) == PathRepr(c0) + Repr(t0)
    {
      var p: AvlNode? := start;
      ghost var c, t := c0, t0;
      while p != null
        invariant !c.Root? && p == c.elem && Placed(c, t, null)
        invariant PathRepr(c) + Repr(t) == PathRepr(c0) + Repr(t0)
        invariant Resume(c, t) == Resume(c0, t0)
        decreases c
      {
        assert p.parent == Above(c.up, null);
        if p.parent == null {
          root := ClimbLast(p, c, t);
          return;
        }
        p := ClimbOnce(p, c, t);
        c, t := c.up, Adjust(Fill(c, t));
      }
    }

    /** The descent of add: hang the new node where its key belongs, or report a duplicate by null. */
    method Hang(node: AvlNode) returns (p: AvlNode?, ghost c: Path<AvlNode>, ghost t: Shape)
      requires Valid() && root != null && node !in Repr(shape)
      modifies Repr(shape), node
      ensures p == null <==> Lookup(shape, node.key).Node?
      ensures p == null ==> unchanged(this) && Valid()
      ensures p != null ==> !c.Root? && p == c.elem && Placed(c, t, null)
      ensures p != null ==> PathRepr(c) + Repr(t) == Repr(shape) + {node}
      ensures p != null ==> Resume(c, t) == InsertNew(shape, node.key, node)
    {
      p := root;
      c, t := Root, shape;
      ghost var whole := InsertNew(shape, node.key, node);
      while true
        invariant t.Node? && p == t.elem && Placed(c, t, null)
        invariant PathRepr(c) + Repr(t) == Repr(shape)
        invariant Lookup(t, node.key) == Lookup(shape, node.key)
        invariant Resume(c, InsertNew(t, node.key, node)) == whole
        invariant Valid()
        decreases t
      {
        if node.key < p.key {
          DescendLeft(c, t, null);
          if p.leftChild == null {
            AttachLeft(node, p, c, t);
            c, t := FromLeft(c, t.key, p, t.right), Node(Leaf, node.key, node, Leaf);
            break;
          }
          p := p.leftChild;
          c, t := FromLeft(c, t.key, t.elem, t.right), t.left;
        } else if node.key > p.key {
          DescendRight(c, t, null);
          if p.rightChild == null {
            AttachRight(node, p, c, t);
            c, t := FromRight(c, t.left, t.key, p), Node(Leaf, node.key, node, Leaf);
            break;
          }
          p := p.rightChild;
          c, t := FromRight(c, t.left, t.key, t.elem), t.right;
        } else {
          return null, c, t;
        }
      }
    }

    /** The first node becomes the root. */
    method Plant(node: AvlNode)
      requires Valid() && root == null
      modifies this, node
      ensures Valid() && shape == Node(Leaf, node.key, node, Leaf)
    {
      node.depth := 1;
      node.leftChild, node.rightChild, node.parent := null, null, null;
      root := node;
      nodeCount := 1;
      shape := Node(Leaf, node.key, node, Leaf);
      assert Linked(shape);
      assert Placed(Root, shape, null);
      assert Inorder(shape) == [Entry(node.key, node)];
    }

    /** A node for a tree that is not empty: the descent, and the walk back up. */
    method Graft(node: AvlNode) returns (ok: bool)
      requires Valid() && root != null && node !in Repr(shape)
      modifies this, Repr(shape), node
      ensures Valid() && (ok <==> Lookup(old(shape), node.key).Leaf?)
      ensures if ok then shape == InsertNew(old(shape), node.key, node) && Repr(shape) == old(Repr(shape)) + {node}
              else unchanged(this)
    {
      ghost var was := shape;
      var p, c, t := Hang(node);
      if p == null { return false; }
      WalkUp(p, c, t);
      shape := Resume(c, t);
      nodeCount := nodeCount + 1;
      InsertNewGrows(was, node.key, node);
      ok := true;
    }

    /** avl_tree_add.  `made` is the node created for the element, when there was memory for one. */
    method Add(key: int, element: nat, hasMemory: bool) returns (ret: int, ghost made: AvlNode?)
      requires Valid()
      modifies this, Repr(shape)
      ensures Valid()
      ensures ret == if !hasMemory then -2 else if Lookup(old(shape), key).Node? then -3 else 0
      ensures ret == 0 ==> made != null && fresh(made) && made.key == key && made.element == element
      ensures ret == 0 ==> shape == Insert<AvlNode>(old(shape), key, made) && Repr(shape) == old(Repr(shape)) + {made}
      ensures ret != 0 ==> shape == old(shape) && unchanged(this)
    {
      if !hasMemory { return -2, null; }
      ReprAllocated(shape);
      var node := new AvlNode(key, element);
      made := node;
      assert Valid();
      ghost var was := shape;
      if root == null {
        Plant(node);
        assert shape == Insert(was, key, node);
        return 0, node;
      }
      var ok := Graft(node);
      if !ok { return -3, null; }
      assert shape == Insert(was, key, node);
      ret := 0;
    }

    /** Take `node` out of the place t has below the path c. */
    method TakeOut(node: AvlNode, ghost c: Path<AvlNode>, ghost t: Shape)
      returns (temp: AvlNode?, p: AvlNode?, ghost e: Path<AvlNode>, ghost q: Shape)
      requires t.Node? && t.elem == node && Placed(c, t, null)
      modifies PathRepr(c), Repr(t) - {node}
      ensures Placed(e, q, Above(c, null)) && LinkedPath(c, temp, null) && temp == Summit(e, Top(q))
      ensures PathRepr(e) + Repr(q) <= Repr(t) - {node} && p == Above(e, Above(c, null))
      ensures Resume(e, q) == DeleteTop(t)
    {
      PathAllocated(c);
      p := node.parent;
      temp := null;
      e, q := Root, Leaf;
      HeightIsExact(t.left);
      HeightIsExact(t.right);
      if node.leftChild != null || node.rightChild != null {
        if HeightOf(node.leftChild) > HeightOf(node.rightChild) {
          temp, p, e, q := TakeFromLeft(node, t);
        } else {
          temp, p, e, q := TakeFromRight(node, t);
        }
      }
      PathAllocated(e);
      ReprAllocated(q);
      assert LinkedPath(c, node, null);
      ReplaceChild(node, temp, c);
    }

    /** Walk up from the place where a node was taken out, or record the new root when there is no one above. */
    method Rebalance(temp: AvlNode?, p: AvlNode?, ghost e: Path<AvlNode>, ghost q: Shape, ghost c: Path<AvlNode>)
      requires Placed(e, q, Above(c, null)) && LinkedPath(c, temp, null) && temp == Summit(e, Top(q))
      requires p == Above(e, Above(c, null)) && PathRepr(e) !! PathRepr(c) && Repr(q) !! PathRepr(c)
      modifies this`root, PathRepr(e), Repr(q), PathRepr(c)
      ensures var u := Resume(c, Resume(e, q));
              root == Top(u) && Placed(Root, u, null) && Repr(u) == PathRepr(c) + PathRepr(e) + Repr(q)
    {
      JoinPaths(e, c, Top(q), null);
      ResumeOver(e, c, q);
      if p == null {
        root := temp;
      } else {
        WalkUp(p, Over(e, c), q);
      }
    }

    method TakeOutAndRebalance(node: AvlNode, ghost c: Path<AvlNode>, ghost t: Shape)
      requires t.Node? && t.elem == node && Placed(c, t, null)
      modifies this`root, PathRepr(c), Repr(t)
      ensures var u := Resume(c, DeleteTop(t));
              root == Top(u) && Placed(Root, u, null) && Repr(u) <= PathRepr(c) + Repr(t)
    {
      var temp, p, e, q := TakeOut(node, c, t);
      Rebalance(temp, p, e, q, c);
    }

    static lemma DeletedThere(was: Shape, key: int, c: Path<AvlNode>, t: Shape)
      requires Sorted(Inorder(was)) && t.Node? && t == Lookup(was, key)
      requires Resume(c, DeleteAt(t, key)) == DeleteAt(was, key)
      ensures Delete(was, key) == Resume(c, DeleteTop(t))
      ensures Sorted(Inorder(Delete(was, key))) && |Inorder(Delete(was, key))| == |Inorder(was)| - 1
    {
      LookupFinds(was, key);
      DeleteShrinks(was, key);
    }

    /** avl_tree_del_by_key; the failure value is -1 in a uint8_t. */
    method DeleteByKey(key: int) returns (ret: int)
      requires Valid()
      modifies this, Repr(shape)
      ensures Valid() && shape == Delete(old(shape), key)
      ensures ret == if Lookup(old(shape), key).Node? then 0 else 255
      ensures Repr(shape) <= old(Repr(shape))
    {
      ghost var was := shape;
      ReprAllocated(shape);
      var node, c, t := Locate(key);
      assert Valid();
      if node == null { return 255; }
      DeletedThere(was, key, c, t);
      nodeCount := nodeCount - 1;
      TakeOutAndRebalance(node, c, t);
      shape := Resume(c, DeleteTop(t));
      ret := 0;
    }
  }
}
