/** When the tree of AvlSpec stays balanced: always under insertion, and under deletion
    exactly when the walk back to the root never meets one particular shape. */
module AvlBalance {
  import opened AvlSpec

  /** The left-heavy node whose left child is even: avl_tree_adjust sends it to the double rotation. */
  ghost predicate Tie<T>(t: Tree<T>) {
    t.Node? && Height(t.left) == Height(t.right) + 2 && t.left.Node? && Height(t.left.left) == Height(t.left.right)
  }

  /** A tie whose inner grandchild leans right: the double rotation strands its short left side. */
  ghost predicate BadTie<T>(t: Tree<T>) {
    Tie(t) && t.left.right.Node? && Height(t.left.right.left) < Height(t.left.right.right)
  }

  // ----- insertion -----

  ghost predicate InsertMeetsTie<T>(t: Tree<T>, k: int, e: T) {
    t.Node? &&
    if k < t.key then InsertMeetsTie(t.left, k, e) || Tie(t.(left := InsertNew(t.left, k, e)))
    else InsertMeetsTie(t.right, k, e) || Tie(t.(right := InsertNew(t.right, k, e)))
  }

  /** Insertion keeps balance and meets no tie, because a subtree it made taller leans to one side. */
  lemma {:induction false} InsertNewBalanced<T>(t: Tree<T>, k: int, e: T)
    requires Balanced(t)
    ensures Balanced(InsertNew(t, k, e)) && !InsertMeetsTie(t, k, e)
    ensures Height(t) <= Height(InsertNew(t, k, e)) <= Height(t) + 1
    ensures t.Node? && Height(InsertNew(t, k, e)) > Height(t) ==>
              Height(InsertNew(t, k, e).left) != Height(InsertNew(t, k, e).right)
  {
    if t.Node? {
      if k < t.key {
        InsertNewBalanced(t.left, k, e);
        AdjustLeaning(t.(left := InsertNew(t.left, k, e)));
      } else {
        InsertNewBalanced(t.right, k, e);
        AdjustLeaning(t.(right := InsertNew(t.right, k, e)));
      }
    }
  }

  /** Adjusting a node off by two with a leaning heavy child restores balance and takes one level off. */
  lemma AdjustLeaning<T>(t: Tree<T>)
    requires t.Node? && Balanced(t.left) && Balanced(t.right)
    requires -2 <= Height(t.left) - Height(t.right) <= 2
    requires Height(t.left) == Height(t.right) + 2 ==> Height(t.left.left) != Height(t.left.right)
    ensures Balanced(Adjust(t))
    ensures -2 < Height(t.left) - Height(t.right) < 2 ==> Adjust(t) == t
    ensures Height(t.left) == Height(t.right) + 2 ==> Height(Adjust(t)) == Height(t) - 1
    ensures Height(t.right) == Height(t.left) + 2 ==>
              Height(Adjust(t)) == Height(t) - if Height(t.right.left) == Height(t.right.right) then 0 else 1
  {
    if Height(t.left) == Height(t.right) + 2 {
      AdjustLeftHeavy(t);
    } else if Height(t.right) == Height(t.left) + 2 {
      AdjustRightHeavy(t);
    }
  }

  lemma AdjustLeftHeavy<T>(t: Tree<T>)
    requires t.Node? && Balanced(t.left) && Balanced(t.right)
    requires Height(t.left) == Height(t.right) + 2 && Height(t.left.left) != Height(t.left.right)
    ensures Balanced(Adjust(t)) && Height(Adjust(t)) == Height(t) - 1
  {
    var l, r := t.left, t.right;
    if Height(l.left) > Height(l.right) {
      assert Adjust(t) == Node(l.left, l.key, l.elem, Node(l.right, t.key, t.elem, r));
    } else {
      var m := l.right;
      assert m.Node?;
      assert Adjust(t) == Node(Node(l.left, l.key, l.elem, m.left), m.key, m.elem, Node(m.right, t.key, t.elem, r));
    }
  }

  lemma AdjustRightHeavy<T>(t: Tree<T>)
    requires t.Node? && Balanced(t.left) && Balanced(t.right)
    requires Height(t.right) == Height(t.left) + 2
    ensures Balanced(Adjust(t))
    ensures Height(Adjust(t)) == Height(t) - if Height(t.right.left) == Height(t.right.right) then 0 else 1
  {
    var l, r := t.left, t.right;
    if Height(r.left) > Height(r.right) {
      var m := r.left;
      assert m.Node?;
      assert Adjust(t) == Node(Node(l, t.key, t.elem, m.left), m.key, m.elem, Node(m.right, r.key, r.elem, r.right));
    } else {
      assert Adjust(t) == Node(Node(l, t.key, t.elem, r.left), r.key, r.elem, r.right);
    }
  }

  // ----- deletion -----

  ghost predicate DropGreatestMeetsBadTie<T>(t: Tree<T>) {
    t.Node? && t.right.Node? &&
    (DropGreatestMeetsBadTie(t.right) || BadTie(t.(right := DropGreatest(t.right))))
  }

  ghost predicate DropLeastMeetsBadTie<T>(t: Tree<T>) {
    t.Node? && t.left.Node? &&
    (DropLeastMeetsBadTie(t.left) || BadTie(t.(left := DropLeast(t.left))))
  }

  ghost predicate DeleteTopMeetsBadTie<T>(t: Tree<T>)
    requires t.Node?
  {
    var l, r := t.left, t.right;
    if l.Leaf? && r.Leaf? then false
    else if Height(l) > Height(r) then
      l.right.Node? &&
      (DropGreatestMeetsBadTie(l) || BadTie(Node(DropGreatest(l), Greatest(l).key, Greatest(l).elem, r)))
    else
      r.left.Node? && (DropLeastMeetsBadTie(r) || BadTie(Node(l, Least(r).key, Least(r).elem, DropLeast(r))))
  }

  ghost predicate DeleteMeetsBadTie<T>(t: Tree<T>, k: int) {
    t.Node? &&
    if k > t.key then DeleteMeetsBadTie(t.right, k) || BadTie(t.(right := DeleteAt(t.right, k)))
    else if k < t.key then DeleteMeetsBadTie(t.left, k) || BadTie(t.(left := DeleteAt(t.left, k)))
    else DeleteTopMeetsBadTie(t)
  }

  /** One step of the walk of a delete.  `s` is a node of a balanced tree and `t` that node after one
      of its subtrees lost at most a level; `met` says whether the walk met a bad tie below. */
  ghost predicate Shrunk<T>(old_: Tree<T>, new_: Tree<T>, met: bool) {
    Height(old_) - 1 <= Height(new_) <= Height(old_) &&
    (Balanced(new_) <==> !met) &&
    (met ==> Height(new_) == Height(old_))
  }

  lemma AdjustShrunkRight<T>(t: Tree<T>, r: Tree<T>, met: bool)
    requires t.Node? && Balanced(t) && Shrunk(t.right, r, met)
    ensures Shrunk(t, Adjust(t.(right := r)), met || BadTie(t.(right := r)))
  {
    var u := t.(right := r);
    if Height(u.left) == Height(r) + 2 {
      if Tie(u) { AdjustTie(u); } else { AdjustLeaning(u); }
    } else {
      assert Adjust(u) == u;
    }
  }

  lemma AdjustShrunkLeft<T>(t: Tree<T>, l: Tree<T>, met: bool)
    requires t.Node? && Balanced(t) && Shrunk(t.left, l, met)
    ensures Shrunk(t, Adjust(t.(left := l)), met || BadTie(t.(left := l)))
  {
    var u := t.(left := l);
    if Height(u.right) == Height(l) + 2 {
      AdjustLeaning(u);
    } else {
      assert Adjust(u) == u;
    }
  }

  /** At a tie the double rotation keeps the height; it keeps balance exactly when the tie is not a bad one. */
  lemma AdjustTie<T>(t: Tree<T>)
    requires Tie(t) && Balanced(t.left) && Balanced(t.right)
    ensures Height(Adjust(t)) == Height(t)
    ensures Balanced(Adjust(t)) <==> !BadTie(t)
  {
    var m := t.left.right;
    assert m.Node?;
    assert Adjust(t) == RotateRight(t.(left := RotateLeft(t.left)));
    assert Adjust(t).left.left == t.left.left && Adjust(t).left.right == m.left;
    assert Adjust(t).right.left == m.right && Adjust(t).right.right == t.right;
  }

  lemma {:induction false} DropGreatestBalanced<T>(t: Tree<T>)
    requires t.Node? && Balanced(t)
    ensures Shrunk(t, DropGreatest(t), DropGreatestMeetsBadTie(t))
  {
    if t.right.Node? {
      DropGreatestBalanced(t.right);
      AdjustShrunkRight(t, DropGreatest(t.right), DropGreatestMeetsBadTie(t.right));
    }
  }

  lemma {:induction false} DropLeastBalanced<T>(t: Tree<T>)
    requires t.Node? && Balanced(t)
    ensures Shrunk(t, DropLeast(t), DropLeastMeetsBadTie(t))
  {
    if t.left.Node? {
      DropLeastBalanced(t.left);
      AdjustShrunkLeft(t, DropLeast(t.left), DropLeastMeetsBadTie(t.left));
    }
  }

  lemma DeleteTopBalanced<T>(t: Tree<T>)
    requires t.Node? && Balanced(t)
    ensures Shrunk(t, DeleteTop(t), DeleteTopMeetsBadTie(t))
  {
    var l, r := t.left, t.right;
    if l.Leaf? && r.Leaf? {
    } else if Height(l) > Height(r) {
      if l.right.Node? {
        DropGreatestBalanced(l);
        var m := Greatest(l);
        AdjustShrunkLeft(Node(l, m.key, m.elem, r), DropGreatest(l), DropGreatestMeetsBadTie(l));
      }
    } else if r.left.Node? {
      DropLeastBalanced(r);
      var m := Least(r);
      AdjustShrunkRight(Node(l, m.key, m.elem, r), DropLeast(r), DropLeastMeetsBadTie(r));
    }
  }

  lemma {:induction false} DeleteAtBalanced<T>(t: Tree<T>, k: int)
    requires Balanced(t)
    ensures Shrunk(t, DeleteAt(t, k), DeleteMeetsBadTie(t, k))
  {
    if t.Leaf? {
    } else if k > t.key {
      DeleteAtBalanced(t.right, k);
      AdjustShrunkRight(t, DeleteAt(t.right, k), DeleteMeetsBadTie(t.right, k));
    } else if k < t.key {
      DeleteAtBalanced(t.left, k);
      AdjustShrunkLeft(t, DeleteAt(t.left, k), DeleteMeetsBadTie(t.left, k));
    } else {
      DeleteTopBalanced(t);
    }
  }

  /** Deleting a key of a balanced tree leaves it balanced if and only if the walk back to the root
      meets no bad tie; either way the height drops by at most one. */
  lemma DeleteBalanced<T>(t: Tree<T>, k: int)
    requires Balanced(t) && Lookup(t, k).Node?
    ensures Balanced(Delete(t, k)) <==> !DeleteMeetsBadTie(t, k)
    ensures Height(t) - 1 <= Height(Delete(t, k)) <= Height(t)
  {
    DeleteAtBalanced(t, k);
  }

  /** The tree of the source's own key order 50, 20, 60, 10, 30, 70, 5, 40, in two parts. */
  function WitnessLeft(): Tree<int> {
    Node(Node(Single(5), 10, 0, Leaf), 20, 0, Node(Leaf, 30, 0, Single(40)))
  }

  function WitnessTree(): Tree<int> {
    Node(WitnessLeft(), 50, 0, Node(Leaf, 60, 0, Single(70)))
  }

  function Single(k: int): Tree<int> {
    Node(Leaf, k, 0, Leaf)
  }

  lemma WitnessIsReached()
    ensures var t3 := Insert(Insert(Insert(Leaf, 50, 0), 20, 0), 60, 0);
            var t6 := Insert(Insert(Insert(t3, 10, 0), 30, 0), 70, 0);
            Insert(Insert(t6, 5, 0), 40, 0) == WitnessTree()
  {
    WitnessFirstThree();
    WitnessMiddleThree(Node(Single(20), 50, 0, Single(60)));
    WitnessLastTwo(Node(Node(Single(10), 20, 0, Single(30)), 50, 0, Node(Leaf, 60, 0, Single(70))));
  }

  lemma WitnessFirstThree()
    ensures Insert(Insert(Insert(Leaf, 50, 0), 20, 0), 60, 0) == Node(Single(20), 50, 0, Single(60))
  {
  }

  lemma WitnessMiddleThree(t3: Tree<int>)
    requires t3 == Node(Single(20), 50, 0, Single(60))
    ensures Insert(Insert(Insert(t3, 10, 0), 30, 0), 70, 0)
         == Node(Node(Single(10), 20, 0, Single(30)), 50, 0, Node(Leaf, 60, 0, Single(70)))
  {
    var t4 := t3.(left := Node(Single(10), 20, 0, Leaf));
    assert InsertNew(t3.left, 10, 0) == t4.left;
    var t5 := t3.(left := Node(Single(10), 20, 0, Single(30)));
    assert InsertNew(t4.left, 30, 0) == t5.left;
    assert InsertNew(t5.right, 70, 0) == Node(Leaf, 60, 0, Single(70));
  }

  lemma WitnessLastTwo(t6: Tree<int>)
    requires t6 == Node(Node(Single(10), 20, 0, Single(30)), 50, 0, Node(Leaf, 60, 0, Single(70)))
    ensures Insert(Insert(t6, 5, 0), 40, 0) == WitnessTree()
  {
    var l7 := Node(Node(Single(5), 10, 0, Leaf), 20, 0, Single(30));
    assert InsertNew(Single(10), 5, 0) == Node(Single(5), 10, 0, Leaf);
    assert InsertNew(t6.left, 5, 0) == l7;
    assert InsertNew(Single(30), 40, 0) == Node(Leaf, 30, 0, Single(40));
    assert InsertNew(l7, 40, 0) == WitnessLeft();
  }

  /** Deletion can leave the tree unbalanced: adding 50, 20, 60, 10, 30, 70, 5 and 40 gives the witness tree, and
      deleting 70 from it leaves 20 with children of heights 2 and 0. */
  lemma DeleteUnbalancesWitness()
    ensures var u := Delete(WitnessTree(), 70);
            Balanced(WitnessTree()) && !Balanced(u) && Lookup(u, 20).Node? &&
            Height(Lookup(u, 20).left) == 2 && Height(Lookup(u, 20).right) == 0
  {
    assert DeleteAt(Node(Leaf, 60, 0, Single(70)), 70) == Single(60);
    assert Delete(WitnessTree(), 70) == Adjust(WitnessTree().(right := Single(60)));
    assert Adjust(WitnessTree().(right := Single(60)))
        == Node(WitnessLeft().(right := Leaf), 30, 0, Node(Single(40), 50, 0, Single(60)));
  }

  // ----- height against size, and whole histories -----

  function MinSize(h: nat): nat {
    if h < 2 then h else 1 + MinSize(h - 1) + MinSize(h - 2)
  }

  function Pow(base: nat, n: nat): nat {
    if n == 0 then 1 else base * Pow(base, n - 1)
  }

  lemma {:induction false} MinSizeBound(h: nat)
    ensures Pow(8, h) <= Pow(5, h) * (MinSize(h) + 1)
  {
    if h == 0 {
    } else if h == 1 {
      assert Pow(8, 1) == 8 * Pow(8, 0) && Pow(5, 1) == 5 * Pow(5, 0);
    } else {
      MinSizeBound(h - 1);
      MinSizeBound(h - 2);
      var a, b := Pow(5, h - 2), Pow(8, h - 2);
      assert Pow(8, h - 1) == 8 * b && Pow(5, h - 1) == 5 * a;
      GoldenStep(a, b, MinSize(h - 1) + 1, MinSize(h - 2) + 1);
    }
  }

  /** 64/25 < 1 + 8/5 */
  lemma GoldenStep(a: nat, b: nat, x: nat, y: nat)
    requires 8 * b <= 5 * a * x && b <= a * y
    ensures 8 * (8 * b) <= 5 * (5 * a) * (x + y)
  {
    assert 5 * (5 * a) * (x + y) == 5 * (5 * a * x) + 25 * (a * y);
  }

  lemma {:induction false} MinSizeDoubles(h: nat)
    ensures Pow(2, h / 2) <= MinSize(h) + 1
  {
    if h >= 2 {
      MinSizeDoubles(h - 2);
      MinSizeGrows(h - 2);
      assert h / 2 == (h - 2) / 2 + 1;
    }
  }

  /** The height of a balanced tree of n entries is logarithmic: at most 2 log2(n + 1) + 1, and, closer to the best
      possible, at most log(n + 1) to the base 8/5. */
  lemma BalancedIsShallow<T>(t: Tree<T>)
    requires Balanced(t)
    ensures MinSize(Height(t)) <= |Inorder(t)|
    ensures Pow(2, Height(t) / 2) <= |Inorder(t)| + 1
    ensures Pow(8, Height(t)) <= Pow(5, Height(t)) * (|Inorder(t)| + 1)
  {
    SizeAtLeast(t);
    MinSizeDoubles(Height(t));
    MinSizeBound(Height(t));
    TimesMono(Pow(5, Height(t)), MinSize(Height(t)) + 1, |Inorder(t)| + 1);
  }

  lemma TimesMono(c: nat, a: nat, b: nat)
    requires a <= b
    ensures c * a <= c * b
  {
  }

  lemma {:induction false} SizeAtLeast<T>(t: Tree<T>)
    requires Balanced(t)
    ensures MinSize(Height(t)) <= |Inorder(t)|
    decreases t
  {
    if t.Node? {
      SizeAtLeast(t.left);
      SizeAtLeast(t.right);
      if Height(t) >= 2 {
        MinSizeGrows(Height(t) - 2);
      }
    }
  }

  /** The balanced tree of height h with the fewest entries, its keys counting up from lo. */
  function Sparsest<T>(h: nat, lo: int, e: T): Tree<T> {
    if h == 0 then Leaf
    else if h == 1 then Node(Leaf, lo, e, Leaf)
    else
      var n := MinSize(h - 1);
      Node(Sparsest(h - 1, lo, e), lo + n, e, Sparsest(h - 2, lo + n + 1, e))
  }

  ghost predicate CountsUp<T>(s: seq<Entry<T>>, lo: int) {
    forall i :: 0 <= i < |s| ==> s[i].key == lo + i
  }

  /** No better bound than MinSize holds: there is a balanced search tree of every height that meets it. */
  lemma {:induction false} SparsestIsSparse<T>(h: nat, lo: int, e: T)
    ensures var t := Sparsest(h, lo, e);
            Balanced(t) && Height(t) == h && |Inorder(t)| == MinSize(h) &&
            CountsUp(Inorder(t), lo) && Sorted(Inorder(t))
  {
    if h >= 2 {
      SparsestIsSparse(h - 1, lo, e);
      SparsestIsSparse(h - 2, lo + MinSize(h - 1) + 1, e);
    }
  }

  lemma {:induction false} MinSizeGrows(h: nat)
    ensures MinSize(h) <= MinSize(h + 1)
  {
    if h >= 2 {
      MinSizeGrows(h - 1);
      MinSizeGrows(h - 2);
    }
  }

  datatype Op<+T> = Add(key: int, elem: T) | Del(key: int)

  function After<T>(t: Tree<T>, op: Op<T>): Tree<T> {
    match op
    case Add(k, e) => Insert(t, k, e)
    case Del(k) => Delete(t, k)
  }

  function History<T>(ops: seq<Op<T>>): Tree<T> {
    if ops == [] then Leaf else After(History(ops[..|ops| - 1]), ops[|ops| - 1])
  }

  /** The same history on a sorted sequence. */
  function Reference<T>(ops: seq<Op<T>>): seq<Entry<T>> {
    if ops == [] then []
    else
      var s := Reference(ops[..|ops| - 1]);
      match ops[|ops| - 1]
      case Add(k, e) => Put(s, k, e)
      case Del(k) => Remove(s, k)
  }

  ghost predicate EveryDeleteClear<T>(ops: seq<Op<T>>) {
    forall n :: 0 <= n < |ops| && ops[n].Del? ==> !DeleteMeetsBadTie(History(ops[..n]), ops[n].key)
  }

  /** After every history of adds and deletes the tree is a search tree with exactly the entries of the
      reference, and balanced as long as no delete met a bad tie. */
  lemma {:induction false} HistorySound<T>(ops: seq<Op<T>>)
    ensures Inorder(History(ops)) == Reference(ops) && Sorted(Reference(ops))
    ensures EveryDeleteClear(ops) ==> Balanced(History(ops))
  {
    if ops != [] {
      var before, op := ops[..|ops| - 1], ops[|ops| - 1];
      var t := History(before);
      HistorySound(before);
      match op {
        case Add(k, e) =>
          InsertInorder(t, k, e);
          PutMeaning(Inorder(t), k, e);
        case Del(k) =>
          DeleteInorder(t, k);
          RemoveMeaning(Inorder(t), k);
      }
      if EveryDeleteClear(ops) {
        assert EveryDeleteClear(before) by {
          forall n | 0 <= n < |before| && before[n].Del?
            ensures !DeleteMeetsBadTie(History(before[..n]), before[n].key)
          {
            assert before[..n] == ops[..n] && before[n] == ops[n];
          }
        }
        AfterBalanced(t, op);
      }
    }
  }

  lemma AfterBalanced<T>(t: Tree<T>, op: Op<T>)
    requires Balanced(t)
    requires op.Del? ==> !DeleteMeetsBadTie(t, op.key)
    ensures Balanced(After(t, op))
  {
    match op
    case Add(k, e) => InsertNewBalanced(t, k, e);
    case Del(k) => DeleteAtBalanced(t, k);
  }
}
