/** The AVL tree of lib/data_struct/src/avltree.c on values: what each operation
    makes of the tree, with the payload type left open.  AvlTree.dfy proves that
    the pointer code computes exactly these functions. */
module AvlSpec {

  datatype Tree<+T> = Leaf | Node(left: Tree<T>, key: int, elem: T, right: Tree<T>)

  /** A key with its payload; a tree stands for the sequence of its entries. */
  datatype Entry<+T> = Entry(key: int, elem: T)

  function Max(a: nat, b: nat): nat {
    if a > b then a else b
  }

  function Height<T>(t: Tree<T>): nat {
    match t
    case Leaf => 0
    case Node(l, _, _, r) => 1 + Max(Height(l), Height(r))
  }

  function Inorder<T>(t: Tree<T>): seq<Entry<T>> {
    match t
    case Leaf => []
    case Node(l, k, e, r) => Inorder(l) + [Entry(k, e)] + Inorder(r)
  }

  ghost predicate Sorted<T>(s: seq<Entry<T>>) {
    forall i, j :: 0 <= i < j < |s| ==> s[i].key < s[j].key
  }

  ghost predicate HasKey<T>(s: seq<Entry<T>>, k: int) {
    exists i :: 0 <= i < |s| && s[i].key == k
  }

  ghost predicate Balanced<T>(t: Tree<T>) {
    match t
    case Leaf => true
    case Node(l, _, _, r) => Balanced(l) && Balanced(r) && -2 < Height(l) - Height(r) < 2
  }

  // ----- rotations and adjustment -----

  function RotateRight<T>(t: Tree<T>): Tree<T>
    requires t.Node? && t.left.Node?
  {
    Node(t.left.left, t.left.key, t.left.elem, Node(t.left.right, t.key, t.elem, t.right))
  }

  function RotateLeft<T>(t: Tree<T>): Tree<T>
    requires t.Node? && t.right.Node?
  {
    Node(Node(t.left, t.key, t.elem, t.right.left), t.right.key, t.right.elem, t.right.right)
  }

  /** avl_tree_adjust: an even left child goes to the double rotation, an even right child to the single one. */
  function Adjust<T>(t: Tree<T>): Tree<T>
    requires t.Node?
  {
    var hl, hr := Height(t.left), Height(t.right);
    if -2 < hl - hr < 2 then t
    else if hl > hr then
      if Height(t.left.left) > Height(t.left.right) then RotateRight(t)
      else RotateRight(t.(left := RotateLeft(t.left)))
    else
      if Height(t.right.left) > Height(t.right.right) then RotateLeft(t.(right := RotateRight(t.right)))
      else RotateLeft(t)
  }

  // ----- insertion, lookup, deletion -----

  function InsertNew<T>(t: Tree<T>, k: int, e: T): (r: Tree<T>)
    ensures r.Node?
  {
    match t
    case Leaf => Node(Leaf, k, e, Leaf)
    case Node(l, key, _, r) =>
      if k < key then Adjust(t.(left := InsertNew(l, k, e)))
      else Adjust(t.(right := InsertNew(r, k, e)))
  }

  /** query_by_key */
  function Lookup<T>(t: Tree<T>, k: int): Tree<T> {
    if t.Leaf? || k == t.key then t
    else if k > t.key then Lookup(t.right, k)
    else Lookup(t.left, k)
  }

  /** avl_tree_add: a duplicate key is turned away before anything is touched. */
  function Insert<T>(t: Tree<T>, k: int, e: T): Tree<T> {
    if Lookup(t, k).Node? then t else InsertNew(t, k, e)
  }

  /** The greatest entry of a non-empty tree. */
  function Greatest<T>(t: Tree<T>): Entry<T>
    requires t.Node?
  {
    if t.right.Leaf? then Entry(t.key, t.elem) else Greatest(t.right)
  }

  function Least<T>(t: Tree<T>): Entry<T>
    requires t.Node?
  {
    if t.left.Leaf? then Entry(t.key, t.elem) else Least(t.left)
  }

  function DropGreatest<T>(t: Tree<T>): Tree<T>
    requires t.Node?
  {
    if t.right.Leaf? then t.left else Adjust(t.(right := DropGreatest(t.right)))
  }

  function DropLeast<T>(t: Tree<T>): Tree<T>
    requires t.Node?
  {
    if t.left.Leaf? then t.right else Adjust(t.(left := DropLeast(t.left)))
  }

  /** What takes the place of a deleted node: its greatest left descendant when the left
      side is strictly taller, else its least right descendant.  A direct child moved up
      is not itself adjusted. */
  function DeleteTop<T>(t: Tree<T>): Tree<T>
    requires t.Node?
  {
    var l, r := t.left, t.right;
    if l.Leaf? && r.Leaf? then Leaf
    else if Height(l) > Height(r) then
      if l.right.Leaf? then Node(l.left, l.key, l.elem, r)
      else var m := Greatest(l); Adjust(Node(DropGreatest(l), m.key, m.elem, r))
    else
      if r.left.Leaf? then Node(l, r.key, r.elem, r.right)
      else var m := Least(r); Adjust(Node(l, m.key, m.elem, DropLeast(r)))
  }

  function DeleteAt<T>(t: Tree<T>, k: int): Tree<T> {
    if t.Leaf? then Leaf
    else if k > t.key then Adjust(t.(right := DeleteAt(t.right, k)))
    else if k < t.key then Adjust(t.(left := DeleteAt(t.left, k)))
    else DeleteTop(t)
  }

  /** avl_tree_del_by_key: an absent key leaves the tree as it is. */
  function Delete<T>(t: Tree<T>, k: int): Tree<T> {
    if Lookup(t, k).Leaf? then t else DeleteAt(t, k)
  }

  // ----- reference meaning on sorted sequences -----

  /** The number of entries whose key is below k: where k belongs in a sorted sequence. */
  function Rank<T>(s: seq<Entry<T>>, k: int): (n: nat)
    ensures n <= |s|
  {
    if s == [] || s[0].key >= k then 0 else 1 + Rank(s[1..], k)
  }

  /** Put and Remove at a given place, where the key is or would be. */
  function PutHere<T>(s: seq<Entry<T>>, n: nat, k: int, e: T): seq<Entry<T>>
    requires n <= |s|
  {
    if n < |s| && s[n].key == k then s else s[..n] + [Entry(k, e)] + s[n..]
  }

  function RemoveHere<T>(s: seq<Entry<T>>, n: nat, k: int): seq<Entry<T>>
    requires n <= |s|
  {
    if n < |s| && s[n].key == k then s[..n] + s[n + 1..] else s
  }

  function Put<T>(s: seq<Entry<T>>, k: int, e: T): seq<Entry<T>> {
    PutHere(s, Rank(s, k), k, e)
  }

  function Remove<T>(s: seq<Entry<T>>, k: int): seq<Entry<T>> {
    RemoveHere(s, Rank(s, k), k)
  }

  /** In a sequence split around one entry, the rank of k is decided by the side k falls on. */
  lemma RankSplit<T>(a: seq<Entry<T>>, x: Entry<T>, b: seq<Entry<T>>, k: int)
    requires Sorted(a + [x] + b)
    ensures Sorted(a) && Sorted(b)
    ensures k <= x.key ==> Rank(a + [x] + b, k) == Rank(a, k)
    ensures k > x.key ==> Rank(a + [x] + b, k) == |a| + 1 + Rank(b, k)
  {
    SortedParts(a, x, b);
    RankAround(a, x, b, k);
  }

  lemma SortedParts<T>(a: seq<Entry<T>>, x: Entry<T>, b: seq<Entry<T>>)
    requires Sorted(a + [x] + b)
    ensures Sorted(a) && Sorted(b) && forall i :: 0 <= i < |a| ==> a[i].key < x.key
  {
    var s := a + [x] + b;
    assert s[|a|] == x;
    assert forall i :: 0 <= i < |a| ==> a[i] == s[i];
    assert forall i :: 0 <= i < |b| ==> b[i] == s[|a| + 1 + i];
  }

  lemma {:induction false} RankAround<T>(a: seq<Entry<T>>, x: Entry<T>, b: seq<Entry<T>>, k: int)
    requires forall i :: 0 <= i < |a| ==> a[i].key < x.key
    ensures k <= x.key ==> Rank(a + [x] + b, k) == Rank(a, k)
    ensures k > x.key ==> Rank(a + [x] + b, k) == |a| + 1 + Rank(b, k)
  {
    var s := a + [x] + b;
    if a == [] {
      assert s[0] == x && s[1..] == b;
    } else {
      assert s[0] == a[0] && s[1..] == a[1..] + [x] + b;
      RankAround(a[1..], x, b, k);
    }
  }

  /** Where Rank points: everything before is smaller, and the key is there or nowhere. */
  lemma {:induction false} RankMeaning<T>(s: seq<Entry<T>>, k: int)
    requires Sorted(s)
    ensures forall i :: 0 <= i < Rank(s, k) ==> s[i].key < k
    ensures forall i :: Rank(s, k) <= i < |s| ==> s[i].key >= k
    ensures HasKey(s, k) <==> Rank(s, k) < |s| && s[Rank(s, k)].key == k
  {
    if s == [] || s[0].key >= k {
    } else {
      RankMeaning(s[1..], k);
      forall i | 0 <= i < |s| ensures if i < Rank(s, k) then s[i].key < k else s[i].key >= k {
        if i > 0 { assert s[i] == s[1..][i - 1]; }
      }
    }
  }

  /** Put keeps a sequence sorted, adds the one entry when its key is new, and otherwise changes nothing. */
  lemma PutMeaning<T>(s: seq<Entry<T>>, k: int, e: T)
    requires Sorted(s)
    ensures Sorted(Put(s, k, e))
    ensures HasKey(s, k) ==> Put(s, k, e) == s
    ensures !HasKey(s, k) ==> multiset(Put(s, k, e)) == multiset(s) + multiset{Entry(k, e)}
  {
    RankMeaning(s, k);
    var n, p := Rank(s, k), Put(s, k, e);
    if !HasKey(s, k) {
      assert s == s[..n] + s[n..];
      forall i, j | 0 <= i < j < |p| ensures p[i].key < p[j].key {
        PutAt(s, k, e, i);
        PutAt(s, k, e, j);
      }
    }
  }

  lemma PutAt<T>(s: seq<Entry<T>>, k: int, e: T, i: nat)
    requires Sorted(s) && !(Rank(s, k) < |s| && s[Rank(s, k)].key == k) && i <= |s|
    ensures |Put(s, k, e)| == |s| + 1
    ensures Put(s, k, e)[i] == if i < Rank(s, k) then s[i] else if i == Rank(s, k) then Entry(k, e) else s[i - 1]
  {
  }

  /** Remove takes out the entry with the key, if there is one, and nothing else. */
  lemma RemoveMeaning<T>(s: seq<Entry<T>>, k: int)
    requires Sorted(s)
    ensures Sorted(Remove(s, k)) && !HasKey(Remove(s, k), k)
    ensures !HasKey(s, k) ==> Remove(s, k) == s
    ensures HasKey(s, k) ==> exists e :: multiset(s) == multiset(Remove(s, k)) + multiset{Entry(k, e)}
  {
    RankMeaning(s, k);
    var n := Rank(s, k);
    if HasKey(s, k) {
      RemoveOne(s, n);
      assert s[n] == Entry(k, s[n].elem);
    }
  }

  lemma RemoveOne<T>(s: seq<Entry<T>>, n: nat)
    requires Sorted(s) && n < |s|
    ensures Sorted(s[..n] + s[n + 1..]) && !HasKey(s[..n] + s[n + 1..], s[n].key)
    ensures multiset(s) == multiset(s[..n] + s[n + 1..]) + multiset{s[n]}
  {
    var r := s[..n] + s[n + 1..];
    assert forall i :: 0 <= i < |r| ==> r[i] == if i < n then s[i] else s[i + 1];
    assert s == s[..n] + [s[n]] + s[n + 1..];
  }

  /** Around a split point, Put, Remove and HasKey look only at the side the key falls on. */
  lemma SpliceLeft<T>(a: seq<Entry<T>>, x: Entry<T>, b: seq<Entry<T>>, k: int, e: T)
    requires Sorted(a + [x] + b) && k < x.key
    ensures Put(a + [x] + b, k, e) == Put(a, k, e) + [x] + b
    ensures Remove(a + [x] + b, k) == Remove(a, k) + [x] + b
    ensures HasKey(a + [x] + b, k) <==> HasKey(a, k)
  {
    var n := Rank(a, k);
    RankSplit(a, x, b, k);
    KeyAtRank(a + [x] + b, k);
    KeyAtRank(a, k);
    CutLeft(a, [x], b, [Entry(k, e)], n);
  }

  lemma SpliceRight<T>(a: seq<Entry<T>>, x: Entry<T>, b: seq<Entry<T>>, k: int, e: T)
    requires Sorted(a + [x] + b) && k > x.key
    ensures Put(a + [x] + b, k, e) == a + [x] + Put(b, k, e)
    ensures Remove(a + [x] + b, k) == a + [x] + Remove(b, k)
    ensures HasKey(a + [x] + b, k) <==> HasKey(b, k)
  {
    RankSplit(a, x, b, k);
    SpliceAfter(a + [x], b, k, e);
  }

  lemma SpliceAfter<T>(p: seq<Entry<T>>, b: seq<Entry<T>>, k: int, e: T)
    requires Sorted(p + b) && Sorted(b) && Rank(p + b, k) == |p| + Rank(b, k)
    ensures Put(p + b, k, e) == p + Put(b, k, e)
    ensures Remove(p + b, k) == p + Remove(b, k)
    ensures HasKey(p + b, k) <==> HasKey(b, k)
  {
    KeyAtRank(p + b, k);
    KeyAtRank(b, k);
    SpliceAfterHere(p, b, Rank(b, k), k, e);
  }

  lemma SpliceAfterHere<T>(p: seq<Entry<T>>, b: seq<Entry<T>>, n: nat, k: int, e: T)
    requires n <= |b|
    ensures n < |b| ==> (p + b)[|p| + n] == b[n]
    ensures PutHere(p + b, |p| + n, k, e) == p + PutHere(b, n, k, e)
    ensures RemoveHere(p + b, |p| + n, k) == p + RemoveHere(b, n, k)
  {
    CutRight(p, b, [Entry(k, e)], n);
  }

  lemma KeyAtRank<T>(s: seq<Entry<T>>, k: int)
    requires Sorted(s)
    ensures HasKey(s, k) <==> Rank(s, k) < |s| && s[Rank(s, k)].key == k
  {
    RankMeaning(s, k);
  }

  lemma CutRight<T>(p: seq<T>, b: seq<T>, y: seq<T>, n: nat)
    requires n <= |b|
    ensures (p + b)[..|p| + n] + y + (p + b)[|p| + n..] == p + (b[..n] + y + b[n..])
    ensures n < |b| ==> (p + b)[|p| + n] == b[n]
    ensures n < |b| ==> (p + b)[..|p| + n] + (p + b)[|p| + n + 1..] == p + (b[..n] + b[n + 1..])
  {
    assert (p + b)[..|p| + n] == p + b[..n] && (p + b)[|p| + n..] == b[n..];
  }

  lemma CutLeft<T>(a: seq<T>, x: seq<T>, b: seq<T>, y: seq<T>, n: nat)
    requires n <= |a|
    ensures (a + x + b)[..n] + y + (a + x + b)[n..] == (a[..n] + y + a[n..]) + x + b
    ensures n < |a| ==> (a + x + b)[n] == a[n]
    ensures n < |a| ==> (a + x + b)[..n] + (a + x + b)[n + 1..] == (a[..n] + a[n + 1..]) + x + b
  {
    assert (a + x + b)[..n] == a[..n] && (a + x + b)[n..] == a[n..] + x + b;
  }

  lemma SpliceMiddle<T>(a: seq<Entry<T>>, x: Entry<T>, b: seq<Entry<T>>)
    requires Sorted(a + [x] + b)
    ensures Remove(a + [x] + b, x.key) == a + b
    ensures HasKey(a + [x] + b, x.key)
  {
    var s := a + [x] + b;
    RankSplit(a, x, b, x.key);
    RankMeaning(a, x.key);
    assert s[|a|] == x;
    assert forall i :: 0 <= i < |a| ==> a[i] == s[i];
    assert s[..|a|] == a && s[|a| + 1..] == b;
  }

  // ----- the operations on trees are the operations on sorted sequences -----

  /** No rebalancing changes which entries there are or their order. */
  lemma AdjustInorder<T>(t: Tree<T>)
    requires t.Node?
    ensures Inorder(Adjust(t)) == Inorder(t)
  {
    var l, r := t.left, t.right;
    var hl, hr := Height(l), Height(r);
    if hl >= hr + 2 {
      RotateRightInorder(t);
      if Height(l.left) <= Height(l.right) {
        RotateLeftInorder(l);
        RotateRightInorder(t.(left := RotateLeft(l)));
      }
    } else if hr >= hl + 2 {
      RotateLeftInorder(t);
      if Height(r.left) > Height(r.right) {
        RotateRightInorder(r);
        RotateLeftInorder(t.(right := RotateRight(r)));
      }
    }
  }

  lemma RotateRightInorder<T>(t: Tree<T>)
    requires t.Node? && t.left.Node?
    ensures Inorder(RotateRight(t)) == Inorder(t)
  {
    Regroup(Inorder(t.left.left), [Entry(t.left.key, t.left.elem)], Inorder(t.left.right),
            [Entry(t.key, t.elem)], Inorder(t.right));
  }

  lemma RotateLeftInorder<T>(t: Tree<T>)
    requires t.Node? && t.right.Node?
    ensures Inorder(RotateLeft(t)) == Inorder(t)
  {
    Regroup(Inorder(t.left), [Entry(t.key, t.elem)], Inorder(t.right.left),
            [Entry(t.right.key, t.right.elem)], Inorder(t.right.right));
  }

  lemma Regroup<T>(a: seq<T>, x: seq<T>, b: seq<T>, y: seq<T>, c: seq<T>)
    ensures a + x + (b + y + c) == (a + x + b) + y + c
  {
  }

  /** Search finds a key exactly when the tree holds it, and finds that key's entry. */
  lemma {:induction false} LookupMeaning<T>(t: Tree<T>, k: int)
    requires Sorted(Inorder(t))
    ensures Lookup(t, k).Node? <==> HasKey(Inorder(t), k)
    ensures Lookup(t, k).Node? ==> Lookup(t, k).key == k && Entry(k, Lookup(t, k).elem) in Inorder(t)
  {
    if t.Node? {
      var a, x, b := Inorder(t.left), Entry(t.key, t.elem), Inorder(t.right);
      RankSplit(a, x, b, k);
      RankMeaning(Inorder(t), k);
      if k == t.key {
        assert Inorder(t)[|a|] == x;
      } else {
        LookupMeaning(if k < t.key then t.left else t.right, k);
        RankMeaning(if k < t.key then a else b, k);
      }
    }
  }

  lemma LookupFinds<T>(t: Tree<T>, k: int)
    ensures Lookup(t, k).Node? ==> Lookup(t, k).key == k
  {
  }

  lemma {:induction false} InsertNewInorder<T>(t: Tree<T>, k: int, e: T)
    requires Sorted(Inorder(t)) && !HasKey(Inorder(t), k)
    ensures Inorder(InsertNew(t, k, e)) == Put(Inorder(t), k, e)
  {
    if t.Node? {
      var a, x, b := Inorder(t.left), Entry(t.key, t.elem), Inorder(t.right);
      RankSplit(a, x, b, k);
      assert Inorder(t)[|a|] == x;
      if k < t.key {
        SpliceLeft(a, x, b, k, e);
        InsertNewInorder(t.left, k, e);
        AdjustInorder(t.(left := InsertNew(t.left, k, e)));
      } else {
        SpliceRight(a, x, b, k, e);
        InsertNewInorder(t.right, k, e);
        AdjustInorder(t.(right := InsertNew(t.right, k, e)));
      }
    }
  }

  /** avl_tree_add inserts into the sorted sequence, and keeps it when the key is there. */
  lemma InsertInorder<T>(t: Tree<T>, k: int, e: T)
    requires Sorted(Inorder(t))
    ensures Inorder(Insert(t, k, e)) == Put(Inorder(t), k, e)
  {
    LookupMeaning(t, k);
    RankMeaning(Inorder(t), k);
    if !HasKey(Inorder(t), k) { InsertNewInorder(t, k, e); }
  }

  lemma InsertNewGrows<T>(t: Tree<T>, k: int, e: T)
    requires Sorted(Inorder(t)) && Lookup(t, k).Leaf?
    ensures Sorted(Inorder(InsertNew(t, k, e))) && |Inorder(InsertNew(t, k, e))| == |Inorder(t)| + 1
  {
    InsertInorder(t, k, e);
    LookupMeaning(t, k);
    PutMeaning(Inorder(t), k, e);
    RankMeaning(Inorder(t), k);
  }

  lemma {:induction false} DropGreatestInorder<T>(t: Tree<T>)
    requires t.Node?
    ensures Inorder(DropGreatest(t)) + [Greatest(t)] == Inorder(t)
  {
    if t.right.Node? {
      DropGreatestInorder(t.right);
      AdjustInorder(t.(right := DropGreatest(t.right)));
    }
  }

  lemma {:induction false} DropLeastInorder<T>(t: Tree<T>)
    requires t.Node?
    ensures [Least(t)] + Inorder(DropLeast(t)) == Inorder(t)
  {
    if t.left.Node? {
      DropLeastInorder(t.left);
      AdjustInorder(t.(left := DropLeast(t.left)));
      assert [Least(t)] + (Inorder(DropLeast(t.left)) + [Entry(t.key, t.elem)] + Inorder(t.right))
          == ([Least(t)] + Inorder(DropLeast(t.left))) + [Entry(t.key, t.elem)] + Inorder(t.right);
    }
  }

  lemma DeleteTopInorder<T>(t: Tree<T>)
    requires t.Node?
    ensures Inorder(DeleteTop(t)) == Inorder(t.left) + Inorder(t.right)
  {
    var l, r := t.left, t.right;
    if l.Leaf? && r.Leaf? {
    } else if Height(l) > Height(r) {
      DropGreatestInorder(l);
      var m := Greatest(l);
      AdjustInorder(Node(DropGreatest(l), m.key, m.elem, r));
    } else {
      DropLeastInorder(r);
      var m := Least(r);
      AdjustInorder(Node(l, m.key, m.elem, DropLeast(r)));
      assert Inorder(l) + [m] + Inorder(DropLeast(r)) == Inorder(l) + ([m] + Inorder(DropLeast(r)));
    }
  }

  lemma {:induction false} DeleteAtInorder<T>(t: Tree<T>, k: int)
    requires Sorted(Inorder(t)) && HasKey(Inorder(t), k)
    ensures Inorder(DeleteAt(t, k)) == Remove(Inorder(t), k)
  {
    var a, x, b := Inorder(t.left), Entry(t.key, t.elem), Inorder(t.right);
    RankSplit(a, x, b, k);
    if k < t.key {
      SpliceLeft(a, x, b, k, x.elem);
      DeleteAtInorder(t.left, k);
      AdjustInorder(t.(left := DeleteAt(t.left, k)));
    } else if k > t.key {
      SpliceRight(a, x, b, k, x.elem);
      DeleteAtInorder(t.right, k);
      AdjustInorder(t.(right := DeleteAt(t.right, k)));
    } else {
      SpliceMiddle(a, x, b);
      DeleteTopInorder(t);
    }
  }

  /** avl_tree_del_by_key removes the key from the sorted sequence and nothing else. */
  lemma DeleteInorder<T>(t: Tree<T>, k: int)
    requires Sorted(Inorder(t))
    ensures Inorder(Delete(t, k)) == Remove(Inorder(t), k)
  {
    LookupMeaning(t, k);
    RankMeaning(Inorder(t), k);
    if HasKey(Inorder(t), k) { DeleteAtInorder(t, k); }
  }

  lemma DeleteShrinks<T>(t: Tree<T>, k: int)
    requires Sorted(Inorder(t)) && Lookup(t, k).Node?
    ensures Sorted(Inorder(Delete(t, k))) && |Inorder(Delete(t, k))| == |Inorder(t)| - 1
  {
    DeleteInorder(t, k);
    LookupMeaning(t, k);
    RemoveMeaning(Inorder(t), k);
    RankMeaning(Inorder(t), k);
  }
}
