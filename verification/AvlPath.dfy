/** Paths from a place in a tree to its root, and the upward walk along them. */
module AvlPath {
  import opened AvlSpec

  /** The way up from a hole in a tree: at each step the node above, and its other subtree. */
  datatype Path<+T> = Root
                    | FromLeft(up: Path<T>, key: int, elem: T, right: Tree<T>)
                    | FromRight(up: Path<T>, left: Tree<T>, key: int, elem: T)

  /** The subtree of the node above the hole, once the hole is filled. */
  function Fill<T>(p: Path<T>, t: Tree<T>): (u: Tree<T>)
    requires !p.Root?
    ensures u.Node? && u.elem == p.elem
  {
    match p
    case FromLeft(_, k, e, r) => Node(t, k, e, r)
    case FromRight(_, l, k, e) => Node(l, k, e, t)
  }

  /** Fill the hole and adjust every node from there to the root. */
  function Resume<T>(p: Path<T>, t: Tree<T>): Tree<T> {
    if p.Root? then t else Resume(p.up, Adjust(Fill(p, t)))
  }

  /** The path that goes up p and then on along base. */
  function Over<T>(p: Path<T>, base: Path<T>): Path<T> {
    match p
    case Root => base
    case FromLeft(up, k, e, r) => FromLeft(Over(up, base), k, e, r)
    case FromRight(up, l, k, e) => FromRight(Over(up, base), l, k, e)
  }

  /** Walking up a joined path is walking up its two parts in turn. */
  lemma {:induction false} ResumeOver<T>(p: Path<T>, base: Path<T>, t: Tree<T>)
    ensures Resume(Over(p, base), t) == Resume(base, Resume(p, t))
    decreases p
  {
    if !p.Root? { ResumeOver(p.up, base, Adjust(Fill(p, t))); }
  }
}
