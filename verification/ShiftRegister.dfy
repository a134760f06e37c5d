/** Shift registers with linear feedback, for any type of register.  What a check sum needs of its register is
    stated as laws; from them follows that it notices every short burst of changed bits. */
module ShiftRegister {
  import opened BitStream

  /** `step` takes in one bit, `shift` is the step for bit 0, `add` is addition without carry, `cons` puts a bit
      before a word, and `fits` says that a word has no bits from the n-th on. */
  datatype Machine<!R> = Machine(
    width: int, zero: R, step: (R, bool) -> R, shift: R -> R, add: (R, R) -> R, cons: (bool, R) -> R,
      fits: (R, int) -> bool)

  /** A step adds the bit and shifts, and shifting is linear. */
  ghost predicate StepAdds<R(!new)>(m: Machine<R>) {
    forall c: R, b: bool, w: R :: m.fits(w, m.width - 1) ==> m.add(m.step(c, b), w) == m.shift(m.add(c, m.cons(b, w)))
  }

  ghost predicate ZeroBit<R(!new)>(m: Machine<R>) {
    forall c: R :: m.step(c, false) == m.shift(c) && m.add(c, m.zero) == c
  }

  /** Every step can be run back, and a summand can be taken off again. */
  ghost predicate Reversible<R(!new)>(m: Machine<R>) {
    (forall a: R, b: R :: m.shift(a) == m.shift(b) ==> a == b) &&
    (forall a: R, b: R, x: bool :: m.step(a, x) == m.step(b, x) ==> a == b) &&
    (forall a: R, u: R, v: R :: m.add(a, u) == m.add(a, v) ==> u == v)
  }

  ghost predicate WordsFit<R(!new)>(m: Machine<R>) {
    m.fits(m.zero, 0) &&
    (forall b: bool, w: R, n: int :: 0 <= n < m.width && m.fits(w, n) ==> m.fits(m.cons(b, w), n + 1)) &&
    (forall w: R, n: int :: 0 <= n < m.width && m.fits(w, n) ==> m.fits(w, m.width - 1))
  }

  ghost predicate WordsDiffer<R(!new)>(m: Machine<R>) {
    forall x: bool, y: bool, u: R, v: R ::
      m.fits(u, m.width - 1) && m.fits(v, m.width - 1) && m.cons(x, u) == m.cons(y, v) ==> x == y && u == v
  }

  ghost predicate Lawful<R(!new)>(m: Machine<R>) {
    0 < m.width && StepAdds(m) && ZeroBit(m) && Reversible(m) && WordsFit(m) && WordsDiffer(m)
  }

  // ----- streams of bits -----

  /** The register after a stream of bits. */
  function Feed<R>(m: Machine<R>, c: R, bits: seq<bool>): R {
    if bits == [] then c else m.step(Feed(m, c, bits[..|bits| - 1]), bits[|bits| - 1])
  }

  function Shifts<R>(m: Machine<R>, c: R, n: nat): R
    decreases n
  {
    if n == 0 then c else Shifts(m, m.shift(c), n - 1)
  }

  /** A few bits as a word, the first one lowest. */
  function Word<R>(m: Machine<R>, bits: seq<bool>): R {
    if bits == [] then m.zero else m.cons(bits[0], Word(m, bits[1..]))
  }

  lemma {:induction false} FeedAppend<R>(m: Machine<R>, c: R, s: seq<bool>, t: seq<bool>)
    ensures Feed(m, c, s + t) == Feed(m, Feed(m, c, s), t)
  {
    if t == [] {
      assert s + t == s;
    } else {
      FeedAppend(m, c, s, t[..|t| - 1]);
      assert (s + t)[..|s + t| - 1] == s + t[..|t| - 1];
    }
  }

  lemma FeedFront<R>(m: Machine<R>, c: R, b: bool, rest: seq<bool>)
    ensures Feed(m, c, [b] + rest) == Feed(m, m.step(c, b), rest)
  {
    FeedAppend(m, c, [b], rest);
    assert [b][..0] == [];
  }

  /** Different registers stay different. */
  lemma {:induction false} FeedInjective<R(!new)>(m: Machine<R>, a: R, b: R, bits: seq<bool>)
    requires Lawful(m) && Feed(m, a, bits) == Feed(m, b, bits)
    ensures a == b
  {
    if bits != [] {
      var front, last := bits[..|bits| - 1], bits[|bits| - 1];
      assert m.step(Feed(m, a, front), last) == m.step(Feed(m, b, front), last);
      FeedInjective(m, a, b, front);
    }
  }

  lemma {:induction false} ShiftsInjective<R(!new)>(m: Machine<R>, a: R, b: R, n: nat)
    requires Lawful(m) && Shifts(m, a, n) == Shifts(m, b, n)
    ensures a == b
    decreases n
  {
    if n > 0 {
      ShiftsInjective(m, m.shift(a), m.shift(b), n - 1);
    }
  }

  // ----- a few bits at once -----

  lemma {:induction false} WordFits<R(!new)>(m: Machine<R>, bits: seq<bool>)
    requires Lawful(m) && |bits| <= m.width
    ensures m.fits(Word(m, bits), |bits|)
  {
    if bits != [] {
      WordFits(m, bits[1..]);
      var b, w, n := bits[0], Word(m, bits[1..]), |bits| - 1;
      assert m.fits(w, n) ==> m.fits(m.cons(b, w), n + 1);
    }
  }

  lemma ConsUnique<R(!new)>(m: Machine<R>, x: bool, y: bool, u: R, v: R, n: nat)
    requires Lawful(m) && n < m.width && m.fits(u, n) && m.fits(v, n) && m.cons(x, u) == m.cons(y, v)
    ensures x == y && u == v
  {
    assert m.fits(u, m.width - 1) && m.fits(v, m.width - 1);
  }

  lemma {:induction false} WordUnique<R(!new)>(m: Machine<R>, s: seq<bool>, t: seq<bool>)
    requires Lawful(m) && |s| == |t| <= m.width && Word(m, s) == Word(m, t)
    ensures s == t
  {
    if s != [] {
      WordFits(m, s[1..]);
      WordFits(m, t[1..]);
      ConsUnique(m, s[0], t[0], Word(m, s[1..]), Word(m, t[1..]), |s| - 1);
      WordUnique(m, s[1..], t[1..]);
      assert s == [s[0]] + s[1..] && t == [t[0]] + t[1..];
    }
  }

  /** Up to `width` bits act like their word added to the register beforehand. */
  lemma {:induction false} FeedIsShifts<R(!new)>(m: Machine<R>, c: R, bits: seq<bool>)
    requires Lawful(m) && |bits| <= m.width
    ensures Feed(m, c, bits) == Shifts(m, m.add(c, Word(m, bits)), |bits|)
    decreases |bits|
  {
    if bits != [] {
      var b, rest := bits[0], bits[1..];
      assert bits == [b] + rest;
      FeedFront(m, c, b, rest);
      FeedIsShifts(m, m.step(c, b), rest);
      WordFits(m, rest);
      StepLaw(m, c, b, Word(m, rest), |rest|);
    }
  }

  /** Another start value is the same as a change of the first bits. */
  lemma StartMoves<R(!new)>(m: Machine<R>, c: R, d: R, u: seq<bool>, v: seq<bool>, rest: seq<bool>)
    requires Lawful(m) && |u| == |v| <= m.width && m.add(c, Word(m, u)) == m.add(d, Word(m, v))
    ensures Feed(m, c, u + rest) == Feed(m, d, v + rest)
  {
    FeedAppend(m, c, u, rest);
    FeedAppend(m, d, v, rest);
    FeedIsShifts(m, c, u);
    FeedIsShifts(m, d, v);
  }

  /** Every bit the other way round. */
  function Flipped(bits: seq<bool>): seq<bool> {
    seq(|bits|, i requires 0 <= i < |bits| => !bits[i])
  }

  /** w with n zeros before it. */
  function Raised<R>(m: Machine<R>, w: R, n: nat): R {
    if n == 0 then w else m.cons(false, Raised(m, w, n - 1))
  }

  lemma {:induction false} RaisedFits<R(!new)>(m: Machine<R>, w: R, k: nat, n: nat)
    requires Lawful(m) && k + n <= m.width && m.fits(w, k)
    ensures m.fits(Raised(m, w, n), k + n)
  {
    if n > 0 { RaisedFits(m, w, k, n - 1); }
  }

  lemma StepLaw<R(!new)>(m: Machine<R>, c: R, b: bool, w: R, n: nat)
    requires Lawful(m) && n < m.width && m.fits(w, n)
    ensures m.add(m.step(c, b), w) == m.shift(m.add(c, m.cons(b, w)))
  {
    assert m.fits(w, m.width - 1);
  }

  /** What stands n bits up in the register comes down unchanged in n shifts. */
  lemma {:induction false} RaisedShifts<R(!new)>(m: Machine<R>, c: R, w: R, k: nat, n: nat)
    requires Lawful(m) && k + n <= m.width && m.fits(w, k)
    ensures Shifts(m, m.add(c, Raised(m, w, n)), n) == m.add(Shifts(m, c, n), w)
    decreases n
  {
    if n == 0 {
    } else {
      RaisedStep(m, c, w, k, n);
      RaisedShifts(m, m.shift(c), w, k, n - 1);
    }
  }

  lemma RaisedStep<R(!new)>(m: Machine<R>, c: R, w: R, k: nat, n: nat)
    requires Lawful(m) && k + n <= m.width && m.fits(w, k) && n > 0
    ensures m.shift(m.add(c, Raised(m, w, n))) == m.add(m.shift(c), Raised(m, w, n - 1))
  {
    RaisedFits(m, w, k, n - 1);
    StepLaw(m, c, false, Raised(m, w, n - 1), k + n - 1);
    assert m.step(c, false) == m.shift(c);
  }

  // ----- bursts -----

  /** Any change confined to `width` consecutive bits of a stream of any length changes the register. */
  lemma BurstDetected<R(!new)>(m: Machine<R>, c: R, s: seq<bool>, t: seq<bool>, at: nat, n: nat)
    requires Lawful(m) && DifferWithin(s, t, at, n) && n <= m.width && s != t
    ensures Feed(m, c, s) != Feed(m, c, t)
  {
    var pre, post := s[..at], s[at + n..];
    var u, v := s[at..at + n], t[at..at + n];
    assert s == pre + (u + post) && t == pre + (v + post);
    if Feed(m, c, s) == Feed(m, c, t) {
      var a := Feed(m, c, pre);
      FeedAppend(m, c, pre, u + post);
      FeedAppend(m, c, pre, v + post);
      FeedAppend(m, a, u, post);
      FeedAppend(m, a, v, post);
      FeedInjective(m, Feed(m, a, u), Feed(m, a, v), post);
      SameRegister(m, a, u, v);
    }
  }

  lemma SameRegister<R(!new)>(m: Machine<R>, a: R, u: seq<bool>, v: seq<bool>)
    requires Lawful(m) && |u| == |v| <= m.width && Feed(m, a, u) == Feed(m, a, v)
    ensures u == v
  {
    FeedIsShifts(m, a, u);
    FeedIsShifts(m, a, v);
    ShiftsInjective(m, m.add(a, Word(m, u)), m.add(a, Word(m, v)), |u|);
    WordUnique(m, u, v);
  }
}
