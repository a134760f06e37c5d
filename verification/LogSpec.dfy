/** The grammar of a conversion specification: log_spec_next of lib/services/src/log/formatter.c. */
module LogSpec {
  import opened LogNumber

  /** `conv` is NUL when the format ends inside the specification. */
  datatype LogSpec = LogSpec(conv: char, isLong: bool, layout: Layout)

  predicate IsDigit(c: char) {
    '0' <= c <= '9'
  }

  predicate FlagChar(c: char) {
    c == '-' || c == 'l' || IsDigit(c)
  }

  /** The flags, digits and length modifiers that s begins with. */
  function FlagRun(s: string): (run: string)
    ensures |run| <= |s| && run == s[..|run|]
  {
    if s != "" && FlagChar(s[0]) then [s[0]] + FlagRun(s[1..]) else ""
  }

  /** All the digits of the run, read as one decimal number. */
  function WidthOf(run: string): nat {
    if run == "" then 0
    else
      var w, c := WidthOf(run[..|run| - 1]), run[|run| - 1];
      if IsDigit(c) then w * 10 + (c as int - '0' as int) else w
  }

  predicate HasDigit(run: string) {
    exists i :: 0 <= i < |run| && IsDigit(run[i])
  }

  predicate FirstDigitIsZero(run: string) {
    run != "" && if IsDigit(run[0]) then run[0] == '0' else FirstDigitIsZero(run[1..])
  }

  /** '-' wins over '0', wherever it stands; and '0' counts only as the first digit. */
  function PadOf(run: string): char {
    if '-' !in run && FirstDigitIsZero(run) then '0' else ' '
  }

  function LayoutOf(run: string): Layout {
    Layout(WidthOf(run), PadOf(run), '-' in run)
  }

  /** What the specification at the start of s means. */
  function SpecOf(s: string): LogSpec
    requires s != "" && s[0] == '%'
  {
    var run := FlagRun(s[1..]);
    LogSpec(if 1 + |run| < |s| then s[1 + |run|] else '\0', 'l' in run, LayoutOf(run))
  }

  function SpecLength(s: string): (n: nat)
    requires s != "" && s[0] == '%'
    ensures 0 < n <= |s|
  {
    var run := FlagRun(s[1..]);
    if 1 + |run| < |s| then |run| + 2 else |s|
  }

  // ----- the scan -----

  lemma {:induction false} FlagRunIs(s: string, k: nat)
    requires k <= |s| && (forall i :: 0 <= i < k ==> FlagChar(s[i])) && (k == |s| || !FlagChar(s[k]))
    ensures FlagRun(s) == s[..k]
  {
    if k > 0 {
      FlagRunIs(s[1..], k - 1);
      assert s[..k] == [s[0]] + s[1..][..k - 1];
    }
  }

  lemma {:induction false} FirstDigitAppend(run: string, c: char)
    ensures FirstDigitIsZero(run + [c]) == if HasDigit(run) then FirstDigitIsZero(run) else c == '0'
  {
    if run == "" {
      assert run + [c] == [c];
    } else {
      assert (run + [c])[1..] == run[1..] + [c];
      FirstDigitAppend(run[1..], c);
      assert HasDigit(run[1..]) ==> HasDigit(run) by {
        if i :| 0 <= i < |run[1..]| && IsDigit(run[1..][i]) { assert IsDigit(run[i + 1]); }
      }
      assert HasDigit(run) && !IsDigit(run[0]) ==> HasDigit(run[1..]) by {
        if i :| 0 <= i < |run| && IsDigit(run[i]) { assert i > 0 ==> IsDigit(run[1..][i - 1]); }
      }
    }
  }

  /** While the width is zero every digit so far was '0'. */
  lemma {:induction false} ZeroWidth(run: string)
    ensures WidthOf(run) == 0 && HasDigit(run) ==> FirstDigitIsZero(run)
    ensures WidthOf(run) > 0 || FirstDigitIsZero(run) ==> HasDigit(run)
  {
    if run != "" {
      var front, c := run[..|run| - 1], run[|run| - 1];
      assert run == front + [c];
      ZeroWidth(front);
      FirstDigitAppend(front, c);
      assert IsDigit(c) ==> HasDigit(run) by { assert run[|run| - 1] == c; }
      assert HasDigit(front) ==> HasDigit(run) by {
        if i :| 0 <= i < |front| && IsDigit(front[i]) { assert IsDigit(run[i]); }
      }
    }
  }

  /** One more character of the run changes the layout as the loop of log_spec_next does. */
  lemma LayoutAppend(run: string, c: char)
    requires FlagChar(c)
    ensures LayoutOf(run + [c]) == AddFlag(LayoutOf(run), c)
  {
    FirstDigitAppend(run, c);
    ZeroWidth(run);
    assert (run + [c])[..|run|] == run;
    assert '-' in run + [c] <==> '-' in run || c == '-';
  }

  // ----- the same, left to right -----

  /** What one more character of a specification does to its layout. */
  function AddFlag(l: Layout, c: char): Layout {
    if c == '-' then Layout(l.width, ' ', true)
    else if c == '0' && l.width == 0 && !l.left then Layout(l.width, '0', l.left)
    else if IsDigit(c) then Layout(l.width * 10 + (c as int - '0' as int), l.pad, l.left)
    else l
  }

  /** The rest of the scan of s from k on: the specification and where it ends. */
  function Scan(s: string, k: nat, isLong: bool, l: Layout): (r: (LogSpec, nat))
    requires k <= |s|
    ensures k <= r.1 <= |s|
    decreases |s| - k
  {
    if k == |s| then (LogSpec('\0', isLong, l), k)
    else if FlagChar(s[k]) then Scan(s, k + 1, isLong || s[k] == 'l', AddFlag(l, s[k]))
    else (LogSpec(s[k], isLong, l), k + 1)
  }

  /** The specification at the start of s, and its length. */
  function Parsed(s: string): (r: (LogSpec, nat))
    requires s != "" && s[0] == '%'
    ensures 0 < r.1 <= |s|
  {
    Scan(s, 1, false, Layout(0, ' ', false))
  }

  lemma {:induction false} ScanMeans(s: string, k: nat)
    requires s != "" && s[0] == '%' && 1 <= k <= |s| && forall i :: 1 <= i < k ==> FlagChar(s[i])
    ensures Scan(s, k, 'l' in s[1..k], LayoutOf(s[1..k])) == (SpecOf(s), SpecLength(s))
    decreases |s| - k
  {
    if k < |s| && FlagChar(s[k]) {
      assert s[1..k + 1] == s[1..k] + [s[k]];
      LayoutAppend(s[1..k], s[k]);
      ScanMeans(s, k + 1);
    } else {
      FlagRunIs(s[1..], k - 1);
      assert s[1..][..k - 1] == s[1..k];
      assert k < |s| ==> s[1..][k - 1] == s[k];
    }
  }

  /** The scan finds what the whole specification means. */
  lemma ParsedMeans(s: string)
    requires s != "" && s[0] == '%'
    ensures Parsed(s) == (SpecOf(s), SpecLength(s))
  {
    assert s[1..1] == "";
    ScanMeans(s, 1);
  }

  /** log_spec_next: it returns the specification at `at`, and where the format goes on. */
  method SpecNext(fmt: string, at: nat) returns (spec: LogSpec, next: nat)
    requires at < |fmt| && fmt[at] == '%'
    ensures at < next <= |fmt| && (spec, next - at) == Parsed(fmt[at..]) == (SpecOf(fmt[at..]), SpecLength(fmt[at..]))
  {
    var p := at + 1;
    var isLong, pad, left := false, ' ', false;
    var width: nat := 0;
    ghost var s := fmt[at..];
    ParsedMeans(s);
    while p < |fmt| && FlagChar(fmt[p])
      invariant at < p <= |fmt| && Scan(s, p - at, isLong, Layout(width, pad, left)) == Parsed(s)
    {
      var c := fmt[p];
      if c == '-' {
        left, pad := true, ' ';
      } else if c == '0' && width == 0 && !left {
        pad := '0';
      } else if IsDigit(c) {
        width := width * 10 + (c as int - '0' as int);
      } else {
        isLong := true;
      }
      p := p + 1;
    }
    spec := LogSpec(if p < |fmt| then fmt[p] else '\0', isLong, Layout(width, pad, left));
    next := if p < |fmt| then p + 1 else p;
  }
}
