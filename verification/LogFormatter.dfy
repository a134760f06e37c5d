/** The loops of lib/services/src/log/formatter.c and msg.c, proved against LogMeaning. */
module LogFormatter {
  import opened LogWriter
  import opened LogNumber
  import opened LogSpec
  import opened LogMeaning

  const MAX_ARGS := 8  // OM_LOG_MAX_ARGS

  /** A C string: the terminator is where it ends. */
  predicate NoNul(fmt: string) {
    forall i :: 0 <= i < |fmt| ==> fmt[i] != '\0'
  }

  predicate Printable(spec: LogSpec, shown: Shown) {
    (shown.Number? ==> shown.magnitude < U64) && (spec.layout.left ==> spec.layout.pad != '0')
  }

  lemma ShownPrintable(e: Env, s: string, spec: LogSpec, arg: Arg, word: int)
    requires s != "" && PieceOf(s).0 == Conversion(spec)
    ensures Printable(spec, Restored(e, spec, word))
    ensures Fits(e, spec, arg) ==> Printable(spec, Value(e, spec, arg))
  {
    ParsedMeans(s);
  }

  /** The conversions of log_format and log_format_args, given the value. */
  method Show(w: LogBufWriter, spec: LogSpec, shown: Shown)
    requires w.Valid() && Printable(spec, shown)
    modifies w`segLen, w`sent, w.seg
    ensures w.Valid() && w.Text() == old(w.Text()) + Render(spec, shown)
  {
    match shown
    case Number(magnitude, negative) =>
      FmtNum(w, magnitude, negative, Base(spec.conv), spec.conv == 'X', spec.layout);
    case Character(c) =>
      w.PutC(c);
    case Text(text) =>
      var gap := Gap(spec.layout.width, |text|);
      if !spec.layout.left {
        FmtPad(w, ' ', gap);
      }
      w.Write(text);
      if spec.layout.left {
        FmtPad(w, ' ', gap);
      }
  }

  /** What a branch of either loop does with the piece at `at`: literal text, or the specification to convert. */
  method NextPiece(w: LogBufWriter, fmt: string, at: nat)
    returns (conversion: bool, spec: LogSpec, n: nat, ghost piece: Piece)
    requires w.Valid() && at < |fmt| && NoNul(fmt)
    modifies w`segLen, w`sent, w.seg
    ensures w.Valid() && at < at + n <= |fmt| && (piece, n) == PieceOf(fmt[at..]) && conversion == piece.Conversion?
    ensures if conversion then piece == Conversion(spec) && w.Text() == old(w.Text())
            else w.Text() == old(w.Text()) + piece.text
  {
    piece := PieceOf(fmt[at..]).0;
    conversion, spec, n := false, LogSpec('\0', false, Layout(0, ' ', false)), 1;
    if fmt[at] != '%' {
      w.PutC(fmt[at]);
      return;
    }
    var next;
    spec, next := SpecNext(fmt, at);
    n := next - at;
    if spec.conv == '\0' {
      w.Write(fmt[at..next]);
      assert fmt[at..next] == fmt[at..];
    } else if spec.conv == '%' {
      w.PutC('%');
    } else if Known(spec.conv) {
      conversion := true;
    } else {
      w.Write(fmt[at..next]);
      assert fmt[at..next] == fmt[at..][..next - at];
    }
  }

  lemma Regroup(a: string, b: string, c: string)
    ensures a + (b + c) == a + b + c
  {
  }

  /** From `i` on the format loop has still to print what makes `text` up to `all`. */
  ghost predicate ToPrint(e: Env, fmt: string, args: seq<Arg>, i: nat, a: nat, text: string, all: string)
  {
    i <= |fmt| && a <= |args| && AllFit(e, fmt[i..], args[a..]) && text + Direct(e, fmt[i..], args[a..]) == all
  }

  lemma PrintStep(e: Env, fmt: string, args: seq<Arg>, i: nat, a: nat, text: string, all: string, piece: Piece, n: nat)
    requires i < |fmt| && (piece, n) == PieceOf(fmt[i..]) && ToPrint(e, fmt, args, i, a, text, all)
    ensures if piece.Conversion? then
              a < |args| && Fits(e, piece.spec, args[a]) &&
              ToPrint(e, fmt, args, i + n, a + 1, text + Render(piece.spec, Value(e, piece.spec, args[a])), all)
            else ToPrint(e, fmt, args, i + n, a, text + piece.text, all)
  {
    assert fmt[i..][n..] == fmt[i + n..];
    if piece.Conversion? {
      assert args[a..][1..] == args[a + 1..];
      Regroup(text, Render(piece.spec, Value(e, piece.spec, args[a])), Direct(e, fmt[i + n..], args[a + 1..]));
    } else {
      Regroup(text, piece.text, Direct(e, fmt[i + n..], args[a..]));
    }
  }

  lemma PrintDone(e: Env, fmt: string, args: seq<Arg>, a: nat, text: string, all: string)
    requires ToPrint(e, fmt, args, |fmt|, a, text, all)
    ensures text == all
  {
    assert fmt[|fmt|..] == "" && text + "" == text;
  }

  /** The body of the loop of log_format. */
  method PrintPiece(e: Env, w: LogBufWriter, fmt: string, args: seq<Arg>, i: nat, a: nat, ghost all: string)
    returns (next: nat, more: nat)
    requires w.Valid() && NoNul(fmt) && i < |fmt| && ToPrint(e, fmt, args, i, a, w.Text(), all)
    modifies w`segLen, w`sent, w.seg
    ensures i < next && w.Valid() && ToPrint(e, fmt, args, next, more, w.Text(), all)
  {
    ghost var text := w.Text();
    ghost var piece;
    var conversion, spec;
    more := a;
    var n;
    conversion, spec, n, piece := NextPiece(w, fmt, i);
    next := i + n;
    PrintStep(e, fmt, args, i, a, text, all, piece, n);
    if conversion {
      ShownPrintable(e, fmt[i..], spec, args[a], 0);
      Show(w, spec, Value(e, spec, args[a]));
      more := a + 1;
    }
  }

  /** log_format */
  method Format(e: Env, w: LogBufWriter, fmt: string, args: seq<Arg>)
    requires w.Valid() && NoNul(fmt) && AllFit(e, fmt, args)
    modifies w, w.seg
    ensures w.Valid() && w.segLen == 0 && w.Text() == Concat(w.sent) == old(w.Text()) + Direct(e, fmt, args)
  {
    var i, a := 0, 0;
    ghost var all := w.Text() + Direct(e, fmt, args);
    assert fmt[0..] == fmt && args[0..] == args;
    while i < |fmt|
      invariant w.Valid() && ToPrint(e, fmt, args, i, a, w.Text(), all)
    {
      i, a := PrintPiece(e, w, fmt, args, i, a, all);
    }
    PrintDone(e, fmt, args, a, w.Text(), all);
    w.Flush();
  }

  /** LOG_ARG on the words from ai on, and where it leaves the index. */
  function ArgAt(words: seq<int>, ai: nat): int {
    if ai < |words| then words[ai] else 0
  }

  function AfterArg(words: seq<int>, ai: nat): nat {
    if ai < |words| then ai + 1 else ai
  }

  /** One turn of the loop of log_format_args at i, with the words from ai on, prints `out` and takes n characters. */
  ghost predicate Prints(e: Env, fmt: string, words: seq<int>, i: nat, ai: nat, out: string, n: nat, more: nat) {
    i < |fmt| && PieceOf(fmt[i..]).1 == n &&
    var piece := PieceOf(fmt[i..]).0;
    if piece.Conversion? then
      out == Render(piece.spec, Restored(e, piece.spec, ArgAt(words, ai))) && more == AfterArg(words, ai)
    else out == piece.text && more == ai
  }

  /** From `i` on the loop has still to print what makes `text` up to `all`. */
  ghost predicate ToPrintLater(e: Env, fmt: string, words: seq<int>, i: nat, ai: nat, text: string, all: string) {
    i <= |fmt| && ai <= |words| && text + Deferred(e, fmt[i..], words[ai..]) == all
  }

  lemma LaterStep(e: Env, fmt: string, words: seq<int>, i: nat, ai: nat, text: string, all: string,
                  out: string, n: nat, more: nat)
    requires ToPrintLater(e, fmt, words, i, ai, text, all) && Prints(e, fmt, words, i, ai, out, n, more)
    ensures ToPrintLater(e, fmt, words, i + n, more, text + out, all)
  {
    assert fmt[i..][n..] == fmt[i + n..];
    var left := words[ai..];
    assert RestWords(left) == words[AfterArg(words, ai)..] && FirstWord(left) == ArgAt(words, ai);
    Regroup(text, out, Deferred(e, fmt[i + n..], words[more..]));
  }

  lemma LaterDone(e: Env, fmt: string, words: seq<int>, ai: nat, text: string, all: string)
    requires ToPrintLater(e, fmt, words, |fmt|, ai, text, all)
    ensures text == all
  {
    assert fmt[|fmt|..] == "" && text + "" == text;
  }

  /** The body of the loop of log_format_args. */
  method PrintLaterPiece(e: Env, w: LogBufWriter, fmt: string, words: seq<int>, i: nat, ai: nat)
    returns (n: nat, more: nat, ghost out: string)
    requires w.Valid() && NoNul(fmt) && i < |fmt|
    modifies w`segLen, w`sent, w.seg
    ensures w.Valid() && w.Text() == old(w.Text()) + out && 0 < n && Prints(e, fmt, words, i, ai, out, n, more)
  {
    ghost var piece;
    var conversion, spec;
    more := ai;
    conversion, spec, n, piece := NextPiece(w, fmt, i);
    if conversion {
      var shown := Restored(e, spec, ArgAt(words, ai));
      more := AfterArg(words, ai);
      ShownPrintable(e, fmt[i..], spec, Int(0), ArgAt(words, ai));
      out := Render(spec, shown);
      Show(w, spec, shown);
    } else {
      out := piece.text;
    }
  }

  method PrintLaterOnce(e: Env, w: LogBufWriter, fmt: string, words: seq<int>, i: nat, ai: nat, ghost all: string)
    returns (next: nat, more: nat)
    requires w.Valid() && NoNul(fmt) && i < |fmt| && ToPrintLater(e, fmt, words, i, ai, w.Text(), all)
    modifies w`segLen, w`sent, w.seg
    ensures i < next && w.Valid() && ToPrintLater(e, fmt, words, next, more, w.Text(), all)
  {
    ghost var text := w.Text();
    var n;
    ghost var out;
    n, more, out := PrintLaterPiece(e, w, fmt, words, i, ai);
    LaterStep(e, fmt, words, i, ai, text, all, out, n, more);
    next := i + n;
  }

  /** log_format_args */
  method FormatArgs(e: Env, w: LogBufWriter, fmt: string, words: seq<int>)
    requires w.Valid() && NoNul(fmt)
    modifies w, w.seg
    ensures w.Valid() && w.segLen == 0 && w.Text() == Concat(w.sent) == old(w.Text()) + Deferred(e, fmt, words)
  {
    var i, ai := 0, 0;
    ghost var all := w.Text() + Deferred(e, fmt, words);
    assert fmt[0..] == fmt && words[0..] == words;
    while i < |fmt|
      invariant w.Valid() && ToPrintLater(e, fmt, words, i, ai, w.Text(), all)
    {
      i, ai := PrintLaterOnce(e, w, fmt, words, i, ai, all);
    }
    LaterDone(e, fmt, words, ai, w.Text(), all);
    w.Flush();
  }

  /** What the count loop and the capture loop find at `at`: whether an argument goes with it, and which. */
  method ScanPiece(fmt: string, at: nat) returns (takes: bool, spec: LogSpec, next: nat, ghost piece: Piece)
    requires at < |fmt| && NoNul(fmt)
    ensures at < next <= |fmt| && (piece, next - at) == PieceOf(fmt[at..])
    ensures takes == !piece.Literal? && (takes ==> piece.spec == spec)
  {
    piece := PieceOf(fmt[at..]).0;
    takes, spec, next := false, LogSpec('\0', false, Layout(0, ' ', false)), at + 1;
    if fmt[at] == '%' {
      spec, next := SpecNext(fmt, at);
      takes := spec.conv != '\0' && spec.conv != '%';
    }
  }

  /** log_msg_count_args */
  method CountArgs(fmt: string) returns (count: nat)
    requires NoNul(fmt)
    ensures count == Count(fmt)
  {
    var i := 0;
    count := 0;
    assert fmt[0..] == fmt;
    while i < |fmt|
      invariant i <= |fmt| && count + Count(fmt[i..]) == Count(fmt)
    {
      ghost var rest := fmt[i..];
      var takes, _, next, _ := ScanPiece(fmt, i);
      assert rest[PieceOf(rest).1..] == fmt[next..];
      if takes {
        count := count + 1;
      }
      i := next;
    }
  }

  /** OmLogMsg, for what formatting needs of it. */
  class LogMsg {
    const argBuf: array<int>
    var argCount: nat
    var fmt: string

    constructor ()
      ensures fresh(argBuf) && argBuf.Length == MAX_ARGS
    {
      argBuf := new int[MAX_ARGS];
      argCount, fmt := 0, "";
    }

    /** log_msg_build.  `dropped` is the counter of messages with too many arguments, and its new value. */
    method Build(e: Env, fmt: string, args: seq<Arg>, dropped: nat) returns (ok: bool, dropped': nat)
      requires NoNul(fmt) && argBuf.Length == MAX_ARGS && AllTakable(e, fmt, args)
      modifies this, argBuf
      ensures ok <==> Count(fmt) <= MAX_ARGS
      ensures ok ==> this.fmt == fmt && argCount == Count(fmt) && argBuf[..argCount] == Captured(e, fmt, args)
      ensures dropped' == if ok then dropped else (dropped + 1) % U32
      ensures !ok ==> this.fmt == old(this.fmt) && argCount == old(argCount) && argBuf[..] == old(argBuf[..])
    {
      var n := CountArgs(fmt);
      if n > MAX_ARGS {
        return false, (dropped + 1) % U32;
      }
      ok, dropped' := true, dropped;
      this.fmt, argCount := fmt, 0;
      Fill(e, fmt, args);
    }

    /** The capture loop of log_msg_build. */
    method Fill(e: Env, fmt: string, args: seq<Arg>)
      requires NoNul(fmt) && argBuf.Length == MAX_ARGS && AllTakable(e, fmt, args)
      requires argCount == 0 && Count(fmt) <= MAX_ARGS
      modifies this`argCount, argBuf
      ensures argCount == Count(fmt) && argBuf[..argCount] == Captured(e, fmt, args)
    {
      var i := 0;
      ghost var all := Captured(e, fmt, args);
      CountIsCaptured(e, fmt, args);
      assert fmt[0..] == fmt && args[0..] == args && all[0..] == all;
      while i < |fmt|
        invariant ToCapture(e, fmt, args, i, argCount, all) && argBuf[..argCount] == all[..argCount]
      {
        i := FillStep(e, fmt, args, i, all);
      }
      CaptureDone(e, fmt, args, argCount, all);
    }

    method Push(word: int)
      requires argCount < argBuf.Length
      modifies this`argCount, argBuf
      ensures argCount == old(argCount) + 1 <= argBuf.Length && argBuf[..argCount] == old(argBuf[..argCount]) + [word]
    {
      argBuf[argCount] := word;
      argCount := argCount + 1;
    }

    /** The body of the capture loop. */
    method FillStep(e: Env, fmt: string, args: seq<Arg>, i: nat, ghost all: seq<int>) returns (next: nat)
      requires NoNul(fmt) && argBuf.Length == MAX_ARGS && i < |fmt| && |all| <= MAX_ARGS
      requires ToCapture(e, fmt, args, i, argCount, all) && argBuf[..argCount] == all[..argCount]
      modifies this`argCount, argBuf
      ensures i < next && ToCapture(e, fmt, args, next, argCount, all) && argBuf[..argCount] == all[..argCount]
    {
      var takes, spec, end := ScanToCapture(e, fmt, args, i, argCount, all);
      next := end;
      if takes {
        ghost var a := argCount;
        Push(Capture(e, spec, args[argCount]));
        assert all[..a + 1] == all[..a] + [all[a]];
      }
    }
  }

  method ScanToCapture(e: Env, fmt: string, args: seq<Arg>, i: nat, ghost a: nat, ghost all: seq<int>)
    returns (takes: bool, spec: LogSpec, next: nat)
    requires NoNul(fmt) && i < |fmt| && ToCapture(e, fmt, args, i, a, all)
    ensures i < next && ToCapture(e, fmt, args, next, if takes then a + 1 else a, all)
    ensures takes ==> a < |args| && a < |all| && all[a] == Capture(e, spec, args[a])
  {
    ghost var piece;
    takes, spec, next, piece := ScanPiece(fmt, i);
    CaptureStep(e, fmt, args, i, a, all, piece, next - i);
  }

  /** The first word is the first argument's, and the others are the rest's. */
  lemma CapturedStep(e: Env, fmt: string, args: seq<Arg>)
    requires fmt != "" && AllTakable(e, fmt, args)
    ensures var (piece, n) := PieceOf(fmt); var words := Captured(e, fmt, args);
            if piece.Literal? then AllTakable(e, fmt[n..], args) && words == Captured(e, fmt[n..], args)
            else args != [] && words != [] && AllTakable(e, fmt[n..], args[1..]) &&
                 words[1..] == Captured(e, fmt[n..], args[1..]) &&
                 words[0] == Capture(e, piece.spec, args[0])
  {
    var (piece, n) := PieceOf(fmt);
    if !piece.Literal? {
      var words := Captured(e, fmt, args);
      assert words == [words[0]] + Captured(e, fmt[n..], args[1..]);
    }
  }

  /** From `i` on the capture loop has still to add the words of `all` from a on. */
  ghost predicate ToCapture(e: Env, fmt: string, args: seq<Arg>, i: nat, a: nat, all: seq<int>)
  {
    i <= |fmt| && a <= |args| && a <= |all| &&
    AllTakable(e, fmt[i..], args[a..]) && Captured(e, fmt[i..], args[a..]) == all[a..]
  }

  lemma CaptureDone(e: Env, fmt: string, args: seq<Arg>, a: nat, all: seq<int>)
    requires ToCapture(e, fmt, args, |fmt|, a, all)
    ensures a == |all| && all[..a] == all
  {
    assert fmt[|fmt|..] == "";
  }

  lemma CaptureStep(e: Env, fmt: string, args: seq<Arg>, i: nat, a: nat, all: seq<int>, piece: Piece, n: nat)
    requires i < |fmt| && (piece, n) == PieceOf(fmt[i..]) && ToCapture(e, fmt, args, i, a, all)
    ensures ToCapture(e, fmt, args, i + n, if piece.Literal? then a else a + 1, all)
    ensures !piece.Literal? ==> a < |args| && a < |all| && all[a] == Capture(e, piece.spec, args[a])
  {
    CapturedStep(e, fmt[i..], args[a..]);
    assert fmt[i..][n..] == fmt[i + n..];
    if a < |args| && a < |all| {
      assert args[a..][1..] == args[a + 1..] && all[a..][1..] == all[a + 1..];
    }
  }
}
