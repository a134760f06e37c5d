/** Formatting now (log_format) against capturing the arguments and formatting later (log_msg_build and
    log_format_args), in lib/services/src/log/formatter.c and msg.c. */
module LogMeaning {
  import opened LogNumber
  import opened LogSpec

  const U32: int := 0x1_0000_0000
  const U64: int := 0x1_0000_0000_0000_0000

  /** The platform: the widths of long and of uintptr_t, whether char is signed, and the strings in memory. */
  datatype Env = Env(longIs64: bool, pointerIs64: bool, charSigned: bool, strings: map<int, string>)

  predicate ValidEnv(e: Env) {
    e.longIs64 ==> e.pointerIs64
  }

  function Modulus(is64: bool): int {
    if is64 then U64 else U32
  }

  /** x cut to 32 or 64 bits. */
  function Cut(x: int, is64: bool): (r: nat)
    ensures r < Modulus(is64)
  {
    if is64 then x % U64 else x % U32
  }

  /** One variable argument, with the type the caller passed it as. */
  datatype Arg =
    | Int(v: int)
    | Unsigned(v: int)
    | Long(v: int)
    | UnsignedLong(v: int)
    | Pointer(v: int)

  /** What a conversion has to show. */
  datatype Shown =
    | Number(magnitude: nat, negative: bool)
    | Character(c: char)
    | Text(text: string)

  // ----- the pieces of a format -----

  datatype Piece =
    | Literal(text: string)
    | Unknown(spec: LogSpec, text: string)  // an unknown conversion, printed as it stands
    | Conversion(spec: LogSpec)

  predicate IsUnsigned(conv: char) {
    conv == 'u' || conv == 'x' || conv == 'X'
  }

  predicate Known(conv: char) {
    conv == 'd' || conv == 'i' || IsUnsigned(conv) || conv == 'p' || conv == 'c' || conv == 's'
  }

  /** The first piece of a format, and the number of characters it takes. */
  function PieceOf(fmt: string): (p: (Piece, nat))
    requires fmt != ""
    ensures 0 < p.1 <= |fmt|
  {
    if fmt[0] != '%' then (Literal([fmt[0]]), 1)
    else
      var (spec, n) := Parsed(fmt);
      if spec.conv == '\0' then (Literal(fmt), |fmt|)  // the format ends inside the specification
      else if spec.conv == '%' then (Literal("%"), n)
      else if Known(spec.conv) then (Conversion(spec), n)
      else (Unknown(spec, fmt[..n]), n)
  }

  /** Only supported conversions. */
  predicate Supported(fmt: string)
    decreases |fmt|
  {
    fmt == "" || (!PieceOf(fmt).0.Unknown? && Supported(fmt[PieceOf(fmt).1..]))
  }

  // ----- the value of an argument -----

  function LowByte(v: int): char {
    (v % 256) as char
  }

  /** x cut to 32 or 64 bits and read as a two's complement number. */
  function Signed(x: int, is64: bool): int {
    var r := Cut(x, is64);
    if r < Modulus(is64) / 2 then r else r - Modulus(is64)
  }

  /** x cast to char. */
  function AsChar(x: int, signed: bool): int {
    var r := x % 256;
    if signed && r >= 128 then r - 256 else r
  }

  function Magnitude(v: int): Shown {
    Number(if v < 0 then -v else v, v < 0)
  }

  function StringAt(e: Env, address: int): string {
    if address == 0 then "(null)" else if address in e.strings then e.strings[address] else ""
  }

  /** The argument is of the type its conversion asks for, and in range.  The smallest long is excluded: negating
      it overflows.  A string must be in memory, or null. */
  predicate Fits(e: Env, spec: LogSpec, arg: Arg) {
    if spec.conv == 'd' || spec.conv == 'i' then
      if spec.isLong then arg.Long? && -(Modulus(e.longIs64) / 2) < arg.v < Modulus(e.longIs64) / 2
      else arg.Int? && -(U32 / 2) <= arg.v < U32 / 2 && arg.v != -(Modulus(e.longIs64) / 2)
    else if IsUnsigned(spec.conv) then
      if spec.isLong then arg.UnsignedLong? && 0 <= arg.v < Modulus(e.longIs64) else arg.Unsigned? && 0 <= arg.v < U32
    else if spec.conv == 'p' then arg.Pointer? && 0 <= arg.v < Modulus(e.pointerIs64)
    else if spec.conv == 's' then
      arg.Pointer? && 0 <= arg.v < Modulus(e.pointerIs64) && (arg.v == 0 || arg.v in e.strings)
    else arg.Int? && -(U32 / 2) <= arg.v < U32 / 2
  }

  /** What log_format makes of the argument itself. */
  function Value(e: Env, spec: LogSpec, arg: Arg): Shown
    requires Fits(e, spec, arg)
  {
    if spec.conv == 'd' || spec.conv == 'i' then Magnitude(arg.v)
    else if IsUnsigned(spec.conv) then Number(arg.v, false)
    else if spec.conv == 'p' then Number(Cut(arg.v, e.longIs64), false)
    else if spec.conv == 's' then Text(StringAt(e, arg.v))
    else Character(LowByte(arg.v))
  }

  /** log_msg_build: the argument as a uintptr_t. */
  function Capture(e: Env, spec: LogSpec, arg: Arg): int {
    Cut(if spec.conv == 'c' then AsChar(arg.v, e.charSigned) else arg.v, e.pointerIs64)
  }

  /** What log_format_args makes of the captured word. */
  function Restored(e: Env, spec: LogSpec, word: int): Shown {
    if spec.conv == 'd' || spec.conv == 'i' then Magnitude(Signed(word, spec.isLong && e.longIs64))
    else if IsUnsigned(spec.conv) then Number(Cut(word, spec.isLong && e.longIs64), false)
    else if spec.conv == 'p' then Number(Cut(word, e.longIs64), false)
    else if spec.conv == 's' then Text(StringAt(e, word))
    else Character(LowByte(word))
  }

  lemma SignedKept(v: int, is64: bool, wide: bool)
    requires (is64 ==> wide) && -(Modulus(is64) / 2) <= v < Modulus(is64) / 2
    ensures Signed(Cut(v, wide), is64) == v
  {
    assert Cut(v, wide) == if v < 0 then v + Modulus(wide) else v;
  }

  lemma LowByteKept(v: int, charSigned: bool, wide: bool)
    ensures Cut(AsChar(v, charSigned), wide) % 256 == v % 256
  {
    var c := AsChar(v, charSigned);
    assert -128 <= c < 256 && c % 256 == v % 256;
    assert Cut(c, wide) == if c < 0 then c + Modulus(wide) else c;
  }

  /** A captured argument shows what the argument itself would have shown. */
  lemma CaptureKeepsValue(e: Env, spec: LogSpec, arg: Arg)
    requires ValidEnv(e) && Known(spec.conv) && Fits(e, spec, arg)
    ensures Restored(e, spec, Capture(e, spec, arg)) == Value(e, spec, arg)
  {
    if spec.conv == 'd' || spec.conv == 'i' {
      SignedKept(arg.v, spec.isLong && e.longIs64, e.pointerIs64);
    } else if spec.conv == 'c' {
      LowByteKept(arg.v, e.charSigned, e.pointerIs64);
    } else {
      assert Cut(arg.v, e.pointerIs64) == arg.v;
    }
  }

  // ----- what is printed -----

  function Base(conv: char): nat {
    if conv == 'x' || conv == 'X' || conv == 'p' then 16 else 10
  }

  /** A character ignores the width, a string is padded with blanks. */
  function Render(spec: LogSpec, shown: Shown): string {
    match shown
    case Number(magnitude, negative) =>
      Field(Digits(magnitude, Base(spec.conv), spec.conv == 'X'), negative, spec.layout)
    case Character(c) => [c]
    case Text(text) =>
      var gap := Repeat(' ', Gap(spec.layout.width, |text|));
      if spec.layout.left then text + gap else gap + text
  }

  /** There is an argument of the right type for every conversion. */
  predicate AllFit(e: Env, fmt: string, args: seq<Arg>)
    decreases |fmt|
  {
    if fmt == "" then true
    else
      var (piece, n) := PieceOf(fmt);
      if piece.Conversion? then args != [] && Fits(e, piece.spec, args[0]) && AllFit(e, fmt[n..], args[1..])
      else AllFit(e, fmt[n..], args)
  }

  /** log_format */
  function Direct(e: Env, fmt: string, args: seq<Arg>): string
    requires AllFit(e, fmt, args)
    decreases |fmt|
  {
    if fmt == "" then ""
    else
      var (piece, n) := PieceOf(fmt);
      match piece
      case Literal(text) => text + Direct(e, fmt[n..], args)
      case Unknown(_, text) => text + Direct(e, fmt[n..], args)
      case Conversion(spec) => Render(spec, Value(e, spec, args[0])) + Direct(e, fmt[n..], args[1..])
  }

  /** LOG_ARG: a missing word reads as 0. */
  function FirstWord(words: seq<int>): int {
    if words == [] then 0 else words[0]
  }

  function RestWords(words: seq<int>): seq<int> {
    if words == [] then [] else words[1..]
  }

  /** log_format_args */
  function Deferred(e: Env, fmt: string, words: seq<int>): string
    decreases |fmt|
  {
    if fmt == "" then ""
    else
      var (piece, n) := PieceOf(fmt);
      match piece
      case Literal(text) => text + Deferred(e, fmt[n..], words)
      case Unknown(_, text) => text + Deferred(e, fmt[n..], words)
      case Conversion(spec) =>
        Render(spec, Restored(e, spec, FirstWord(words))) + Deferred(e, fmt[n..], RestWords(words))
  }

  /** log_msg_count_args: an unknown conversion counts as one argument. */
  function Count(fmt: string): nat
    decreases |fmt|
  {
    if fmt == "" then 0
    else
      var (piece, n) := PieceOf(fmt);
      (if piece.Literal? then 0 else 1) + Count(fmt[n..])
  }

  /** The arguments log_format takes. */
  function Needed(fmt: string): nat
    decreases |fmt|
  {
    if fmt == "" then 0
    else
      var (piece, n) := PieceOf(fmt);
      (if piece.Conversion? then 1 else 0) + Needed(fmt[n..])
  }

  /** An argument for everything log_msg_build takes one for: an int for an unknown conversion. */
  predicate AllTakable(e: Env, fmt: string, args: seq<Arg>)
    decreases |fmt|
  {
    if fmt == "" then true
    else
      var (piece, n) := PieceOf(fmt);
      match piece
      case Literal(_) => AllTakable(e, fmt[n..], args)
      case Unknown(_, _) => args != [] && args[0].Int? && AllTakable(e, fmt[n..], args[1..])
      case Conversion(spec) => args != [] && Fits(e, spec, args[0]) && AllTakable(e, fmt[n..], args[1..])
  }

  /** The words log_msg_build fills argBuf with. */
  function Captured(e: Env, fmt: string, args: seq<Arg>): seq<int>
    requires AllTakable(e, fmt, args)
    decreases |fmt|
  {
    if fmt == "" then []
    else
      var (piece, n) := PieceOf(fmt);
      match piece
      case Literal(_) => Captured(e, fmt[n..], args)
      case Unknown(spec, _) => [Capture(e, spec, args[0])] + Captured(e, fmt[n..], args[1..])
      case Conversion(spec) => [Capture(e, spec, args[0])] + Captured(e, fmt[n..], args[1..])
  }

  // ----- the two ways agree -----

  lemma {:induction false} SupportedTakable(e: Env, fmt: string, args: seq<Arg>)
    requires Supported(fmt)
    ensures AllTakable(e, fmt, args) <==> AllFit(e, fmt, args)
    decreases |fmt|
  {
    if fmt != "" {
      var (piece, n) := PieceOf(fmt);
      if piece.Conversion? {
        if args != [] { SupportedTakable(e, fmt[n..], args[1..]); }
      } else {
        SupportedTakable(e, fmt[n..], args);
      }
    }
  }

  /** For every format of supported conversions and every arguments that fit it, capturing now and formatting
      later prints what formatting now prints. */
  lemma {:induction false} DeferredIsDirect(e: Env, fmt: string, args: seq<Arg>)
    requires ValidEnv(e) && Supported(fmt) && AllFit(e, fmt, args)
    ensures AllTakable(e, fmt, args) && Deferred(e, fmt, Captured(e, fmt, args)) == Direct(e, fmt, args)
    decreases |fmt|
  {
    SupportedTakable(e, fmt, args);
    if fmt != "" {
      var (piece, n) := PieceOf(fmt);
      if piece.Conversion? {
        CaptureKeepsValue(e, piece.spec, args[0]);
        DeferredIsDirect(e, fmt[n..], args[1..]);
        var rest := Captured(e, fmt[n..], args[1..]);
        assert ([Capture(e, piece.spec, args[0])] + rest)[1..] == rest;
      } else {
        DeferredIsDirect(e, fmt[n..], args);
      }
    }
  }

  /** As many words are captured as the pre-scan counts, so a count within the buffer never overruns it. */
  lemma {:induction false} CountIsCaptured(e: Env, fmt: string, args: seq<Arg>)
    requires AllTakable(e, fmt, args)
    ensures |Captured(e, fmt, args)| == Count(fmt) <= |args|
    decreases |fmt|
  {
    if fmt != "" {
      var (piece, n) := PieceOf(fmt);
      CountIsCaptured(e, fmt[n..], if piece.Literal? then args else args[1..]);
    }
  }

  /** Capture takes as many arguments as formatting uses exactly when every conversion is supported; an unknown
      one makes it take an argument that formatting never prints. */
  lemma {:induction false} CountIsNeeded(fmt: string)
    ensures Needed(fmt) <= Count(fmt) && (Count(fmt) == Needed(fmt) <==> Supported(fmt))
    decreases |fmt|
  {
    if fmt != "" {
      CountIsNeeded(fmt[PieceOf(fmt).1..]);
    }
  }

  /** The words of the arguments that formatting uses: one for each conversion, none for an unknown one. */
  function WordsOf(e: Env, fmt: string, args: seq<Arg>): seq<int>
    requires AllFit(e, fmt, args)
    decreases |fmt|
  {
    if fmt == "" then []
    else
      var (piece, n) := PieceOf(fmt);
      if piece.Conversion? then [Capture(e, piece.spec, args[0])] + WordsOf(e, fmt[n..], args[1..])
      else WordsOf(e, fmt[n..], args)
  }

  /** For every format, unknown conversions and all, formatting the words of its arguments prints what formatting the
      arguments prints: it is only the capture that counts an unknown conversion. */
  lemma {:induction false} WordsPrintDirect(e: Env, fmt: string, args: seq<Arg>)
    requires ValidEnv(e) && AllFit(e, fmt, args)
    ensures Deferred(e, fmt, WordsOf(e, fmt, args)) == Direct(e, fmt, args)
    decreases |fmt|
  {
    if fmt != "" {
      var (piece, n) := PieceOf(fmt);
      if piece.Conversion? {
        CaptureKeepsValue(e, piece.spec, args[0]);
        WordsPrintDirect(e, fmt[n..], args[1..]);
        var rest := WordsOf(e, fmt[n..], args[1..]);
        assert ([Capture(e, piece.spec, args[0])] + rest)[1..] == rest;
      } else {
        WordsPrintDirect(e, fmt[n..], args);
      }
    }
  }

  /** The capture takes an argument with an unknown conversion and formatting does not, so the conversion after it is
      given that argument's word, and every later one its neighbour's. */
  lemma UnknownShiftsWords(e: Env, fmt: string, args: seq<Arg>)
    requires fmt != "" && PieceOf(fmt).0.Unknown? && AllTakable(e, fmt, args)
    ensures var (piece, n) := PieceOf(fmt);
            args != [] && AllTakable(e, fmt[n..], args[1..]) &&
            Deferred(e, fmt, Captured(e, fmt, args)) == piece.text +
              Deferred(e, fmt[n..], [args[0].v % Modulus(e.pointerIs64)] + Captured(e, fmt[n..], args[1..]))
  {
    var (piece, n) := PieceOf(fmt);
    UnknownIsNone(fmt);
    assert Capture(e, piece.spec, args[0]) == args[0].v % Modulus(e.pointerIs64);
  }

  lemma UnknownIsNone(fmt: string)
    requires fmt != "" && PieceOf(fmt).0.Unknown?
    ensures !Known(PieceOf(fmt).0.spec.conv)
  {
  }

  /** LOG_ARG: a format with more conversions than words prints as if zeros followed the words. */
  lemma {:induction false} MissingWordsAreZero(e: Env, fmt: string, words: seq<int>, zeros: seq<int>)
    requires forall i :: 0 <= i < |zeros| ==> zeros[i] == 0
    ensures Deferred(e, fmt, words + zeros) == Deferred(e, fmt, words)
    decreases |fmt|
  {
    if fmt != "" {
      var (piece, n) := PieceOf(fmt);
      if !piece.Conversion? {
        MissingWordsAreZero(e, fmt[n..], words, zeros);
      } else if words != [] {
        assert (words + zeros)[1..] == words[1..] + zeros;
        MissingWordsAreZero(e, fmt[n..], words[1..], zeros);
      } else {
        assert words + zeros == zeros && [] + RestWords(zeros) == RestWords(zeros);
        MissingWordsAreZero(e, fmt[n..], [], RestWords(zeros));
      }
    }
  }

  // ----- formats one after the other -----

  /** The format does not end inside a specification. */
  predicate Complete(fmt: string)
    decreases |fmt|
  {
    fmt == "" || ((fmt[0] == '%' ==> Parsed(fmt).0.conv != '\0') && Complete(fmt[PieceOf(fmt).1..]))
  }

  lemma SpecAppend(f: string, g: string)
    requires f != "" && f[0] == '%' && Parsed(f).0.conv != '\0'
    ensures Parsed(f + g) == Parsed(f)
  {
    ParsedMeans(f);
    ParsedMeans(f + g);
    var run := FlagRun(f[1..]);
    var t := f[1..] + g;
    FlagRunStops(f[1..]);
    assert (f + g)[1..] == t && t[..|run|] == f[1..][..|run|] == run && t[|run|] == f[1..][|run|];
    FlagRunIs(t, |run|);
    assert (f + g)[1 + |run|] == f[1 + |run|];
  }

  lemma {:induction false} FlagRunStops(s: string)
    ensures var run := FlagRun(s);
            (forall i :: 0 <= i < |run| ==> FlagChar(s[i])) && (|run| < |s| ==> !FlagChar(s[|run|]))
  {
    if s != "" && FlagChar(s[0]) { FlagRunStops(s[1..]); }
  }

  lemma PieceAppend(f: string, g: string)
    requires f != "" && (f[0] == '%' ==> Parsed(f).0.conv != '\0')
    ensures PieceOf(f + g) == PieceOf(f) && (f + g)[PieceOf(f).1..] == f[PieceOf(f).1..] + g
  {
    if f[0] == '%' {
      SpecAppend(f, g);
      var n := Parsed(f).1;
      assert (f + g)[..n] == f[..n];
    }
  }

  /** A format followed by another prints the one and then the other, with the arguments shared out in order. */
  lemma {:induction false} DirectAppend(e: Env, f: string, g: string, a: seq<Arg>, b: seq<Arg>)
    requires Complete(f) && AllFit(e, f, a) && |a| == Needed(f) && AllFit(e, g, b)
    ensures AllFit(e, f + g, a + b) && Direct(e, f + g, a + b) == Direct(e, f, a) + Direct(e, g, b)
    decreases |f|
  {
    if f == "" {
      assert f + g == g && a + b == b;
    } else {
      var (piece, n) := PieceOf(f);
      DirectAppend(e, f[n..], g, if piece.Conversion? then a[1..] else a, b);
      if piece.Conversion? { ConversionAppend(e, f, g, a, b); } else { TextAppend(e, f, g, a, b); }
    }
  }

  lemma ConversionAppend(e: Env, f: string, g: string, a: seq<Arg>, b: seq<Arg>)
    requires f != "" && (f[0] == '%' ==> Parsed(f).0.conv != '\0') && PieceOf(f).0.Conversion?
    requires AllFit(e, f, a) && AllFit(e, g, b)
    requires var rest := f[PieceOf(f).1..];
             AllFit(e, rest + g, a[1..] + b) &&
               Direct(e, rest + g, a[1..] + b) == Direct(e, rest, a[1..]) + Direct(e, g, b)
    ensures AllFit(e, f + g, a + b) && Direct(e, f + g, a + b) == Direct(e, f, a) + Direct(e, g, b)
  {
    PieceAppend(f, g);
    assert (a + b)[1..] == a[1..] + b && (a + b)[0] == a[0];
    var piece := PieceOf(f).0;
    Three(Render(piece.spec, Value(e, piece.spec, a[0])), Direct(e, f[PieceOf(f).1..], a[1..]), Direct(e, g, b));
  }

  lemma TextAppend(e: Env, f: string, g: string, a: seq<Arg>, b: seq<Arg>)
    requires f != "" && (f[0] == '%' ==> Parsed(f).0.conv != '\0') && !PieceOf(f).0.Conversion?
    requires AllFit(e, f, a) && AllFit(e, g, b)
    requires var rest := f[PieceOf(f).1..];
             AllFit(e, rest + g, a + b) && Direct(e, rest + g, a + b) == Direct(e, rest, a) + Direct(e, g, b)
    ensures AllFit(e, f + g, a + b) && Direct(e, f + g, a + b) == Direct(e, f, a) + Direct(e, g, b)
  {
    PieceAppend(f, g);
    Three(PieceOf(f).0.text, Direct(e, f[PieceOf(f).1..], a), Direct(e, g, b));
  }

  lemma Three(x: string, y: string, z: string)
    ensures x + (y + z) == x + y + z
  {
  }
}
