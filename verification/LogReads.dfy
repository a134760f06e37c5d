/** What log_format prints for each conversion, in terms of the format and the argument alone: the digits read back, the
    case of the letters, the sign, and on which side blanks and zeros stand.  With LogMeaning.DirectAppend this is what
    every format prints. */
module LogReads {
  import opened LogMeaning
  import opened LogNumber
  import opened LogSpec

  /** `run` and `conv` make one conversion specification. */
  predicate OneSpec(run: string, conv: char) {
    (forall i :: 0 <= i < |run| ==> FlagChar(run[i])) && !FlagChar(conv) && conv != '\0'
  }

  function Max(a: nat, b: nat): nat {
    if a < b then b else a
  }

  /** The argument is what the conversion asks for, long with an 'l' in the specification. */
  predicate Suits(e: Env, run: string, conv: char, arg: Arg) {
    OneSpec(run, conv) && Fits(e, LogSpec(conv, 'l' in run, LayoutOf(run)), arg)
  }

  lemma SpecIs(run: string, conv: char)
    requires OneSpec(run, conv)
    ensures var fmt := "%" + run + [conv];
            fmt[0] == '%' && Parsed(fmt) == (LogSpec(conv, 'l' in run, LayoutOf(run)), |fmt|)
  {
    var fmt := "%" + run + [conv];
    ParsedMeans(fmt);
    assert fmt[1..] == run + [conv];
    FlagRunIs(fmt[1..], |run|);
    assert fmt[1..][..|run|] == run;
  }

  lemma PrintsIs(e: Env, run: string, conv: char, arg: Arg)
    requires Known(conv) && Suits(e, run, conv, arg)
    ensures var fmt, spec := "%" + run + [conv], LogSpec(conv, 'l' in run, LayoutOf(run));
            AllFit(e, fmt, [arg]) && Direct(e, fmt, [arg]) == Render(spec, Value(e, spec, arg))
  {
    var fmt, spec := "%" + run + [conv], LogSpec(conv, 'l' in run, LayoutOf(run));
    SpecIs(run, conv);
    assert PieceOf(fmt) == (Conversion(spec), |fmt|);
    assert fmt[|fmt|..] == "" && [arg][1..] == [];
    assert Render(spec, Value(e, spec, arg)) + "" == Render(spec, Value(e, spec, arg));
  }

  // ----- the width -----

  /** The digits of the run, in order. */
  function OnlyDigits(run: string): string {
    if run == "" then "" else OnlyDigits(run[..|run| - 1]) + if IsDigit(run[|run| - 1]) then [run[|run| - 1]] else ""
  }

  lemma DigitsAppend(front: string, c: char)
    ensures var run := front + [c];
            OnlyDigits(run) == (if IsDigit(c) then OnlyDigits(front) + [c] else OnlyDigits(front)) &&
            (HasDigit(run) <==> HasDigit(front) || IsDigit(c)) &&
            WidthOf(run) == if IsDigit(c) then WidthOf(front) * 10 + (c as int - '0' as int) else WidthOf(front)
  {
    var run := front + [c];
    assert run[..|front|] == front && OnlyDigits(front) + "" == OnlyDigits(front);
    if IsDigit(c) { assert IsDigit(run[|front|]); }
    if i :| 0 <= i < |front| && IsDigit(front[i]) { assert IsDigit(run[i]); }
  }

  lemma {:induction false} WidthReads(run: string)
    ensures WidthOf(run) == LogNumber.Number(OnlyDigits(run), 10)
  {
    if run != "" {
      var front, c := run[..|run| - 1], run[|run| - 1];
      assert run == front + [c];
      WidthReads(front);
      DigitsAppend(front, c);
      NumberAppend(OnlyDigits(front), c, 10);
    }
  }

  lemma {:induction false} FirstDigitReads(run: string)
    ensures FirstDigitIsZero(run) <==> OnlyDigits(run) != "" && OnlyDigits(run)[0] == '0'
    ensures HasDigit(run) <==> OnlyDigits(run) != ""
  {
    if run != "" {
      var front, c := run[..|run| - 1], run[|run| - 1];
      assert run == front + [c];
      FirstDigitReads(front);
      FirstDigitAppend(front, c);
      DigitsAppend(front, c);
    }
  }

  /** The width is the number that the digits of the specification make, whatever stands between them; zeros fill the
      field when the first of them is 0 and there is no '-'. */
  lemma LayoutReads(run: string)
    ensures var l, digits := LayoutOf(run), OnlyDigits(run);
            l.width == LogNumber.Number(digits, 10) && l.left == ('-' in run) &&
            l.pad == if !l.left && digits != "" && digits[0] == '0' then '0' else ' '
  {
    WidthReads(run);
    FirstDigitReads(run);
  }

  // ----- numbers -----

  predicate DigitOf(c: char, base: nat, upper: bool) {
    '0' <= c <= '9' || (base == 16 && if upper then 'A' <= c <= 'F' else 'a' <= c <= 'f')
  }

  /** The digits of v without leading zeros, letters all upper or all lower case. */
  ghost predicate Writes(digits: string, v: nat, base: nat, upper: bool) {
    digits != "" && LogNumber.Number(digits, base) == v && (digits[0] == '0' ==> digits == "0") &&
    forall i :: 0 <= i < |digits| ==> DigitOf(digits[i], base, upper)
  }

  lemma {:induction false} DigitsAreDigits(v: nat, base: nat, upper: bool)
    requires BaseOk(base)
    ensures forall i :: 0 <= i < |Digits(v, base, upper)| ==> DigitOf(Digits(v, base, upper)[i], base, upper)
  {
    Divides(v, base);
    if v >= base { DigitsAreDigits(Quot(v, base), base, upper); }
  }

  lemma DigitsWrite(v: nat, base: nat, upper: bool)
    requires BaseOk(base)
    ensures Writes(Digits(v, base, upper), v, base, upper)
  {
    DigitsParseBack(v, base, upper);
    NoDigitsMissing(v, base, upper);
    DigitsAreDigits(v, base, upper);
  }

  /** What the field is filled up with: blanks on the right with the flag '-', zeros after the sign with the flag '0',
      and otherwise blanks on the left. */
  ghost predicate Fills(printed: string, run: string, sign: string, digits: string) {
    var need := |sign| + |digits|;
    |printed| == Max(WidthOf(run), need) &&
    if '-' in run then printed == sign + digits + Repeat(' ', |printed| - need)
    else if FirstDigitIsZero(run) then printed == sign + Repeat('0', |printed| - need) + digits
    else printed == Repeat(' ', |printed| - need) + sign + digits
  }

  lemma FieldFills(digits: string, negative: bool, run: string)
    ensures Fills(Field(digits, negative, LayoutOf(run)), run, if negative then "-" else "", digits)
  {
  }

  /** d and i print the number in base 10, with '-' exactly for a negative one. */
  lemma SignedPrinted(e: Env, run: string, conv: char, arg: Arg) returns (digits: string)
    requires (conv == 'd' || conv == 'i') && Suits(e, run, conv, arg)
    ensures var fmt := "%" + run + [conv];
            AllFit(e, fmt, [arg]) && Writes(digits, if arg.v < 0 then -arg.v else arg.v, 10, false) &&
            Fills(Direct(e, fmt, [arg]), run, if arg.v < 0 then "-" else "", digits)
  {
    PrintsIs(e, run, conv, arg);
    digits := Digits(if arg.v < 0 then -arg.v else arg.v, 10, false);
    DigitsWrite(if arg.v < 0 then -arg.v else arg.v, 10, false);
    FieldFills(digits, arg.v < 0, run);
  }

  /** u prints the number in base 10, x in base 16 with lower-case letters and X with upper-case ones. */
  lemma UnsignedPrinted(e: Env, run: string, conv: char, arg: Arg) returns (digits: string)
    requires (conv == 'u' || conv == 'x' || conv == 'X') && Suits(e, run, conv, arg)
    ensures var fmt := "%" + run + [conv];
            AllFit(e, fmt, [arg]) && 0 <= arg.v && Writes(digits, arg.v, if conv == 'u' then 10 else 16, conv == 'X') &&
            Fills(Direct(e, fmt, [arg]), run, "", digits)
  {
    PrintsIs(e, run, conv, arg);
    var base := if conv == 'u' then 10 else 16;
    digits := Digits(arg.v, base, conv == 'X');
    DigitsWrite(arg.v, base, conv == 'X');
    FieldFills(digits, false, run);
  }

  /** p prints the address in base 16 with lower-case letters, cut to the width of long. */
  lemma PointerPrinted(e: Env, run: string, arg: Arg) returns (digits: string)
    requires Suits(e, run, 'p', arg)
    ensures var fmt := "%" + run + "p";
            AllFit(e, fmt, [arg]) && Writes(digits, arg.v % (if e.longIs64 then U64 else U32), 16, false) &&
            Fills(Direct(e, fmt, [arg]), run, "", digits)
  {
    PrintsIs(e, run, 'p', arg);
    var v := Cut(arg.v, e.longIs64);
    digits := Digits(v, 16, false);
    DigitsWrite(v, 16, false);
    FieldFills(digits, false, run);
  }

  // ----- reading back -----

  /** Blanks dropped, the text is this body, and it reads back as sign and value. */
  ghost predicate ReadsAs(printed: string, negative: bool, v: nat, base: nat) {
    var body := TrimLeft(TrimRight(printed));
    body != "" && (negative <==> body[0] == '-') && LogNumber.Number(if negative then body[1..] else body, base) == v
  }

  lemma BlanksOnOneSide(n: nat, s: string)
    requires s != "" && s[0] != ' ' && s[|s| - 1] != ' '
    ensures TrimLeft(TrimRight(Repeat(' ', n) + s)) == s && TrimLeft(TrimRight(s + Repeat(' ', n))) == s
  {
    BlanksDropped(n, s, 0);
    BlanksDropped(0, s, n);
    assert Repeat(' ', n) + s + Repeat(' ', 0) == Repeat(' ', n) + s;
    assert Repeat(' ', 0) + s + Repeat(' ', n) == s + Repeat(' ', n);
  }

  lemma DigitNotBlank(c: char, base: nat, upper: bool)
    requires DigitOf(c, base, upper)
    ensures c != ' ' && c != '-'
  {
  }

  lemma BodyShape(negative: bool, zeros: nat, digits: string, v: nat, base: nat, upper: bool)
    requires Writes(digits, v, base, upper)
    ensures var body := (if negative then "-" else "") + Repeat('0', zeros) + digits;
            body[0] != ' ' && body[|body| - 1] != ' ' && (negative <==> body[0] == '-') &&
            (if negative then body[1..] else body) == Repeat('0', zeros) + digits
  {
    DigitNotBlank(digits[0], base, upper);
    DigitNotBlank(digits[|digits| - 1], base, upper);
    var body := (if negative then "-" else "") + Repeat('0', zeros) + digits;
    assert body[|body| - 1] == digits[|digits| - 1];
  }

  lemma BodyReads(negative: bool, zeros: nat, digits: string, v: nat, base: nat, upper: bool, n: nat)
    requires Writes(digits, v, base, upper)
    ensures var body := (if negative then "-" else "") + Repeat('0', zeros) + digits;
            ReadsAs(Repeat(' ', n) + body, negative, v, base) && ReadsAs(body + Repeat(' ', n), negative, v, base) &&
            body[0] != ' ' && body[|body| - 1] != ' '
  {
    BodyShape(negative, zeros, digits, v, base, upper);
    ZerosInFront(zeros, digits, base);
    BlanksOnOneSide(n, (if negative then "-" else "") + Repeat('0', zeros) + digits);
  }

  lemma BlanksRead(printed: string, left: bool, negative: bool, digits: string, n: nat, v: nat, base: nat, upper: bool)
    requires Writes(digits, v, base, upper)
    requires var body := (if negative then "-" else "") + digits;
             printed == if left then body + Repeat(' ', n) else Repeat(' ', n) + body
    ensures ReadsAs(printed, negative, v, base) && printed != ""
    ensures if left then printed[0] != ' ' else printed[|printed| - 1] != ' '
  {
    var sign := if negative then "-" else "";
    assert sign + Repeat('0', 0) + digits == sign + digits;
    BodyReads(negative, 0, digits, v, base, upper, n);
    if left { assert printed[0] == (sign + digits)[0]; } else { assert printed[|printed| - 1] == digits[|digits| - 1]; }
  }

  lemma ZerosRead(printed: string, negative: bool, digits: string, n: nat, v: nat, base: nat, upper: bool)
    requires Writes(digits, v, base, upper)
    requires printed == (if negative then "-" else "") + Repeat('0', n) + digits
    ensures ReadsAs(printed, negative, v, base) && printed != "" && printed[|printed| - 1] != ' '
  {
    BodyReads(negative, n, digits, v, base, upper, 0);
    assert Repeat(' ', 0) + printed == printed;
  }

  /** Whatever fills the field: blanks dropped, it reads back as sign and value, and blanks stand only on the right with
      the flag '-' and only on the left without it. */
  lemma FilledReadsBack(printed: string, run: string, negative: bool, digits: string, v: nat, base: nat, upper: bool)
    requires Fills(printed, run, if negative then "-" else "", digits) && Writes(digits, v, base, upper)
    ensures ReadsAs(printed, negative, v, base) && printed != ""
    ensures if '-' in run then printed[0] != ' ' else printed[|printed| - 1] != ' '
  {
    var sign := if negative then "-" else "";
    var gap := |printed| - |sign| - |digits|;
    if '-' !in run && FirstDigitIsZero(run) {
      ZerosRead(printed, negative, digits, gap, v, base, upper);
    } else {
      SignFirst(sign, digits, gap);
      BlanksRead(printed, '-' in run, negative, digits, gap, v, base, upper);
    }
  }

  lemma SignFirst(sign: string, digits: string, n: nat)
    ensures Repeat(' ', n) + (sign + digits) == Repeat(' ', n) + sign + digits
  {
  }

  // ----- texts -----

  /** s prints the string, or (null), filled up with blanks on the right with the flag '-' and on the left without. */
  lemma TextPrinted(e: Env, run: string, arg: Arg)
    requires Suits(e, run, 's', arg)
    ensures var fmt, text := "%" + run + "s", if arg.v == 0 then "(null)" else e.strings[arg.v];
            AllFit(e, fmt, [arg]) &&
            var printed := Direct(e, fmt, [arg]);
            |printed| == Max(WidthOf(run), |text|) &&
            printed == if '-' in run then text + Repeat(' ', |printed| - |text|)
                       else Repeat(' ', |printed| - |text|) + text
  {
    PrintsIs(e, run, 's', arg);
  }

  /** c prints the one character, whatever the width. */
  lemma CharacterPrinted(e: Env, run: string, arg: Arg)
    requires Suits(e, run, 'c', arg)
    ensures var fmt := "%" + run + "c"; AllFit(e, fmt, [arg]) && Direct(e, fmt, [arg]) == [(arg.v % 256) as char]
  {
    PrintsIs(e, run, 'c', arg);
  }

  /** A second '%' prints one. */
  lemma PercentPrinted(e: Env, run: string)
    requires OneSpec(run, '%')
    ensures var fmt := "%" + run + "%"; AllFit(e, fmt, []) && Direct(e, fmt, []) == "%"
  {
    var fmt := "%" + run + "%";
    SpecIs(run, '%');
    assert fmt[|fmt|..] == "" && "%" + "" == "%";
  }

  /** An unknown conversion prints the whole specification as it stands. */
  lemma UnknownPrinted(e: Env, run: string, conv: char)
    requires OneSpec(run, conv) && conv != '%' && conv != 'd' && conv != 'i' && conv != 'u' && conv != 'x'
    requires conv != 'X' && conv != 'p' && conv != 'c' && conv != 's'
    ensures var fmt := "%" + run + [conv]; AllFit(e, fmt, []) && Direct(e, fmt, []) == fmt
  {
    var fmt := "%" + run + [conv];
    SpecIs(run, conv);
    assert fmt[|fmt|..] == "" && fmt[..|fmt|] == fmt && fmt + "" == fmt;
  }

  /** So does a specification that the end of the format cuts off. */
  lemma UnfinishedPrinted(e: Env, run: string)
    requires forall i :: 0 <= i < |run| ==> FlagChar(run[i])
    ensures AllFit(e, "%" + run, []) && Direct(e, "%" + run, []) == "%" + run
  {
    var fmt := "%" + run;
    ParsedMeans(fmt);
    assert fmt[1..] == run && run[..|run|] == run;
    FlagRunIs(run, |run|);
    assert fmt[|fmt|..] == "" && fmt + "" == fmt;
  }

  /** Text without a '%' prints itself. */
  lemma {:induction false} PlainPrinted(e: Env, s: string)
    requires forall i :: 0 <= i < |s| ==> s[i] != '%'
    ensures AllFit(e, s, []) && Direct(e, s, []) == s
  {
    if s != "" {
      PlainPrinted(e, s[1..]);
      assert s == [s[0]] + s[1..];
    }
  }
}
