/** Numbers as text: fmt_utoa, fmt_pad and fmt_num of lib/services/src/log/formatter.c. */
module LogNumber {
  import opened LogWriter

  /** What a field needs to know besides its value. */
  datatype Layout = Layout(width: nat, pad: char, left: bool)

  function Digit(d: nat, upper: bool): char
    requires d < 16
  {
    if d < 10 then '0' + d as char else if upper then 'A' + (d - 10) as char else 'a' + (d - 10) as char
  }

  /** The two tables of fmt_utoa. */
  lemma DigitTables(d: nat)
    requires d < 16
    ensures Digit(d, false) == "0123456789abcdef"[d] && Digit(d, true) == "0123456789ABCDEF"[d]
  {
  }

  function DigitValue(c: char): nat {
    if '0' <= c <= '9' then c as int - '0' as int
    else if 'a' <= c <= 'f' then c as int - 'a' as int + 10
    else if 'A' <= c <= 'F' then c as int - 'A' as int + 10
    else 0
  }

  /** The number a string of digits stands for. */
  function Number(s: string, base: nat): nat {
    if s == "" then 0 else Number(s[..|s| - 1], base) * base + DigitValue(s[|s| - 1])
  }

  /** fmt_num asks for base 10 or 16 only. */
  predicate BaseOk(base: nat) {
    base == 10 || base == 16
  }

  function Quot(v: nat, base: nat): nat
    requires BaseOk(base)
  {
    if base == 10 then v / 10 else v / 16
  }

  function Rem(v: nat, base: nat): nat
    requires BaseOk(base)
  {
    if base == 10 then v % 10 else v % 16
  }

  /** The digits of v, most significant first. */
  function Digits(v: nat, base: nat, upper: bool): string
    requires BaseOk(base)
  {
    if v < base then [Digit(v, upper)] else Digits(Quot(v, base), base, upper) + [Digit(Rem(v, base), upper)]
  }

  /** The digits of v > 0, least significant first, as the division loop finds them. */
  function Remainders(v: nat, base: nat, upper: bool): string
    requires BaseOk(base)
  {
    if v == 0 then "" else [Digit(Rem(v, base), upper)] + Remainders(Quot(v, base), base, upper)
  }

  function Reversed(s: string): string {
    if s == "" then "" else Reversed(s[1..]) + [s[0]]
  }

  function Pow(base: nat, n: nat): nat {
    if n == 0 then 1 else base * Pow(base, n - 1)
  }

  // ----- what the digits mean -----

  lemma DigitMeans(d: nat, upper: bool)
    requires d < 16
    ensures DigitValue(Digit(d, upper)) == d && (Digit(d, upper) == '0' <==> d == 0)
  {
  }

  lemma Divides(v: nat, base: nat)
    requires BaseOk(base)
    ensures v == Quot(v, base) * base + Rem(v, base) && Rem(v, base) < base
    ensures (v > 0 ==> Quot(v, base) < v) && (v >= base <==> Quot(v, base) > 0)
  {
  }

  lemma NumberAppend(s: string, c: char, base: nat)
    ensures Number(s + [c], base) == Number(s, base) * base + DigitValue(c)
  {
    assert (s + [c])[..|s|] == s;
  }

  /** The digits parse back to the value. */
  lemma {:induction false} DigitsParseBack(v: nat, base: nat, upper: bool)
    requires BaseOk(base)
    ensures Number(Digits(v, base, upper), base) == v
  {
    Divides(v, base);
    if v < base {
      OneDigitMore("", 0, v, base, upper);
      assert "" + [Digit(v, upper)] == [Digit(v, upper)];
    } else {
      DigitsParseBack(Quot(v, base), base, upper);
      OneDigitMore(Digits(Quot(v, base), base, upper), Quot(v, base), Rem(v, base), base, upper);
    }
  }

  lemma OneDigitMore(s: string, q: nat, d: nat, base: nat, upper: bool)
    requires Number(s, base) == q && d < 16
    ensures Number(s + [Digit(d, upper)], base) == q * base + d
  {
    DigitMeans(d, upper);
    NumberAppend(s, Digit(d, upper), base);
  }

  /** Exactly as many digits as the value needs. */
  lemma {:induction false} DigitCount(v: nat, base: nat, upper: bool, n: nat)
    requires BaseOk(base) && 0 < n
    ensures |Digits(v, base, upper)| <= n <==> v < Pow(base, n)
  {
    assert Pow(base, 1) == base * Pow(base, 0) == base;
    if v < base {
      PowMono(base, 1, n);
    } else if n == 1 {
      NoDigitsMissing(Quot(v, base), base, upper);
    } else {
      Divides(v, base);
      DigitCount(Quot(v, base), base, upper, n - 1);
      DivideBelow(v, base, Pow(base, n - 1));
    }
  }

  /** At least one digit, and no leading zero but in "0". */
  lemma {:induction false} NoDigitsMissing(v: nat, base: nat, upper: bool)
    requires BaseOk(base)
    ensures |Digits(v, base, upper)| > 0 && (Digits(v, base, upper)[0] == '0' <==> v == 0)
  {
    Divides(v, base);
    if v < base { DigitMeans(v, upper); } else { NoDigitsMissing(Quot(v, base), base, upper); }
  }

  lemma DivideBelow(v: nat, base: nat, p: nat)
    requires BaseOk(base)
    ensures Quot(v, base) < p <==> v < base * p
  {
  }

  lemma {:induction false} MulLe(a: nat, b: nat, c: nat)
    requires a <= b
    ensures c * a <= c * b
    decreases b - a
  {
    if a < b { MulLe(a, b - 1, c); assert c * b == c * (b - 1) + c; }
  }

  lemma {:induction false} PowMono(base: nat, m: nat, n: nat)
    requires 1 <= base && m <= n
    ensures 1 <= Pow(base, m) <= Pow(base, n)
  {
    if m == 0 {
      if n > 0 { PowMono(base, 0, n - 1); MulLe(1, Pow(base, n - 1), base); }
    } else {
      PowMono(base, m - 1, n - 1);
      MulLe(Pow(base, m - 1), Pow(base, n - 1), base);
      MulLe(1, Pow(base, m - 1), base);
    }
  }

  /** A 64-bit value has at most 20 decimal or 16 hexadecimal digits, so the 32-byte buffer is enough. */
  lemma DigitsFit(v: nat, base: nat, upper: bool)
    requires v < 0x1_0000_0000_0000_0000 && BaseOk(base)
    ensures 1 <= |Digits(v, base, upper)| <= if base == 10 then 20 else 16
  {
    if base == 10 {
      assert Pow(10, 5) == 100_000;
      assert Pow(10, 10) == 100_000 * Pow(10, 5);
      assert Pow(10, 15) == 100_000 * Pow(10, 10);
      assert Pow(10, 20) == 100_000 * Pow(10, 15);
      DigitCount(v, 10, upper, 20);
    } else {
      assert Pow(16, 4) == 65_536;
      assert Pow(16, 8) == 65_536 * Pow(16, 4);
      assert Pow(16, 12) == 65_536 * Pow(16, 8);
      assert Pow(16, 16) == 65_536 * Pow(16, 12);
      DigitCount(v, 16, upper, 16);
    }
  }

  // ----- fmt_utoa -----

  lemma {:induction false} ReversedRemainders(v: nat, base: nat, upper: bool)
    requires BaseOk(base) && 0 < v
    ensures Reversed(Remainders(v, base, upper)) == Digits(v, base, upper)
  {
    Divides(v, base);
    var rest, c := Remainders(Quot(v, base), base, upper), Digit(Rem(v, base), upper);
    assert ([c] + rest)[1..] == rest;
    if v < base {
      assert rest == "" && Reversed([c]) == Reversed("") + [c];
    } else {
      ReversedRemainders(Quot(v, base), base, upper);
    }
  }

  lemma {:induction false} ReversedAt(s: string, k: nat)
    requires k < |s|
    ensures |Reversed(s)| == |s| && Reversed(s)[k] == s[|s| - 1 - k]
  {
    if |s| > 1 {
      ReversedAt(s[1..], if k < |s| - 1 then k else 0);
    }
  }

  /** The second loop of fmt_utoa. */
  method ReverseInPlace(tmp: array<char>, len: nat)
    requires len <= tmp.Length
    modifies tmp
    ensures tmp[..len] == Reversed(old(tmp[..len]))
  {
    var i := 0;
    while i < len / 2
      invariant 0 <= i <= len / 2
      invariant forall k :: 0 <= k < i ==> tmp[k] == old(tmp[len - 1 - k]) && tmp[len - 1 - k] == old(tmp[k])
      invariant forall k :: i <= k < len - i ==> tmp[k] == old(tmp[k])
    {
      tmp[i], tmp[len - 1 - i] := tmp[len - 1 - i], tmp[i];
      i := i + 1;
    }
    ghost var was := old(tmp[..len]);
    ReversedLength(was);
    forall k | 0 <= k < len ensures tmp[..len][k] == Reversed(was)[k] {
      ReversedAt(was, k);
    }
  }

  lemma NextRemainder(v: nat, base: nat, upper: bool)
    requires BaseOk(base) && 0 < v
    ensures Rem(v, base) < 16 && Quot(v, base) < v
    ensures Remainders(v, base, upper) == [Digit(Rem(v, base), upper)] + Remainders(Quot(v, base), base, upper)
  {
    Divides(v, base);
  }

  /** The first `len` digits are in the buffer, and those of v are still to come. */
  ghost predicate Halfway(tmp: array<char>, len: nat, v: nat, base: nat, upper: bool, all: string)
    requires BaseOk(base)
    reads tmp
  {
    |all| <= tmp.Length && len <= |all| && tmp[..len] == all[..len] && Remainders(v, base, upper) == all[len..]
  }

  lemma TakeDigit(all: string, len: nat, digit: char, rest: string)
    requires len <= |all| && all[len..] == [digit] + rest
    ensures len < |all| && all[..len + 1] == all[..len] + [digit] && all[len + 1..] == rest
  {
    assert all[len..][0] == digit && all[len..][1..] == all[len + 1..];
  }

  /** `tmp[len] = table[v % base]; v /= base` */
  method DivideOnce(v: nat, tmp: array<char>, len: nat, base: nat, upper: bool, ghost all: string) returns (rest: nat)
    requires BaseOk(base) && 0 < v && Halfway(tmp, len, v, base, upper, all)
    modifies tmp
    ensures rest < v && Halfway(tmp, len + 1, rest, base, upper, all)
  {
    NextRemainder(v, base, upper);
    var digit := Digit(Rem(v, base), upper);
    rest := Quot(v, base);
    TakeDigit(all, len, digit, Remainders(rest, base, upper));
    tmp[len] := digit;
  }

  /** The division loop of fmt_utoa. */
  method DivideOut(v0: nat, tmp: array<char>, base: nat, upper: bool) returns (len: nat)
    requires BaseOk(base) && |Remainders(v0, base, upper)| <= tmp.Length
    modifies tmp
    ensures len <= tmp.Length && tmp[..len] == Remainders(v0, base, upper)
  {
    var v: nat := v0;
    len := 0;
    while v > 0
      invariant Halfway(tmp, len, v, base, upper, Remainders(v0, base, upper))
    {
      v := DivideOnce(v, tmp, len, base, upper, Remainders(v0, base, upper));
      len := len + 1;
    }
  }

  /** fmt_utoa */
  method FmtUtoa(v: nat, tmp: array<char>, base: nat, upper: bool) returns (len: nat)
    requires v < 0x1_0000_0000_0000_0000 && BaseOk(base) && tmp.Length == 32
    modifies tmp
    ensures len <= 32 && tmp[..len] == Digits(v, base, upper)
  {
    DigitsFit(v, base, upper);
    if v == 0 {
      tmp[0] := '0';
      len := 1;
    } else {
      ReversedRemainders(v, base, upper);
      ReversedLength(Remainders(v, base, upper));
      len := DivideOut(v, tmp, base, upper);
    }
    if v == 0 { assert tmp[..len] == "0" == Reversed("0"); }
    ReverseInPlace(tmp, len);
  }

  lemma ReversedLength(s: string)
    ensures |Reversed(s)| == |s|
  {
    if s != "" { ReversedAt(s, 0); }
  }

  // ----- fmt_pad and fmt_num -----

  function Repeat(c: char, n: nat): (s: string)
    ensures |s| == n && forall i :: 0 <= i < n ==> s[i] == c
  {
    seq(n, _ => c)
  }

  function Gap(width: nat, length: nat): nat {
    if width > length then width - length else 0
  }

  /** A number in its field: zeros go between sign and digits, blanks around them. */
  function Field(digits: string, negative: bool, layout: Layout): string {
    var sign := if negative then "-" else "";
    var gap := Gap(layout.width, |sign| + |digits|);
    if layout.left then sign + digits + Repeat(' ', gap)
    else if layout.pad == '0' then sign + Repeat('0', gap) + digits
    else Repeat(layout.pad, gap) + sign + digits
  }

  /** The field is exactly as wide as asked for, or as its number needs. */
  lemma FieldLength(digits: string, negative: bool, layout: Layout)
    ensures var need := |digits| + (if negative then 1 else 0);
            |Field(digits, negative, layout)| == if layout.width > need then layout.width else need
  {
  }

  // ----- reading a field back -----

  /** The text without the blanks around it. */
  function TrimLeft(s: string): string {
    if s != "" && s[0] == ' ' then TrimLeft(s[1..]) else s
  }

  function TrimRight(s: string): string {
    if s != "" && s[|s| - 1] == ' ' then TrimRight(s[..|s| - 1]) else s
  }

  lemma {:induction false} TrimLeftBlanks(n: nat, s: string)
    requires s == "" || s[0] != ' '
    ensures TrimLeft(Repeat(' ', n) + s) == s
  {
    if n == 0 {
      assert Repeat(' ', 0) + s == s;
    } else {
      assert (Repeat(' ', n) + s)[1..] == Repeat(' ', n - 1) + s;
      TrimLeftBlanks(n - 1, s);
    }
  }

  lemma {:induction false} TrimRightBlanks(s: string, n: nat)
    requires s == "" || s[|s| - 1] != ' '
    ensures TrimRight(s + Repeat(' ', n)) == s
  {
    if n == 0 {
      assert s + Repeat(' ', 0) == s;
    } else {
      assert (s + Repeat(' ', n))[..|s| + n - 1] == s + Repeat(' ', n - 1);
      TrimRightBlanks(s, n - 1);
    }
  }

  /** Zeros in front do not change a number. */
  lemma {:induction false} ZerosInFront(n: nat, s: string, base: nat)
    ensures Number(Repeat('0', n) + s, base) == Number(s, base)
  {
    if s == "" {
      if n > 0 {
        assert (Repeat('0', n) + s)[..n - 1] == Repeat('0', n - 1) + s;
        ZerosInFront(n - 1, s, base);
      }
    } else {
      assert (Repeat('0', n) + s)[..n + |s| - 1] == Repeat('0', n) + s[..|s| - 1];
      ZerosInFront(n, s[..|s| - 1], base);
    }
  }

  lemma {:induction false} DigitsNotBlank(v: nat, base: nat, upper: bool)
    requires BaseOk(base)
    ensures var s := Digits(v, base, upper); |s| > 0 && s[0] != ' ' && s[0] != '-' && s[|s| - 1] != ' '
  {
    Divides(v, base);
    if v >= base { DigitsNotBlank(Quot(v, base), base, upper); }
  }

  /** Sign, zeros and digits, without the blanks around them. */
  function Body(digits: string, negative: bool, layout: Layout): string {
    var sign := if negative then "-" else "";
    var gap := Gap(layout.width, |sign| + |digits|);
    sign + Repeat('0', if !layout.left && layout.pad == '0' then gap else 0) + digits
  }

  lemma FieldIsBody(digits: string, negative: bool, layout: Layout)
    requires layout.pad == ' ' || layout.pad == '0'
    ensures exists m: nat, n: nat ::
              Field(digits, negative, layout) == Repeat(' ', m) + Body(digits, negative, layout) + Repeat(' ', n)
  {
    var sign := if negative then "-" else "";
    var gap := Gap(layout.width, |sign| + |digits|);
    var m: nat, n: nat := if !layout.left && layout.pad == ' ' then gap else 0, if layout.left then gap else 0;
    assert Repeat(' ', 0) == "" && Repeat('0', 0) == "";
    assert Field(digits, negative, layout) == Repeat(' ', m) + Body(digits, negative, layout) + Repeat(' ', n);
  }

  lemma BlanksDropped(m: nat, body: string, n: nat)
    requires body != "" && body[0] != ' ' && body[|body| - 1] != ' '
    ensures TrimLeft(TrimRight(Repeat(' ', m) + body + Repeat(' ', n))) == body
  {
    assert (Repeat(' ', m) + body)[m + |body| - 1] == body[|body| - 1];
    TrimRightBlanks(Repeat(' ', m) + body, n);
    TrimLeftBlanks(m, body);
  }

  lemma BodyShape(digits: string, negative: bool, layout: Layout) returns (zeros: nat)
    requires digits != "" && digits[0] != ' ' && digits[0] != '-' && digits[|digits| - 1] != ' '
    ensures var body := Body(digits, negative, layout);
            body != "" && body[0] != ' ' && body[|body| - 1] != ' ' && (negative <==> body[0] == '-') &&
            (if negative then body[1..] else body) == Repeat('0', zeros) + digits
  {
    var sign := if negative then "-" else "";
    zeros := if !layout.left && layout.pad == '0' then Gap(layout.width, |sign| + |digits|) else 0;
    var body := Body(digits, negative, layout);
    assert body[|body| - 1] == digits[|digits| - 1];
  }

  lemma BodyReadsBack(v: nat, base: nat, upper: bool, negative: bool, layout: Layout)
    requires BaseOk(base)
    ensures var body := Body(Digits(v, base, upper), negative, layout);
            body != "" && body[0] != ' ' && body[|body| - 1] != ' ' && (negative <==> body[0] == '-') &&
            Number(if negative then body[1..] else body, base) == v
  {
    DigitsNotBlank(v, base, upper);
    var zeros := BodyShape(Digits(v, base, upper), negative, layout);
    ZerosInFront(zeros, Digits(v, base, upper), base);
    DigitsParseBack(v, base, upper);
  }

  /** Whatever the layout, the field read back, blanks dropped, gives the sign and the value. */
  lemma FieldReadsBack(v: nat, base: nat, upper: bool, negative: bool, layout: Layout)
    requires BaseOk(base) && (layout.pad == ' ' || layout.pad == '0')
    ensures var body := TrimLeft(TrimRight(Field(Digits(v, base, upper), negative, layout)));
            body != "" && (negative <==> body[0] == '-') && Number(if negative then body[1..] else body, base) == v
  {
    var digits := Digits(v, base, upper);
    FieldIsBody(digits, negative, layout);
    var m: nat, n: nat :|
      Field(digits, negative, layout) == Repeat(' ', m) + Body(digits, negative, layout) + Repeat(' ', n);
    BodyReadsBack(v, base, upper, negative, layout);
    BlanksDropped(m, Body(digits, negative, layout), n);
  }

  /** fmt_pad */
  method FmtPad(w: LogBufWriter, pad: char, n0: nat)
    requires w.Valid()
    modifies w`segLen, w`sent, w.seg
    ensures w.Valid() && w.Text() == old(w.Text()) + Repeat(pad, n0) && old(w.sent) <= w.sent
  {
    var n := n0;
    while n > 0
      invariant 0 <= n <= n0 && w.Valid() && w.Text() == old(w.Text()) + Repeat(pad, n0 - n) && old(w.sent) <= w.sent
    {
      assert Repeat(pad, n0 - n) + [pad] == Repeat(pad, n0 - (n - 1));
      w.PutC(pad);
      n := n - 1;
    }
  }

  lemma Together(t: string, a: string, b: string, c: string)
    ensures t + a + b + c == t + (a + b + c)
  {
  }

  /** The branches of fmt_num, given the digits. */
  method PutField(w: LogBufWriter, digits: string, negative: bool, layout: Layout)
    requires w.Valid() && (layout.left ==> layout.pad != '0') && (negative && !layout.left ==> layout.pad != '0')
    modifies w`segLen, w`sent, w.seg
    ensures w.Valid() && w.Text() == old(w.Text()) + Field(digits, negative, layout) && old(w.sent) <= w.sent
  {
    ghost var text := w.Text();
    var padCount := Gap(layout.width, (if negative then 1 else 0) + |digits|);
    if !layout.left {
      FmtPad(w, layout.pad, padCount);
      PutSigned(w, digits, negative);
      Together(text, Repeat(layout.pad, padCount), if negative then "-" else "", digits);
    } else {
      PutSigned(w, digits, negative);
      FmtPad(w, ' ', padCount);
      Together(text, if negative then "-" else "", digits, Repeat(' ', padCount));
    }
  }

  /** The sign, if there is one, and the digits. */
  method PutSigned(w: LogBufWriter, digits: string, negative: bool)
    requires w.Valid()
    modifies w`segLen, w`sent, w.seg
    ensures w.Valid() && w.Text() == old(w.Text()) + (if negative then "-" else "") + digits && old(w.sent) <= w.sent
  {
    if negative {
      w.PutC('-');
    }
    w.Write(digits);
  }

  method PutSignedZeros(w: LogBufWriter, digits: string, width: nat)
    requires w.Valid()
    modifies w`segLen, w`sent, w.seg
    ensures w.Valid() && w.Text() == old(w.Text()) + Field(digits, true, Layout(width, '0', false)) &&
            old(w.sent) <= w.sent
  {
    ghost var text := w.Text();
    var padCount := Gap(width, 1 + |digits|);
    w.PutC('-');
    FmtPad(w, '0', padCount);
    w.Write(digits);
    Together(text, "-", Repeat('0', padCount), digits);
  }

  /** fmt_num.  The parser never asks for zeros on the left side. */
  method FmtNum(w: LogBufWriter, v: nat, negative: bool, base: nat, upper: bool, layout: Layout)
    requires w.Valid() && v < 0x1_0000_0000_0000_0000 && BaseOk(base)
    requires layout.left ==> layout.pad != '0'
    modifies w`segLen, w`sent, w.seg
    ensures w.Valid() && w.Text() == old(w.Text()) + Field(Digits(v, base, upper), negative, layout) &&
            old(w.sent) <= w.sent
  {
    var tmp := new char[32];
    var len := FmtUtoa(v, tmp, base, upper);
    var digits := tmp[..len];
    if negative && layout.pad == '0' {
      PutSignedZeros(w, digits, layout.width);
    } else {
      PutField(w, digits, negative, layout);
    }
  }
}
