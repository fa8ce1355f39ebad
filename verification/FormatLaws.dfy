/** What each conversion of rt_vsnprintf prints, said of the argument alone: lengths, blanks, digits, values. */
module FormatLaws {
  import opened Common
  import opened FormatModel
  import opened ScanModel
  import opened PrintScan

  predicate Blank(t: seq<char>) { forall i | 0 <= i < |t| :: t[i] == ' ' }

  lemma RepBlank(n: int)
    ensures Blank(Rep(' ', n)) && |Rep(' ', n)| == Max(n, 0)
  {}

  /** `t` is the text `x` in a field of `width` characters: blanks fill it up, before x unless `left`. */
  predicate InWidth(t: seq<char>, x: seq<char>, width: int, left: bool) {
    && |t| == Max(|x|, width)
    && (left ==> t[..|x|] == x && Blank(t[|x|..]))
    && (!left ==> t[|t| - |x|..] == x && Blank(t[..|t| - |x|]))
  }

  lemma FieldIs(x: seq<char>, width: int, left: bool, t: seq<char>)
    requires t == if left then x + Rep(' ', width - |x|) else Rep(' ', width - |x|) + x
    ensures InWidth(t, x, width, left)
  {
    RepBlank(width - |x|);
    if left {
      assert t[|x|..] == Rep(' ', width - |x|);
    } else {
      assert t[..|t| - |x|] == Rep(' ', width - |x|);
    }
  }

  /** The usable part of a buffer: all of it, unless it would reach the last address; that byte stays out. */
  lemma RoomLaw(addr: Word, size: Word)
    ensures var n := Room(addr, size);
      n <= size && addr + n <= 0xFFFF_FFFF && (n == size || addr + n == 0xFFFF_FFFF)
  {}

  /* ---- Characters and strings ---- */

  /** %c: the low byte of the argument in its field. */
  lemma CharLaw(s: Spec, args: Args)
    ensures InWidth(Piece('c', s, args), [(args(s.arg).word % 256) as char], s.width, s.flags.left)
  {
    FieldIs([(args(s.arg).word % 256) as char], s.width, s.flags.left, Piece('c', s, args));
  }

  /** %% and unknown conversions; an unfinished one prints its percent sign. */
  lemma OtherLaw(c: char, s: Spec, args: Args)
    requires c !in "cspoXxdiu"
    ensures Piece(c, s, args) == if c == '%' || c == '\0' then "%" else ['%'] + [c]
  {
    assert 'c' in "cspoXxdiu" && 's' in "cspoXxdiu" && 'p' in "cspoXxdiu" && 'o' in "cspoXxdiu" && 'X' in "cspoXxdiu";
    assert 'x' in "cspoXxdiu" && 'd' in "cspoXxdiu" && 'i' in "cspoXxdiu" && 'u' in "cspoXxdiu";
  }

  function Least(a: nat, b: int, use: bool): nat { if use && 0 <= b < a then b else a }

  /** %s: the string behind the pointer, "(NULL)" for a null pointer only, cut to the width and to a precision
      above 0. */
  lemma StringLaw(s: Spec, args: Args)
    ensures var a := args(s.arg);
      var str := if a.word != 0 then a.text[..|a.text| - 1] else "(NULL)";
      var n := Least(Least(|str|, s.width, true), s.precision, s.precision > 0);
      n <= |str| && InWidth(Piece('s', s, args), str[..n], s.width, s.flags.left)
  {
    var a := args(s.arg);
    var t := Pointee(a);
    var str := if a.word != 0 then a.text[..|a.text| - 1] else "(NULL)";
    assert str == t[..|t| - 1];
    var n := Least(Least(|str|, s.width, true), s.precision, s.precision > 0);
    assert t[..n] == str[..n];
    FieldIs(str[..n], s.width, s.flags.left, Piece('s', s, args));
  }

  /* ---- Numbers ---- */

  /** How many digits n has. */
  function Count(n: nat, b: nat): (k: nat)
    requires b == 10 || b == 16
    ensures k > 0
  {
    if n < b then 1 else Count(Quot(n, b), b) + 1
  }

  predicate RightCase(t: seq<char>, upper: bool) {
    forall i | 0 <= i < |t| :: if upper then !('a' <= t[i] <= 'f') else !('A' <= t[i] <= 'F')
  }

  /** Digits in base b, of the right case, that denote n. */
  predicate Denotes(t: seq<char>, n: nat, b: nat, upper: bool) {
    t != [] && AllDigits(t, b) && Value(t, b) == n && RightCase(t, upper)
  }

  lemma {:induction false} CountIs(n: nat, b: nat, large: bool)
    requires b == 10 || b == 16
    ensures |Digits(n, b, large)| == Count(n, b) && RightCase(Digits(n, b, large), large)
  {
    DigitCase(n % b, large);
    if n >= b {
      CountIs(Quot(n, b), b, large);
      DigitCase(Rem(n, b), large);
    }
  }

  lemma DigitCase(d: nat, large: bool)
    requires d < 16
    ensures RightCase([Digit(d, large)], large)
  {}

  /** Zeros before digits keep value and case. */
  lemma ZerosDenote(z: int, ds: seq<char>, n: nat, b: nat, upper: bool)
    requires Denotes(ds, n, b, upper) && b > 0
    ensures Denotes(Rep('0', z) + ds, n, b, upper) && |Rep('0', z) + ds| == Max(z, 0) + |ds|
  {
    PaddedValue(Max(z, 0), ds, b);
    ZerosValue(Max(z, 0), b);
    assert Rep('0', z) == Rep('0', Max(z, 0));
  }

  /** A sign and k digits that denote n in a field: blanks after them if `left`, else zeros between sign and
      digits if `zero`, else blanks before the sign. */
  predicate Laid(t: seq<char>, sg: seq<char>, k: nat, n: nat, b: nat, upper: bool, width: int, left: bool, zero: bool) {
    var len := |sg| + k;
    && |t| == Max(len, width)
    && if left then t[..|sg|] == sg && Denotes(t[|sg|..len], n, b, upper) && Blank(t[len..])
       else if zero then t[..|sg|] == sg && Denotes(t[|sg|..], n, b, upper)
       else Blank(t[..|t| - len]) && t[|t| - len..|t| - k] == sg && Denotes(t[|t| - k..], n, b, upper)
  }

  lemma LaidLeft(sg: seq<char>, ds: seq<char>, n: nat, b: nat, upper: bool, width: int)
    requires Denotes(ds, n, b, upper)
    ensures Laid(sg + ds + Rep(' ', width - |ds| - |sg|), sg, |ds|, n, b, upper, width, true, false)
    ensures Laid(sg + ds + Rep(' ', width - |ds| - |sg|), sg, |ds|, n, b, upper, width, true, true)
  {
    var t := sg + ds + Rep(' ', width - |ds| - |sg|);
    RepBlank(width - |ds| - |sg|);
    assert t[..|sg|] == sg && t[|sg|..|sg| + |ds|] == ds && t[|sg| + |ds|..] == Rep(' ', width - |ds| - |sg|);
  }

  lemma LaidZero(sg: seq<char>, ds: seq<char>, n: nat, b: nat, upper: bool, width: int)
    requires Denotes(ds, n, b, upper) && b > 0
    ensures Laid(sg + Rep('0', width - |ds| - |sg|) + ds, sg, |ds|, n, b, upper, width, false, true)
  {
    var z := width - |ds| - |sg|;
    var t := sg + Rep('0', z) + ds;
    ZerosDenote(z, ds, n, b, upper);
    assert t[..|sg|] == sg && t[|sg|..] == Rep('0', z) + ds;
  }

  lemma LaidRight(sg: seq<char>, ds: seq<char>, n: nat, b: nat, upper: bool, width: int)
    requires Denotes(ds, n, b, upper)
    ensures Laid(Rep(' ', width - |ds| - |sg|) + sg + ds, sg, |ds|, n, b, upper, width, false, false)
  {
    var pad := Rep(' ', width - |ds| - |sg|);
    var t := pad + sg + ds;
    RepBlank(width - |ds| - |sg|);
    var i, j := |t| - |sg| - |ds|, |t| - |ds|;
    assert t[..i] == pad && t[i..j] == sg && t[j..] == ds;
  }

  /** Sign and magnitude of a value under the flags. */
  function SignFor(v: int, fl: Flags): seq<char> {
    if v < 0 then "-" else if fl.plus then "+" else if fl.space then " " else ""
  }

  function Abs(v: int): nat { if v < 0 then -v else v }

  lemma BodyLaw(w: Word, base: nat, precision: int, fl: Flags)
    requires precision != 0
    ensures var n, b, body := Magnitude(w, fl), Radix(base), NumberBody(w, base, precision, fl);
      Denotes(body, n, b, fl.large) && |body| == Max(Count(n, b), precision)
  {
    var n, b, ds := Magnitude(w, fl), Radix(base), NumberDigits(w, base, fl);
    DigitsDenote(n, b, fl.large);
    CountIs(n, b, fl.large);
    ZerosDenote(precision - |ds|, ds, n, b, fl.large);
  }

  lemma ArrangeLaw(t: seq<char>, sg: seq<char>, body: seq<char>, n: nat, b: nat, upper: bool, width: int, fl: Flags)
    requires Denotes(body, n, b, upper) && b > 0
    requires var gap := width - |body| - |sg|;
      t == if fl.left then sg + body + Rep(' ', gap)
           else if fl.zero then sg + Rep('0', gap) + body
           else Rep(' ', gap) + sg + body
    ensures Laid(t, sg, |body|, n, b, upper, width, fl.left, fl.zero)
  {
    if fl.left {
      LaidLeft(sg, body, n, b, upper, width);
    } else if fl.zero {
      LaidZero(sg, body, n, b, upper, width);
    } else {
      LaidRight(sg, body, n, b, upper, width);
    }
  }

  lemma TextIs(w: Word, base: nat, width: int, precision: int, fl: Flags, sg: seq<char>, body: seq<char>)
    requires precision != 0 && sg == SignText(w, fl) && body == NumberBody(w, base, precision, fl)
    ensures var gap := width - |body| - |sg|;
      NumberText(w, base, width, precision, fl) ==
        if fl.left then sg + body + Rep(' ', gap)
        else if fl.zero then sg + Rep('0', gap) + body
        else Rep(' ', gap) + sg + body
  {}

  /** print_number with any precision but 0. */
  lemma NumberLaw(w: Word, base: nat, width: int, precision: int, fl: Flags)
    requires precision != 0
    ensures var n, b := Magnitude(w, fl), Radix(base);
      Laid(NumberText(w, base, width, precision, fl), SignText(w, fl), Max(Count(n, b), precision), n, b, fl.large,
           width, fl.left, fl.zero)
  {
    var sg, body := SignText(w, fl), NumberBody(w, base, precision, fl);
    BodyLaw(w, base, precision, fl);
    TextIs(w, base, width, precision, fl, sg, body);
    ArrangeLaw(NumberText(w, base, width, precision, fl), sg, body, Magnitude(w, fl), Radix(base), fl.large, width, fl);
  }

  /** With precision 0 no digit is printed, but the digits count for the padding. */
  lemma HiddenLaw(w: Word, base: nat, width: int, fl: Flags)
    ensures var sg := SignText(w, fl);
      var gap := width - |sg| - Count(Magnitude(w, fl), Radix(base));
      NumberText(w, base, width, 0, fl) ==
        if fl.left then sg + Rep(' ', gap) else if fl.zero then sg + Rep('0', gap) else Rep(' ', gap) + sg
  {
    CountIs(Magnitude(w, fl), Radix(base), fl.large);
    assert NumberBody(w, base, 0, fl) == "";
  }

  /* ---- Integer conversions ---- */

  /** The argument as 'h' narrows it: a short, or an unsigned short. */
  function SignedArg(w: Word, qual: char): int {
    if qual == 'h' then (if w % 0x1_0000 < 0x8000 then w % 0x1_0000 else w % 0x1_0000 - 0x1_0000)
    else if w < 0x8000_0000 then w else w - 0x1_0000_0000
  }

  function UnsignedArg(w: Word, qual: char): nat { if qual == 'h' then w % 0x1_0000 else w }

  lemma SignedOperand(w: Word, qual: char, fl: Flags)
    requires fl.sign
    ensures var x, v := Operand(w, qual, true), SignedArg(w, qual);
      SignText(x, fl) == SignFor(v, fl) && Magnitude(x, fl) == Abs(v)
  {}

  lemma UnsignedOperand(w: Word, qual: char, fl: Flags)
    requires !fl.sign
    ensures var x := Operand(w, qual, false); SignText(x, fl) == "" && Magnitude(x, fl) == UnsignedArg(w, qual)
  {}

  lemma PieceIs(c: char, s: Spec, args: Args, fl: Flags)
    requires IsInteger(c) && fl == IntegerFlags(c, s.flags)
    ensures Piece(c, s, args) ==
      NumberText(Operand(args(s.arg).word, s.qual, fl.sign), Base(c), s.width, s.precision, fl)
  {}

  /** %d and %i print the signed value in base 10. */
  lemma DecimalLaw(c: char, s: Spec, args: Args)
    requires (c == 'd' || c == 'i') && s.precision != 0
    ensures var v := SignedArg(args(s.arg).word, s.qual);
      Laid(Piece(c, s, args), SignFor(v, s.flags), Max(Count(Abs(v), 10), s.precision), Abs(v), 10, s.flags.large,
           s.width, s.flags.left, s.flags.zero)
  {
    var fl := s.flags.(sign := true);
    var w := args(s.arg).word;
    PieceIs(c, s, args, fl);
    SignedOperand(w, s.qual, fl);
    NumberLaw(Operand(w, s.qual, true), 10, s.width, s.precision, fl);
  }

  /** %u, %x and %X print the unsigned value, in base 10 or 16, %X alone with capitals. */
  lemma UnsignedLaw(c: char, s: Spec, args: Args)
    requires (c == 'u' || c == 'x' || c == 'X') && s.precision != 0 && !s.flags.sign && !s.flags.large
    ensures var n, b := UnsignedArg(args(s.arg).word, s.qual), if c == 'u' then 10 else 16;
      Laid(Piece(c, s, args), "", Max(Count(n, b), s.precision), n, b, c == 'X', s.width, s.flags.left, s.flags.zero)
  {
    var fl := s.flags.(large := c == 'X');
    var w := args(s.arg).word;
    PieceIs(c, s, args, fl);
    UnsignedOperand(w, s.qual, fl);
    NumberLaw(Operand(w, s.qual, false), Base(c), s.width, s.precision, fl);
  }

  /** %p prints all 32 bits in base 16, eight digits unless a width is given. */
  lemma PointerLaw(s: Spec, args: Args)
    requires s.precision != 0 && !s.flags.sign && !s.flags.large
    ensures var w, free := args(s.arg).word, s.width == -1;
      Laid(Piece('p', s, args), "", Max(Count(w, 16), s.precision), w, 16, false,
           if free then 8 else s.width, s.flags.left, free || s.flags.zero)
  {
    var w := args(s.arg).word;
    if s.width == -1 {
      NumberLaw(w, 16, 8, s.precision, s.flags.(zero := true));
    } else {
      NumberLaw(w, 16, s.width, s.precision, s.flags);
    }
  }
}
