/** rt_vsnprintf of rt-thread/src/kservice.c: the text a format and its arguments stand for, without any
    buffer. Precision is compiled in; '#' is accepted and ignored; longs have 32 bits. */
module FormatModel {
  import opened Common

  /** A C string with its terminator, the only NUL in it. */
  type CString = s: seq<char> | |s| > 0 && s[|s| - 1] == '\0' && (forall i | 0 <= i < |s| - 1 :: s[i] != '\0')
    witness ['\0']

  /** One variadic argument: its 32 bits, and the string they point to should they be a non-null pointer. */
  datatype Arg = Arg(word: Word, text: CString)
  type Args = nat -> Arg

  function Signed(w: Word): int { if w < 0x8000_0000 then w else w - 0x1_0000_0000 }

  function Rep(c: char, n: int): seq<char> { seq(Max(n, 0), _ => c) }

  /* ---- Numbers ---- */

  datatype Flags = Flags(zero: bool, sign: bool, plus: bool, space: bool, left: bool, special: bool, large: bool)

  const NO_FLAGS := Flags(false, false, false, false, false, false, false)

  const SMALL_DIGITS := "0123456789abcdef"
  const LARGE_DIGITS := "0123456789ABCDEF"

  function Digit(d: nat, large: bool): char
    requires d < 16
  {
    if large then LARGE_DIGITS[d] else SMALL_DIGITS[d]
  }

  /** `divide` knows only two bases. */
  function Radix(base: nat): (b: nat)
    ensures b == 10 || b == 16
  {
    if base == 10 then 10 else 16
  }

  /** `divide`, on unsigned longs. */
  function Quot(n: nat, b: nat): (q: nat)
    requires b == 10 || b == 16
    ensures q == n / b && (n >= b ==> 0 < q < n) && (n < b ==> q == 0)
  {
    if b == 10 then n / 10 else n / 16
  }

  function Rem(n: nat, b: nat): (r: nat)
    requires b == 10 || b == 16
    ensures r < b && n == b * Quot(n, b) + r
  {
    if b == 10 then n % 10 else n % 16
  }

  function Digits(n: nat, b: nat, large: bool): (s: seq<char>)
    requires b == 10 || b == 16
    ensures |s| > 0
  {
    if n < b then [Digit(n, large)] else Digits(Quot(n, b), b, large) + [Digit(Rem(n, b), large)]
  }

  predicate Negative(w: Word, fl: Flags) { fl.sign && w >= 0x8000_0000 }

  function Magnitude(w: Word, fl: Flags): nat { if Negative(w, fl) then 0x1_0000_0000 - w else w }

  function SignText(w: Word, fl: Flags): seq<char> {
    if !fl.sign then "" else if w >= 0x8000_0000 then "-" else if fl.plus then "+" else if fl.space then " " else ""
  }

  function NumberDigits(w: Word, base: nat, fl: Flags): (s: seq<char>)
    ensures |s| > 0
  {
    Digits(Magnitude(w, fl), Radix(base), fl.large)
  }

  /** Precision zeros and digits; a precision of 0 suppresses every digit. */
  function NumberBody(w: Word, base: nat, precision: int, fl: Flags): seq<char> {
    var ds := NumberDigits(w, base, fl);
    Rep('0', precision - |ds|) + if precision == 0 then "" else ds
  }

  /** How much padding reaches the field width. */
  function Gap(w: Word, base: nat, width: int, precision: int, fl: Flags): int {
    width - Max(|NumberDigits(w, base, fl)|, precision) - |SignText(w, fl)|
  }

  /** print_number */
  function NumberText(w: Word, base: nat, width: int, precision: int, fl: Flags): seq<char> {
    var sign, body, gap := SignText(w, fl), NumberBody(w, base, precision, fl), Gap(w, base, width, precision, fl);
    if fl.left then sign + body + Rep(' ', gap)
    else if fl.zero then sign + Rep('0', gap) + body
    else Rep(' ', gap) + sign + body
  }

  /* ---- One conversion specification ---- */

  /** What has been read of a specification: the cursor is at `at`, the next argument is `arg`. */
  datatype Spec = Spec(flags: Flags, width: int, precision: int, qual: char, at: nat, arg: nat)

  predicate IsDigit(c: char) { '0' <= c <= '9' }

  function WithFlags(fmt: CString, s: Spec): (r: Spec)
    requires s.at < |fmt|
    ensures s.at <= r.at < |fmt|
    decreases |fmt| - s.at
  {
    match fmt[s.at]
    case '-' => WithFlags(fmt, s.(at := s.at + 1, flags := s.flags.(left := true)))
    case '+' => WithFlags(fmt, s.(at := s.at + 1, flags := s.flags.(plus := true)))
    case ' ' => WithFlags(fmt, s.(at := s.at + 1, flags := s.flags.(space := true)))
    case '#' => WithFlags(fmt, s.(at := s.at + 1, flags := s.flags.(special := true)))
    case '0' => WithFlags(fmt, s.(at := s.at + 1, flags := s.flags.(zero := true)))
    case _ => s
  }

  /** Where the digits that start at `i` end. */
  function DigitsEnd(fmt: CString, i: nat): (k: nat)
    requires i < |fmt|
    ensures i <= k < |fmt|
    decreases |fmt| - i
  {
    if IsDigit(fmt[i]) then DigitsEnd(fmt, i + 1) else i
  }

  /** skip_atoi with `acc` already read. */
  function Atoi(fmt: CString, i: nat, acc: nat): nat
    requires i < |fmt|
    decreases |fmt| - i
  {
    if IsDigit(fmt[i]) then Atoi(fmt, i + 1, acc * 10 + (fmt[i] as int - '0' as int)) else acc
  }

  const INT_MAX: int := 0x7FFF_FFFF

  /** Every step of skip_atoi, which adds the character before it subtracts '0', stays within an int. */
  predicate AtoiDefined(fmt: CString, i: nat, acc: nat)
    requires i < |fmt|
    decreases |fmt| - i
  {
    !IsDigit(fmt[i]) ||
    (acc * 10 + fmt[i] as int <= INT_MAX && AtoiDefined(fmt, i + 1, acc * 10 + (fmt[i] as int - '0' as int)))
  }

  lemma {:induction false} AtoiGrows(fmt: CString, i: nat, acc: nat)
    requires i < |fmt|
    ensures Atoi(fmt, i, acc) >= acc
    decreases |fmt| - i
  {
    if IsDigit(fmt[i]) {
      AtoiGrows(fmt, i + 1, acc * 10 + (fmt[i] as int - '0' as int));
    }
  }

  /** C defines skip_atoi exactly for numbers up to INT_MAX - '0'. */
  lemma {:induction false} AtoiExact(fmt: CString, i: nat, acc: nat)
    requires i < |fmt|
    ensures AtoiDefined(fmt, i, acc) <==> !IsDigit(fmt[i]) || Atoi(fmt, i, acc) + '0' as int <= INT_MAX
    decreases |fmt| - i
  {
    if IsDigit(fmt[i]) {
      var next := acc * 10 + (fmt[i] as int - '0' as int);
      AtoiExact(fmt, i + 1, next);
      AtoiGrows(fmt, i + 1, next);
    }
  }

  function WithWidth(fmt: CString, s: Spec, args: Args): (r: Spec)
    requires s.at < |fmt|
    ensures s.at <= r.at < |fmt|
  {
    if IsDigit(fmt[s.at]) then s.(width := Atoi(fmt, s.at, 0), at := DigitsEnd(fmt, s.at))
    else if fmt[s.at] == '*' then
      var w := Signed(args(s.arg).word);
      s.(at := s.at + 1, arg := s.arg + 1, width := if w < 0 then -w else w,
         flags := s.flags.(left := s.flags.left || w < 0))
    else s
  }

  function WithPrecision(fmt: CString, s: Spec, args: Args): (r: Spec)
    requires s.at < |fmt|
    ensures s.at <= r.at < |fmt|
  {
    if fmt[s.at] != '.' then s
    else
      var i := s.at + 1;
      if IsDigit(fmt[i]) then s.(precision := Atoi(fmt, i, 0), at := DigitsEnd(fmt, i))
      else if fmt[i] == '*' then s.(precision := Max(Signed(args(s.arg).word), 0), at := i + 1, arg := s.arg + 1)
      else s.(precision := 0, at := i)
  }

  function WithQualifier(fmt: CString, s: Spec): (r: Spec)
    requires s.at < |fmt|
    ensures s.at <= r.at < |fmt|
  {
    if fmt[s.at] == 'h' || fmt[s.at] == 'l' then s.(qual := fmt[s.at], at := s.at + 1) else s
  }

  /** The specification that follows the '%' before `i`; its conversion character is fmt[r.at]. */
  function Parsed(fmt: CString, i: nat, args: Args, a: nat): (r: Spec)
    requires i < |fmt|
    ensures i <= r.at < |fmt|
  {
    var flagged := WithFlags(fmt, Spec(NO_FLAGS, -1, -1, '\0', i, a));
    WithQualifier(fmt, WithPrecision(fmt, WithWidth(fmt, flagged, args), args))
  }

  /* ---- Conversions ---- */

  /** The argument of an integer conversion, narrowed by 'h'. */
  function Operand(w: Word, qual: char, sign: bool): Word {
    if qual != 'h' then w
    else
      var h := w % 0x1_0000;
      if sign && h >= 0x8000 then h + 0xFFFF_0000 else h
  }

  /** A character in its field. */
  function CharText(w: Word, s: Spec): seq<char> {
    var c := [(w % 256) as char];
    if s.flags.left then c + Rep(' ', s.width - 1) else Rep(' ', s.width - 1) + c
  }

  const NULL_TEXT: CString := "(NULL)\0"

  /** How much of a string is shown: the width cuts it, too; a precision of 0 does not. */
  function Shown(t: CString, s: Spec): (n: nat)
    ensures n < |t|
  {
    var n := if 0 <= s.width < |t| - 1 then s.width else |t| - 1;
    if 0 < s.precision < n then s.precision else n
  }

  function Pointee(a: Arg): CString { if a.word == 0 then NULL_TEXT else a.text }

  function StringText(t: CString, s: Spec): seq<char> {
    var n := Shown(t, s);
    if s.flags.left then t[..n] + Rep(' ', s.width - n) else Rep(' ', s.width - n) + t[..n]
  }

  function PointerText(w: Word, s: Spec): seq<char> {
    if s.width == -1 then NumberText(w, 16, 8, s.precision, s.flags.(zero := true))
    else NumberText(w, 16, s.width, s.precision, s.flags)
  }

  predicate IsInteger(c: char) { c == 'o' || c == 'X' || c == 'x' || c == 'd' || c == 'i' || c == 'u' }

  function Base(c: char): nat { if c == 'o' then 8 else if c == 'x' || c == 'X' then 16 else 10 }

  function IntegerFlags(c: char, fl: Flags): Flags {
    fl.(large := fl.large || c == 'X', sign := fl.sign || c == 'd' || c == 'i')
  }

  function IntegerText(c: char, w: Word, s: Spec): seq<char> {
    var fl := IntegerFlags(c, s.flags);
    NumberText(Operand(w, s.qual, fl.sign), Base(c), s.width, s.precision, fl)
  }

  /** What specification `s` with conversion character `c` prints. */
  function Piece(c: char, s: Spec, args: Args): seq<char> {
    if c == 'c' then CharText(args(s.arg).word, s)
    else if c == 's' then StringText(Pointee(args(s.arg)), s)
    else if c == 'p' then PointerText(args(s.arg).word, s)
    else if c == '%' then "%"
    else if IsInteger(c) then IntegerText(c, args(s.arg).word, s)
    else if c != '\0' then ['%', c]
    else "%"
  }

  predicate TakesArg(c: char) { c == 'c' || c == 's' || c == 'p' || IsInteger(c) }

  function NextArg(c: char, s: Spec): nat { if TakesArg(c) then s.arg + 1 else s.arg }

  /** A specification cut off by the terminator is not stepped over. */
  function NextAt(c: char, s: Spec): nat { if c == '\0' then s.at else s.at + 1 }

  /** What one round prints, and where it leaves the format and the arguments. */
  function Head(fmt: CString, i: nat, args: Args, a: nat): seq<char>
    requires i < |fmt| && fmt[i] != '\0'
  {
    if fmt[i] != '%' then [fmt[i]]
    else var s := Parsed(fmt, i + 1, args, a); Piece(fmt[s.at], s, args)
  }

  function HeadEnd(fmt: CString, i: nat, args: Args, a: nat): (k: nat)
    requires i < |fmt| && fmt[i] != '\0'
    ensures i < k < |fmt|
  {
    if fmt[i] != '%' then i + 1
    else var s := Parsed(fmt, i + 1, args, a); NextAt(fmt[s.at], s)
  }

  function HeadArg(fmt: CString, i: nat, args: Args, a: nat): nat
    requires i < |fmt| && fmt[i] != '\0'
  {
    if fmt[i] != '%' then a
    else var s := Parsed(fmt, i + 1, args, a); NextArg(fmt[s.at], s)
  }

  /** The whole text printed from fmt[i..] on, arguments from `a` on. */
  function Output(fmt: CString, i: nat, args: Args, a: nat): seq<char>
    requires i < |fmt|
    decreases |fmt| - i
  {
    if fmt[i] == '\0' then ""
    else Head(fmt, i, args, a) + Output(fmt, HeadEnd(fmt, i, args, a), args, HeadArg(fmt, i, args, a))
  }

  lemma OutputStep(fmt: CString, i: nat, args: Args, a: nat, before: seq<char>)
    requires i < |fmt| && fmt[i] != '\0'
    ensures before + Output(fmt, i, args, a) ==
      (before + Head(fmt, i, args, a)) + Output(fmt, HeadEnd(fmt, i, args, a), args, HeadArg(fmt, i, args, a))
  {
    Joined(before, Head(fmt, i, args, a), Output(fmt, HeadEnd(fmt, i, args, a), args, HeadArg(fmt, i, args, a)));
  }

  lemma Joined(a: seq<char>, b: seq<char>, c: seq<char>)
    ensures (a + b) + c == a + (b + c)
  {}

  /* ---- Buffers ---- */

  /** Bytes usable from address `addr` on: the end is clamped when it would wrap. */
  function Room(addr: Word, size: Word): nat {
    if addr + size >= 0x1_0000_0000 then 0xFFFF_FFFF - addr else size
  }

  /** A buffer after the text `out` has been printed into its first `room` bytes. */
  function Image(was: seq<char>, out: seq<char>, room: nat): (now: seq<char>)
    requires room <= |was| || |out| < |was|
    ensures |now| == |was|
  {
    if room == 0 then was
    else
      var n := if |out| < room then |out| else room - 1;
      out[..n] + ['\0'] + was[n + 1..]
  }

  /** The characters of the text that stay in the buffer, the terminator not counted. */
  function Stored(out: seq<char>, room: nat): nat {
    if room == 0 then 0 else if |out| < room then |out| else room - 1
  }

  lemma StoredIs(was: seq<char>, out: seq<char>, room: nat)
    requires room <= |was| || |out| < |was|
    ensures var now, n := Image(was, out, room), Stored(out, room);
      && n <= |now| && now[..n] == out[..n]
      && (room > 0 ==> n < |now| && now[n] == '\0' && now[n + 1..] == was[n + 1..])
      && (room == 0 ==> now == was)
  {}

  /** The count that rt_vsnprintf returns is the number of characters it left in the buffer exactly when
      the text was not cut, or there was none. */
  lemma CountExact(out: seq<char>, room: nat)
    ensures |out| == Stored(out, room) <==> |out| < room || out == ""
  {}

  /** Printing "ab" into two bytes returns 2 and leaves one character. */
  lemma CutText(args: Args)
    ensures Output("ab\0", 0, args, 0) == "ab" && Stored("ab", 2) == 1
  {
    var fmt: CString := "ab\0";
    assert Output(fmt, 2, args, 0) == "";
    assert Output(fmt, 1, args, 0) == "b" + "";
    assert Output(fmt, 0, args, 0) == "a" + "b";
  }
}
