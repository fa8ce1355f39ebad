/** print_number and rt_vsnprintf as they run: a cursor that advances through a buffer and stops writing,
    but not counting, at `end`. */
module Format {
  import opened Common
  import opened FormatModel

  /** The buffer, the cursor `str` (pos) and `end` of rt_vsnprintf. */
  class Writer {
    const buf: array<char>
    const end: nat
    var pos: nat
    /** Everything printed so far, stored or not; the buffer before printing; the length still to come. */
    ghost var text: seq<char>
    ghost const was: seq<char>
    ghost const total: nat

    ghost predicate Cell(j: nat)
      requires j < buf.Length && |was| == buf.Length && pos == |text|
      reads this, buf
    {
      buf[j] == if j < pos && j < end then text[j] else was[j]
    }

    ghost predicate Valid()
      reads this, buf
    {
      && pos == |text| && |was| == buf.Length
      && (end <= buf.Length || total < buf.Length)
      && forall j | 0 <= j < buf.Length :: Cell(j)
    }

    constructor (buf: array<char>, end: nat, ghost total: nat)
      requires end <= buf.Length || total < buf.Length
      ensures Valid() && text == [] && this.buf == buf && this.end == end && this.total == total && was == old(buf[..])
    {
      this.buf, this.end, this.total := buf, end, total;
      this.pos, this.text, this.was := 0, [], buf[..];
    }

    /** if (str < end) *str = c; ++str; */
    method Put(c: char)
      requires Valid() && |text| < total
      modifies this, buf
      ensures Valid() && text == old(text) + [c]
    {
      if pos < end {
        buf[pos] := c;
      }
      pos := pos + 1;
      text := text + [c];
      forall j | 0 <= j < buf.Length
        ensures Cell(j)
      {
        assert old(Cell(j));
      }
    }

    method Repeat(c: char, n: int)
      requires Valid() && |text| + Max(n, 0) <= total
      modifies this, buf
      ensures Valid() && text == old(text) + Rep(c, n)
    {
      var k := 0;
      while k < n
        invariant 0 <= k <= Max(n, 0)
        invariant Valid() && text == old(text) + Rep(c, k)
      {
        Put(c);
        k := k + 1;
        assert Rep(c, k) == Rep(c, k - 1) + [c];
      }
    }

    /** The last loop over tmp[], from the most significant digit down. */
    method PutDigits(tmp: array<char>, n: nat, ghost ds: seq<char>)
      requires Valid() && tmp != buf && |text| + |ds| <= total
      requires Holds(tmp, n, ds)
      modifies this, buf
      ensures Valid() && text == old(text) + ds
    {
      var i := n;
      while i > 0
        invariant 0 <= i <= n && Valid() && text == old(text) + ds[..n - i]
        invariant forall k | 0 <= k < n :: tmp[k] == ds[n - 1 - k]
      {
        i := i - 1;
        Put(tmp[i]);
      }
    }

    /** Padding and sign of print_number; returns what is left of the field. */
    method PutPrefix(sign: char, field: int, fl: Flags) returns (size: int)
      requires Valid() && |text| + |Prefix(sign, field, fl)| <= total
      modifies this, buf
      ensures Valid() && text == old(text) + Prefix(sign, field, fl)
      ensures Rep(' ', size) == Tail(sign, field, fl)
    {
      size := field;
      if !fl.left && !fl.zero {
        if sign != '\0' && size > 0 {
          size := size - 1;
        }
        Repeat(' ', size);
        size := -1;
      }
      if sign != '\0' {
        Put(sign);
        size := size - 1;
      }
      if !fl.left {
        Repeat(if fl.zero then '0' else ' ', size);
        size := -1;
      }
    }

    /** Precision zeros, digits and left-justified padding of print_number. */
    method PutBody(tmp: array<char>, n: nat, precision: int, size: int, ghost ds: seq<char>)
      requires Valid() && tmp != buf && Holds(tmp, n, ds)
      requires |text| + |Body(ds, precision) + Rep(' ', size)| <= total
      modifies this, buf
      ensures Valid() && text == old(text) + (Body(ds, precision) + Rep(' ', size))
    {
      Repeat('0', precision - n);
      if precision != 0 {
        PutDigits(tmp, n, ds);
      }
      Repeat(' ', size);
    }

    /** Everything print_number writes once sign and digits are known. */
    method PutNumber(sign: char, field: int, fl: Flags, tmp: array<char>, n: nat, precision: int, ghost ds: seq<char>)
      requires Valid() && tmp != buf && Holds(tmp, n, ds)
      requires |text| + |Whole(sign, field, fl, ds, precision)| <= total
      modifies this, buf
      ensures Valid() && text == old(text) + Whole(sign, field, fl, ds, precision)
    {
      ghost var before := text;
      var size := PutPrefix(sign, field, fl);
      PutBody(tmp, n, precision, size, ds);
      Joined(before, Prefix(sign, field, fl), Body(ds, precision) + Rep(' ', size));
    }

    /** print_number */
    method PrintNumber(w: Word, base: nat, width: int, precision: int, fl: Flags)
      requires Valid() && |text| + |NumberText(w, base, width, precision, fl)| <= total
      modifies this, buf
      ensures Valid() && text == old(text) + NumberText(w, base, width, precision, fl)
    {
      var num, sign := TakeSign(w, fl);
      ghost var ds := NumberDigits(w, base, fl);
      Parts(w, base, width, precision, fl, sign, ds);
      var tmp := new char[16];
      var i := Extract(num, Radix(base), fl.large, tmp);
      assert Valid() && Holds(tmp, i, ds);
      var field := width - if i > precision then i else precision;
      assert field == width - Max(|ds|, precision);
      PutNumber(sign, field, fl, tmp, i, precision, ds);
    }

    /** The 'c' conversion. */
    method PrintChar(w: Word, s: Spec)
      requires Valid() && |text| + |CharText(w, s)| <= total
      modifies this, buf
      ensures Valid() && text == old(text) + CharText(w, s)
    {
      var width := s.width - 1;
      if !s.flags.left {
        Repeat(' ', width);
        width := 0;
      }
      Put((w % 256) as char);
      Repeat(' ', width);
    }

    /** The loop that copies `n` characters of a string. */
    method PutText(t: CString, n: nat)
      requires Valid() && n < |t| && |text| + n <= total
      modifies this, buf
      ensures Valid() && text == old(text) + t[..n]
    {
      for i := 0 to n
        invariant Valid() && text == old(text) + t[..i]
      {
        Put(t[i]);
        assert t[..i + 1] == t[..i] + [t[i]];
      }
    }

    /** The 's' conversion. */
    method PrintString(a: Arg, s: Spec)
      requires Valid() && |text| + |StringText(Pointee(a), s)| <= total
      modifies this, buf
      ensures Valid() && text == old(text) + StringText(Pointee(a), s)
    {
      var t: CString := if a.word == 0 then NULL_TEXT else a.text;
      var n := Measure(t, s);
      PutField(t, n, s.width - n, s.flags.left);
    }

    /** A string and its padding. */
    method PutField(t: CString, n: nat, pad: int, left: bool)
      requires Valid() && n < |t| && |text| + n + Max(pad, 0) <= total
      modifies this, buf
      ensures Valid()
      ensures text == old(text) + if left then t[..n] + Rep(' ', pad) else Rep(' ', pad) + t[..n]
    {
      ghost var before := text;
      if left {
        PutText(t, n);
        Repeat(' ', pad);
        Joined(before, t[..n], Rep(' ', pad));
      } else {
        Repeat(' ', pad);
        PutText(t, n);
        Joined(before, Rep(' ', pad), t[..n]);
      }
    }

    /** Integer conversions. */
    method PrintInteger(c: char, w: Word, s: Spec)
      requires Valid() && IsInteger(c) && |text| + |IntegerText(c, w, s)| <= total
      modifies this, buf
      ensures Valid() && text == old(text) + IntegerText(c, w, s)
    {
      var base, fl := 10, s.flags;
      if c == 'o' {
        base := 8;
      } else if c == 'X' {
        fl := fl.(large := true);
        base := 16;
      } else if c == 'x' {
        base := 16;
      } else if c == 'd' || c == 'i' {
        fl := fl.(sign := true);
      }
      assert base == Base(c) && fl == IntegerFlags(c, s.flags);
      PrintNumber(Operand(w, s.qual, fl.sign), base, s.width, s.precision, fl);
    }

    /** The 'p' conversion. */
    method PrintPointer(w: Word, s: Spec)
      requires Valid() && |text| + |PointerText(w, s)| <= total
      modifies this, buf
      ensures Valid() && text == old(text) + PointerText(w, s)
    {
      if s.width == -1 {
        PrintNumber(w, 16, 8, s.precision, s.flags.(zero := true));
      } else {
        PrintNumber(w, 16, s.width, s.precision, s.flags);
      }
    }

    /** The switch on the conversion character. */
    method Convert(c: char, s: Spec, args: Args)
      requires Valid() && |text| + |Piece(c, s, args)| <= total
      modifies this, buf
      ensures Valid() && text == old(text) + Piece(c, s, args)
    {
      if c == 'c' {
        PrintChar(args(s.arg).word, s);
      } else if c == 's' {
        PrintString(args(s.arg), s);
      } else if c == 'p' {
        PrintPointer(args(s.arg).word, s);
      } else if c == '%' {
        Put('%');
      } else if IsInteger(c) {
        PrintInteger(c, args(s.arg).word, s);
      } else {
        Put('%');
        if c != '\0' {
          Put(c);
        }
      }
    }

    /** A conversion specification: parse it, print it. */
    method PrintSpec(fmt: CString, i: nat, args: Args, a: nat, ghost want: Spec) returns (k: nat, b: nat)
      requires Valid() && i < |fmt| && want == Parsed(fmt, i, args, a)
      requires |text| + |Piece(fmt[want.at], want, args)| <= total
      modifies this, buf
      ensures Valid() && text == old(text) + Piece(fmt[want.at], want, args)
      ensures k == NextAt(fmt[want.at], want) && b == NextArg(fmt[want.at], want)
    {
      var s := ReadSpec(fmt, i, args, a);
      var c := fmt[s.at];
      Convert(c, s, args);
      k, b := NextAt(c, s), NextArg(c, s);
    }

    /** One round of the format loop. */
    method PrintOne(fmt: CString, i: nat, args: Args, a: nat) returns (k: nat, b: nat)
      requires Valid() && i < |fmt| && fmt[i] != '\0' && |text| + |Head(fmt, i, args, a)| <= total
      modifies this, buf
      ensures Valid() && text == old(text) + Head(fmt, i, args, a)
      ensures k == HeadEnd(fmt, i, args, a) && b == HeadArg(fmt, i, args, a)
    {
      if fmt[i] != '%' {
        Put(fmt[i]);
        k, b := i + 1, a;
      } else {
        k, b := PrintSpec(fmt, i + 1, args, a, Parsed(fmt, i + 1, args, a));
      }
    }

    /** The format loop. */
    method PrintAll(fmt: CString, args: Args)
      requires Valid() && text == "" && total == |Output(fmt, 0, args, 0)|
      modifies this, buf
      ensures Valid() && text == Output(fmt, 0, args, 0)
    {
      var i, a := 0, 0;
      ghost var all := Output(fmt, i, args, a);
      while fmt[i] != '\0'
        invariant i < |fmt| && Valid() && all == text + Output(fmt, i, args, a)
        decreases |fmt| - i
      {
        OutputStep(fmt, i, args, a, text);
        i, a := PrintOne(fmt, i, args, a);
      }
    }

    /** The terminator: at the cursor, or in the last byte. */
    method Finish()
      requires Valid() && |text| == total
      modifies buf
      ensures buf[..] == Image(was, text, end)
    {
      if end > 0 {
        if pos < end {
          buf[pos] := '\0';
        } else {
          buf[end - 1] := '\0';
        }
      }
      ghost var now := Image(was, text, end);
      forall j | 0 <= j < buf.Length
        ensures buf[j] == now[j]
      {
        assert old(Cell(j));
      }
    }
  }

  ghost function Lone(sign: char): seq<char> { if sign == '\0' then "" else [sign] }

  ghost function Prefix(sign: char, size: int, fl: Flags): seq<char> {
    var sg := Lone(sign);
    if fl.left then sg
    else if fl.zero then sg + Rep('0', size - |sg|)
    else Rep(' ', size - |sg|) + sg
  }

  ghost function Tail(sign: char, size: int, fl: Flags): seq<char> {
    Rep(' ', if fl.left then size - |Lone(sign)| else 0)
  }

  ghost function Body(ds: seq<char>, precision: int): seq<char> {
    Rep('0', precision - |ds|) + if precision == 0 then "" else ds
  }

  ghost function Whole(sign: char, size: int, fl: Flags, ds: seq<char>, precision: int): seq<char> {
    Prefix(sign, size, fl) + (Body(ds, precision) + Tail(sign, size, fl))
  }

  lemma Arranged(sign: char, sg: seq<char>, body: seq<char>, size: int, gap: int, fl: Flags)
    requires sg == Lone(sign) && gap == size - |sg|
    ensures Prefix(sign, size, fl) + (body + Tail(sign, size, fl)) ==
      if fl.left then sg + body + Rep(' ', gap)
      else if fl.zero then sg + Rep('0', gap) + body
      else Rep(' ', gap) + sg + body
  {
    if fl.left {
      Joined(sg, body, Rep(' ', gap));
    } else {
      assert body + Rep(' ', 0) == body;
    }
  }

  lemma Parts(w: Word, base: nat, width: int, precision: int, fl: Flags, sign: char, ds: seq<char>)
    requires Lone(sign) == SignText(w, fl) && ds == NumberDigits(w, base, fl)
    ensures NumberText(w, base, width, precision, fl) == Whole(sign, width - Max(|ds|, precision), fl, ds, precision)
  {
    Arranged(sign, SignText(w, fl), NumberBody(w, base, precision, fl), width - Max(|ds|, precision),
             Gap(w, base, width, precision, fl), fl);
  }

  method TakeSign(w: Word, fl: Flags) returns (num: Word, sign: char)
    ensures num == Magnitude(w, fl) && Lone(sign) == SignText(w, fl)
  {
    num, sign := w, '\0';
    if fl.sign {
      if num >= 0x8000_0000 {
        sign := '-';
        num := 0x1_0000_0000 - num;
      } else if fl.plus {
        sign := '+';
      } else if fl.space {
        sign := ' ';
      }
    }
  }

  /** tmp[..n] is `ds` backwards. */
  ghost predicate Holds(tmp: array<char>, n: nat, ds: seq<char>)
    reads tmp
  {
    n == |ds| <= tmp.Length && forall k | 0 <= k < n :: tmp[k] == ds[n - 1 - k]
  }

  function Pow10(k: nat): nat { if k == 0 then 1 else 10 * Pow10(k - 1) }

  lemma {:induction false} FewDigits(n: nat, b: nat, large: bool, k: nat)
    requires (b == 10 || b == 16) && k > 0 && n < Pow10(k)
    ensures |Digits(n, b, large)| <= k
  {
    if n >= b {
      FewDigits(Quot(n, b), b, large, k - 1);
    }
  }

  lemma TenDigits(n: Word, b: nat, large: bool)
    requires b == 10 || b == 16
    ensures |Digits(n, b, large)| <= 10
  {
    assert Pow10(10) == 10000000000;
    FewDigits(n, b, large, 10);
  }

  /** The division loop. */
  method Divide(num: Word, b: nat, large: bool, tmp: array<char>) returns (i: nat)
    requires (b == 10 || b == 16) && num != 0 && tmp.Length == 16
    modifies tmp
    ensures Holds(tmp, i, Digits(num, b, large))
  {
    ghost var ds := Digits(num, b, large);
    TenDigits(num, b, large);
    i := 0;
    var n: nat := num;
    while n != 0
      invariant i <= |ds| <= 10 && Left(n, b, large, ds, i) && Filling(tmp, i, ds)
    {
      Peel(n, b, large, ds, i);
      i := PutBack(tmp, i, Digit(Rem(n, b), large), ds);
      n := Quot(n, b);
    }
  }

  /** The first i characters of tmp are the last of `ds`, backwards. */
  ghost predicate Filling(tmp: array<char>, i: nat, ds: seq<char>)
    reads tmp
  {
    i <= |ds| && i <= tmp.Length && forall k | 0 <= k < i :: tmp[k] == ds[|ds| - 1 - k]
  }

  method PutBack(tmp: array<char>, i: nat, c: char, ghost ds: seq<char>) returns (j: nat)
    requires Filling(tmp, i, ds) && i < |ds| && i < tmp.Length && ds[|ds| - 1 - i] == c
    modifies tmp
    ensures j == i + 1 && Filling(tmp, j, ds)
  {
    tmp[i] := c;
    j := i + 1;
  }

  /** The digits of `num`, least significant first; a 32-bit number never overruns the 16 characters. */
  method Extract(num: Word, b: nat, large: bool, tmp: array<char>) returns (i: nat)
    requires (b == 10 || b == 16) && tmp.Length == 16
    modifies tmp
    ensures Holds(tmp, i, Digits(num, b, large))
  {
    if num == 0 {
      tmp[0] := '0';
      i := 1;
    } else {
      i := Divide(num, b, large, tmp);
    }
  }

  /** Dividing has taken the last i of the digits `ds` away and left n. */
  ghost predicate Left(n: nat, b: nat, large: bool, ds: seq<char>, i: nat)
    requires b == 10 || b == 16
    requires i <= |ds|
  {
    if n == 0 then i == |ds| else ds[..|ds| - i] == Digits(n, b, large)
  }

  lemma Peel(n: nat, b: nat, large: bool, ds: seq<char>, i: nat)
    requires b == 10 || b == 16
    requires i <= |ds| && n != 0 && Left(n, b, large, ds, i)
    ensures i < |ds| && ds[|ds| - 1 - i] == Digit(Rem(n, b), large) && Left(Quot(n, b), b, large, ds, i + 1)
  {
    var front := ds[..|ds| - i];
    assert ds[..|ds| - (i + 1)] == front[..|front| - 1];
  }

  /** The length loop of the 's' conversion. */
  method Measure(t: CString, s: Spec) returns (n: nat)
    ensures n == Shown(t, s)
  {
    n := 0;
    while n != s.width && t[n] != '\0'
      invariant n < |t| && (s.width >= 0 ==> n <= s.width)
      decreases |t| - n
    {
      n := n + 1;
    }
    if s.precision > 0 && n > s.precision {
      n := s.precision;
    }
  }

  /** skip_atoi */
  method SkipAtoi(fmt: CString, i: nat) returns (value: nat, k: nat)
    requires i < |fmt|
    ensures k == DigitsEnd(fmt, i) && value == Atoi(fmt, i, 0)
  {
    value, k := 0, i;
    while IsDigit(fmt[k])
      invariant k < |fmt| && DigitsEnd(fmt, i) == DigitsEnd(fmt, k) && Atoi(fmt, i, 0) == Atoi(fmt, k, value)
      decreases |fmt| - k
    {
      value := value * 10 + (fmt[k] as int - '0' as int);
      k := k + 1;
    }
  }

  /** The flags loop. */
  method ReadFlags(fmt: CString, i: nat, a: nat) returns (s: Spec)
    requires i < |fmt|
    ensures s == WithFlags(fmt, Spec(NO_FLAGS, -1, -1, '\0', i, a))
  {
    s := Spec(NO_FLAGS, -1, -1, '\0', i, a);
    ghost var want := WithFlags(fmt, s);
    while fmt[s.at] in "-+ #0"
      invariant s.at < |fmt| && WithFlags(fmt, s) == want
      decreases |fmt| - s.at
    {
      match fmt[s.at]
      case '-' => s := s.(at := s.at + 1, flags := s.flags.(left := true));
      case '+' => s := s.(at := s.at + 1, flags := s.flags.(plus := true));
      case ' ' => s := s.(at := s.at + 1, flags := s.flags.(space := true));
      case '#' => s := s.(at := s.at + 1, flags := s.flags.(special := true));
      case _ => s := s.(at := s.at + 1, flags := s.flags.(zero := true));
    }
  }

  method ReadWidth(fmt: CString, s0: Spec, args: Args) returns (s: Spec)
    requires s0.at < |fmt|
    ensures s == WithWidth(fmt, s0, args)
  {
    s := s0;
    if IsDigit(fmt[s.at]) {
      var w, k := SkipAtoi(fmt, s.at);
      s := s.(width := w, at := k);
    } else if fmt[s.at] == '*' {
      s := s.(width := Signed(args(s.arg).word), at := s.at + 1, arg := s.arg + 1);
      if s.width < 0 {
        s := s.(width := -s.width, flags := s.flags.(left := true));
      }
    }
  }

  method ReadPrecision(fmt: CString, s0: Spec, args: Args) returns (s: Spec)
    requires s0.at < |fmt|
    ensures s == WithPrecision(fmt, s0, args)
  {
    s := s0;
    if fmt[s.at] == '.' {
      s := s.(at := s.at + 1, precision := -1);
      if IsDigit(fmt[s.at]) {
        var p, k := SkipAtoi(fmt, s.at);
        s := s.(precision := p, at := k);
      } else if fmt[s.at] == '*' {
        s := s.(precision := Signed(args(s.arg).word), at := s.at + 1, arg := s.arg + 1);
      }
      if s.precision < 0 {
        s := s.(precision := 0);
      }
    }
  }

  method ReadSpec(fmt: CString, i: nat, args: Args, a: nat) returns (s: Spec)
    requires i < |fmt|
    ensures s == Parsed(fmt, i, args, a)
  {
    s := ReadFlags(fmt, i, a);
    s := ReadWidth(fmt, s, args);
    s := ReadPrecision(fmt, s, args);
    if fmt[s.at] == 'h' || fmt[s.at] == 'l' {
      s := s.(qual := fmt[s.at], at := s.at + 1);
    }
  }

  /** rt_vsnprintf, for a buffer that holds its first `size` bytes or the whole text and its terminator
      (rt_sprintf passes the largest size). The count does not depend on the size, the buffer ends up with
      the terminated prefix of the text, and nothing else changes. */
  method VsnPrintf(buf: array<char>, addr: Word, size: Word, fmt: CString, args: Args) returns (n: nat)
    requires Room(addr, size) <= buf.Length || |Output(fmt, 0, args, 0)| < buf.Length
    modifies buf
    ensures n == |Output(fmt, 0, args, 0)|
    ensures var out, room := Output(fmt, 0, args, 0), Room(addr, size);
      n == Stored(out, room) <==> n < room || out == ""
    ensures buf[..] == Image(old(buf[..]), Output(fmt, 0, args, 0), Room(addr, size))
  {
    var end := addr + size;
    if end >= 0x1_0000_0000 {
      end := 0xFFFF_FFFF;
    }
    ghost var all := Output(fmt, 0, args, 0);
    CountExact(all, end - addr);
    var out := new Writer(buf, end - addr, |all|);
    out.PrintAll(fmt, args);
    out.Finish();
    n := out.pos;
  }
}
