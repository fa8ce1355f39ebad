/** The type-0 radio frame: printed and sealed by SendPrepare (radio/Radio_Encoder.c), sent with a length
    byte (radio/Radio_Common.c), checked and scanned by the receiver (radio/Radio_Decoder.c). */
module FrameModel {
  import opened Common
  import opened FormatModel
  import opened ScanModel

  type Byte = x: nat | x < 256

  /** The fields of Radio_Normal_Format that a type-0 frame uses, and the sender's own id. */
  datatype Send = Send(target: Word, self: Word, counter: Byte, command: Byte, data: Byte)

  const FORMAT: CString := "{%08ld,%08ld,%03d,%02d,%d}\0"
  const EMPTY: CString := ['\0']

  /** The variadic arguments; the counter has been incremented as an 8-bit number. */
  function FrameArgs(m: Send): Args {
    k => Arg(if k == 0 then m.target else if k == 1 then m.self else if k == 2 then (m.counter + 1) % 256
             else if k == 3 then m.command else m.data, EMPTY)
  }

  /** What rt_sprintf prints. */
  function FrameText(m: Send): seq<char> { Output(FORMAT, 0, FrameArgs(m), 0) }

  /** 8-bit sum of characters. */
  function Check(s: seq<char>): (c: Byte) {
    if s == [] then 0 else (Check(s[..|s| - 1]) + s[|s| - 1] as int) % 256
  }

  function HexDigit(d: nat): char
    requires d < 16
  {
    if d < 10 then (d + '0' as int) as char else (d - 10 + 'A' as int) as char
  }

  const SEND_BUF: nat := 255

  /** Bytes 28..31 become the checksum of the first 28 and the line end. */
  function Sealed(b: seq<char>): (r: seq<char>)
    requires |b| >= 32
    ensures |r| == |b|
  {
    var check := Check(b[..28]);
    b[28 := HexDigit(check / 16)][29 := HexDigit(check % 16)][30 := '\r'][31 := '\n']
  }

  /* ---- What the seal is ---- */

  /** The sum of the character codes, not reduced. */
  function SumOf(s: seq<char>): nat { if s == [] then 0 else s[0] as int + SumOf(s[1..]) }

  lemma {:induction false} SumAppend(a: seq<char>, b: seq<char>)
    ensures SumOf(a + b) == SumOf(a) + SumOf(b)
  {
    if a == [] {
      assert a + b == b;
    } else {
      SumAppend(a[1..], b);
      assert (a + b)[1..] == a[1..] + b;
    }
  }

  lemma SumSnoc(init: seq<char>, c: char, s: seq<char>)
    requires s == init + [c]
    ensures SumOf(s) == SumOf(init) + c as int
  {
    SumAppend(init, [c]);
    assert [c][1..] == [];
  }

  lemma {:induction false} CheckIsSum(s: seq<char>)
    ensures Check(s) == SumOf(s) % 256
  {
    if s != [] {
      var init, c := s[..|s| - 1], s[|s| - 1];
      CheckIsSum(init);
      SumSnoc(init, c, s);
    }
  }

  predicate IsHexUpper(c: char) { '0' <= c <= '9' || 'A' <= c <= 'F' }

  lemma HexDigitIs(d: nat)
    requires d < 16
    ensures IsHexUpper(HexDigit(d)) && DigitValue(HexDigit(d)) == d
  {}

  lemma TwoDigits(a: char, b: char)
    ensures Value([a, b], 16) == 16 * DigitValue(a) + DigitValue(b)
  {
    var s, t := [a, b], [a];
    assert s[..|s| - 1] == t && s[|s| - 1] == b;
    assert t[..|t| - 1] == [] && t[|t| - 1] == a;
    assert Value(t, 16) == DigitValue(a);
  }

  /** Two upper-case hex digits for the sum of the first 28 characters modulo 256, and the line end. */
  predicate IsSeal(b: seq<char>) {
    && |b| >= 32 && IsHexUpper(b[28]) && IsHexUpper(b[29])
    && Value([b[28], b[29]], 16) == SumOf(b[..28]) % 256
    && b[30] == '\r' && b[31] == '\n'
  }

  /** Sealing changes those four bytes alone. */
  lemma SealedIs(b: seq<char>)
    requires |b| >= 32
    ensures IsSeal(Sealed(b)) && Sealed(b)[..28] == b[..28] && Sealed(b)[32..] == b[32..]
  {
    var check, r := Check(b[..28]), Sealed(b);
    CheckIsSum(b[..28]);
    HexDigitIs(check / 16);
    HexDigitIs(check % 16);
    TwoDigits(r[28], r[29]);
    assert r[..28] == b[..28];
  }

  /** radio_send_buf after SendPrepare. */
  function Prepared(m: Send): (b: seq<char>)
    ensures |b| == SEND_BUF
  {
    Sealed(Image(Rep('\0', SEND_BUF), FrameText(m), SEND_BUF))
  }

  /** The first NUL from i on, or the end. */
  function FirstNul(b: seq<char>, i: nat): (k: nat)
    requires i <= |b|
    ensures i <= k <= |b| && (k < |b| ==> b[k] == '\0') && forall j | i <= j < k :: b[j] != '\0'
    decreases |b| - i
  {
    if i == |b| || b[i] == '\0' then i else FirstNul(b, i + 1)
  }

  /** The bytes on the air: RF_Send takes rt_strlen bytes and puts the length, itself included, first. */
  function OnAir(b: seq<char>): seq<char>
    requires |b| <= SEND_BUF
  {
    var len := FirstNul(b, 0);
    [((len + 1) % 256) as char] + b[..len]
  }

  const SCAN_FORMAT: CString := "{%d,%d,%d,%d,%d}\0"

  /** The C string at rx[1]; the receive buffer is cleared before each packet. */
  function Tail(rx: seq<char>): CString
    requires |rx| > 1
  {
    rx[1..FirstNul(rx, 1)] + ['\0']
  }

  /** The format asks for five values and can never be overrun. */
  lemma ScanFormatClosed()
    ensures Closed(SCAN_FORMAT, 0) && Wanted(SCAN_FORMAT, 0) == 5
  {
    assert Closed(SCAN_FORMAT, 15) && Wanted(SCAN_FORMAT, 15) == 0;
    assert Closed(SCAN_FORMAT, 13) && Wanted(SCAN_FORMAT, 13) == 1;
    assert Closed(SCAN_FORMAT, 10) && Wanted(SCAN_FORMAT, 10) == 2;
    assert Closed(SCAN_FORMAT, 7) && Wanted(SCAN_FORMAT, 7) == 3;
    assert Closed(SCAN_FORMAT, 4) && Wanted(SCAN_FORMAT, 4) == 4;
    assert Closed(SCAN_FORMAT, 1) && Wanted(SCAN_FORMAT, 1) == 5;
  }

  lemma MessageShort(s: CString)
    ensures |Scan(s, 0, SCAN_FORMAT, 0)| <= 5 && !Overruns(s, 0, SCAN_FORMAT, 0)
  {
    ScanFormatClosed();
    ScanCount(s, 0, SCAN_FORMAT, 0);
    ClosedNeverOverruns(s, 0, SCAN_FORMAT, 0);
  }

  datatype Delivery = Ignored | Gateway | Normal(fields: seq<int>)

  /** rf433_rx_callback and the head of NormalSolve; `len` is the packet length minus one. */
  function Receive(rx: seq<char>, len: nat): (d: Delivery)
    requires 1 <= len < |rx|
    ensures d.Normal? ==> |d.fields| <= 5
  {
    MessageShort(Tail(rx));
    if rx[1] == '{' then
      if rx[len] == '\n' && rx[len - 1] == '\r' then Normal(Scan(Tail(rx), 0, SCAN_FORMAT, 0)) else Ignored
    else if rx[1] == 'G' then Gateway
    else Ignored
  }
}

/** Printing a frame and scanning it. */
module FramePrint {
  import opened Common
  import opened FormatModel
  import opened ScanModel
  import opened PrintScan
  import opened FrameModel

  const PLAIN: Flags := NO_FLAGS.(sign := true)
  const ZEROED: Flags := NO_FLAGS.(sign := true, zero := true)

  /** %d, and %0<width>d with or without 'l'. */
  function Decimal(w: Word): seq<char> { NumberText(w, 10, -1, -1, PLAIN) }
  function Zeroed(w: Word, width: nat): seq<char> { NumberText(w, 10, width, -1, ZEROED) }

  /* ---- What the format prints ---- */

  /** One round at fmt[i] prints `t` and goes on at fmt[k] with argument b. */
  ghost predicate Round(fmt: CString, i: nat, args: Args, a: nat, t: seq<char>, k: nat, b: nat) {
    && i < |fmt| && fmt[i] != '\0'
    && Head(fmt, i, args, a) == t && HeadEnd(fmt, i, args, a) == k && HeadArg(fmt, i, args, a) == b
  }

  lemma PrintsInteger(fmt: CString, i: nat, args: Args, a: nat, s: Spec)
    requires i + 1 < |fmt| && fmt[i] == '%' && Parsed(fmt, i + 1, args, a) == s && fmt[s.at] == 'd'
    ensures Round(fmt, i, args, a, IntegerText('d', args(s.arg).word, s), s.at + 1, s.arg + 1)
  {}

  lemma TextOfDecimal(w: Word, s: Spec)
    requires s.flags == NO_FLAGS && s.qual != 'h' && s.precision == s.width == -1
    ensures IntegerText('d', w, s) == Decimal(w)
  {
    assert IntegerFlags('d', s.flags) == PLAIN;
  }

  lemma TextOfZeroed(w: Word, s: Spec, width: nat)
    requires s.flags == NO_FLAGS.(zero := true) && s.qual != 'h' && s.precision == -1 && s.width == width
    ensures IntegerText('d', w, s) == Zeroed(w, width)
  {
    assert IntegerFlags('d', s.flags) == ZEROED;
  }

  lemma PrintsDecimal(fmt: CString, i: nat, args: Args, a: nat)
    requires i + 2 < |fmt| && fmt[i] == '%' && fmt[i + 1] == 'd'
    ensures Round(fmt, i, args, a, Decimal(args(a).word), i + 2, a + 1)
  {
    var s := Spec(NO_FLAGS, -1, -1, '\0', i + 1, a);
    assert WithFlags(fmt, s) == s;
    PrintsInteger(fmt, i, args, a, s);
    TextOfDecimal(args(a).word, s);
  }

  predicate IsZeroed(fmt: CString, i: nat, width: nat) {
    && i + 4 < |fmt| && fmt[i] == '%' && fmt[i + 1] == '0'
    && '1' <= fmt[i + 2] <= '9' && fmt[i + 2] as int == '0' as int + width
  }

  /** %0<width> */
  lemma ParsesZeroed(fmt: CString, i: nat, args: Args, a: nat, width: nat)
    requires IsZeroed(fmt, i, width)
    requires fmt[i + 3] == 'l' || fmt[i + 3] == 'd'
    ensures Parsed(fmt, i + 1, args, a) == WithQualifier(fmt, Spec(NO_FLAGS.(zero := true), width, -1, '\0', i + 3, a))
  {
    var s0 := Spec(NO_FLAGS, -1, -1, '\0', i + 1, a);
    var s1 := Spec(NO_FLAGS.(zero := true), -1, -1, '\0', i + 2, a);
    var s := Spec(NO_FLAGS.(zero := true), width, -1, '\0', i + 3, a);
    assert WithFlags(fmt, s1) == s1;
    assert WithFlags(fmt, s0) == s1;
    assert DigitsEnd(fmt, i + 3) == i + 3 && Atoi(fmt, i + 3, width) == width;
    assert WithWidth(fmt, s1, args) == s;
    assert WithPrecision(fmt, s, args) == s;
  }

  lemma PrintsZeroed(fmt: CString, i: nat, args: Args, a: nat, width: nat)
    requires IsZeroed(fmt, i, width) && fmt[i + 3] == 'd'
    ensures Round(fmt, i, args, a, Zeroed(args(a).word, width), i + 4, a + 1)
  {
    var s := Spec(NO_FLAGS.(zero := true), width, -1, '\0', i + 3, a);
    ParsesZeroed(fmt, i, args, a, width);
    PrintsInteger(fmt, i, args, a, s);
    TextOfZeroed(args(a).word, s, width);
  }

  lemma PrintsZeroedLong(fmt: CString, i: nat, args: Args, a: nat, width: nat)
    requires IsZeroed(fmt, i, width) && fmt[i + 3] == 'l' && fmt[i + 4] == 'd'
    ensures Round(fmt, i, args, a, Zeroed(args(a).word, width), i + 5, a + 1)
  {
    var s := Spec(NO_FLAGS.(zero := true), width, -1, 'l', i + 4, a);
    ParsesZeroed(fmt, i, args, a, width);
    PrintsInteger(fmt, i, args, a, s);
    TextOfZeroed(args(a).word, s, width);
  }

  lemma PrintsLiteral(fmt: CString, i: nat, args: Args, a: nat)
    requires i < |fmt| && fmt[i] != '%' && fmt[i] != '\0'
    ensures Round(fmt, i, args, a, [fmt[i]], i + 1, a)
  {}

  /** A number and the separator after it. */
  lemma PrintsItem(fmt: CString, i: nat, args: Args, a: nat, t: seq<char>, k: nat, b: nat)
    requires Round(fmt, i, args, a, t, k, b) && fmt[k] != '%' && fmt[k] != '\0'
    ensures Output(fmt, i, args, a) == t + ([fmt[k]] + Output(fmt, k + 1, args, b))
  {
    PrintsLiteral(fmt, k, args, b);
  }

  /** The five numbers of a frame and their texts. */
  function Words(m: Send): seq<Word> { [m.target, m.self, (m.counter + 1) % 256, m.command, m.data] }

  function Numeral(w: Word, k: nat): seq<char> {
    if k <= 1 then Zeroed(w, 8) else if k == 2 then Zeroed(w, 3) else if k == 3 then Zeroed(w, 2) else Decimal(w)
  }

  function Numerals(ws: seq<Word>): seq<seq<char>> { seq(|ws|, k requires 0 <= k < |ws| => Numeral(ws[k], k)) }

  function Separator(k: nat): char { if k < 4 then ',' else '}' }

  /** The texts from the k-th on, each with its separator. */
  function Items(ts: seq<seq<char>>, k: nat): seq<char>
    requires k <= |ts|
    decreases |ts| - k
  {
    if k == |ts| then "" else ts[k] + ([Separator(k)] + Items(ts, k + 1))
  }

  /** The characters of FORMAT, item by item. */
  predicate LongItem(fmt: CString, i: nat) {
    i + 6 < |fmt| && IsZeroed(fmt, i, 8) && fmt[i + 3] == 'l' && fmt[i + 4] == 'd' && fmt[i + 5] == ','
  }

  predicate ShortItem(fmt: CString, i: nat, width: nat) {
    i + 5 < |fmt| && IsZeroed(fmt, i, width) && fmt[i + 3] == 'd' && fmt[i + 4] == ','
  }

  predicate LastItem(fmt: CString, i: nat) {
    |fmt| == i + 4 && fmt[i] == '%' && fmt[i + 1] == 'd' && fmt[i + 2] == '}' && fmt[i + 3] == '\0'
  }

  lemma PrintsLong(fmt: CString, i: nat, args: Args, a: nat, rest: seq<char>)
    requires LongItem(fmt, i) && Output(fmt, i + 6, args, a + 1) == rest
    ensures Output(fmt, i, args, a) == Zeroed(args(a).word, 8) + ("," + rest)
  {
    PrintsZeroedLong(fmt, i, args, a, 8);
    PrintsItem(fmt, i, args, a, Zeroed(args(a).word, 8), i + 5, a + 1);
  }

  lemma PrintsShort(fmt: CString, i: nat, args: Args, a: nat, w: nat, rest: seq<char>)
    requires ShortItem(fmt, i, w) && Output(fmt, i + 5, args, a + 1) == rest
    ensures Output(fmt, i, args, a) == Zeroed(args(a).word, w) + ("," + rest)
  {
    PrintsZeroed(fmt, i, args, a, w);
    PrintsItem(fmt, i, args, a, Zeroed(args(a).word, w), i + 4, a + 1);
  }

  lemma PrintsLast(fmt: CString, i: nat, args: Args, a: nat)
    requires LastItem(fmt, i)
    ensures Output(fmt, i, args, a) == Decimal(args(a).word) + "}"
  {
    PrintsDecimal(fmt, i, args, a);
    PrintsItem(fmt, i, args, a, Decimal(args(a).word), i + 2, a + 1);
    assert Output(fmt, i + 3, args, a + 1) == "";
    assert "}" + "" == "}";
  }

  lemma PrintsShorts(fmt: CString, i: nat, args: Args, a: nat)
    requires ShortItem(fmt, i, 3) && ShortItem(fmt, i + 5, 2) && LastItem(fmt, i + 10)
    ensures Output(fmt, i, args, a) ==
      Zeroed(args(a).word, 3) + ("," + (Zeroed(args(a + 1).word, 2) + ("," + (Decimal(args(a + 2).word) + "}"))))
  {
    var last := Decimal(args(a + 2).word) + "}";
    PrintsLast(fmt, i + 10, args, a + 2);
    PrintsShort(fmt, i + 5, args, a + 1, 2, last);
    PrintsShort(fmt, i, args, a, 3, Zeroed(args(a + 1).word, 2) + ("," + last));
  }

  lemma PrintsLongs(fmt: CString, i: nat, args: Args, a: nat, rest: seq<char>)
    requires LongItem(fmt, i) && LongItem(fmt, i + 6) && ShortItem(fmt, i + 12, 3)
    requires Output(fmt, i + 12, args, a + 2) == rest
    ensures Output(fmt, i, args, a) == Zeroed(args(a).word, 8) + ("," + (Zeroed(args(a + 1).word, 8) + ("," + rest)))
  {
    PrintsLong(fmt, i + 6, args, a + 1, rest);
    PrintsLong(fmt, i, args, a, Zeroed(args(a + 1).word, 8) + ("," + rest));
  }

  lemma LongItems()
    ensures LongItem(FORMAT, 1) && LongItem(FORMAT, 7)
  {}

  lemma ShortItems()
    ensures ShortItem(FORMAT, 13, 3) && ShortItem(FORMAT, 18, 2) && LastItem(FORMAT, 23)
  {}

  /** The five numbers, separated. */
  function Listed(args: Args, a: nat): seq<char> {
    Zeroed(args(a).word, 8) + ("," + (Zeroed(args(a + 1).word, 8) + ("," +
    (Zeroed(args(a + 2).word, 3) + ("," + (Zeroed(args(a + 3).word, 2) + ("," + (Decimal(args(a + 4).word) + "}"))))))))
  }

  lemma PrintsNumbers(fmt: CString, i: nat, args: Args, a: nat)
    requires LongItem(fmt, i) && LongItem(fmt, i + 6)
    requires ShortItem(fmt, i + 12, 3) && ShortItem(fmt, i + 17, 2) && LastItem(fmt, i + 22)
    ensures Output(fmt, i, args, a) == Listed(args, a)
  {
    PrintsShorts(fmt, i + 12, args, a + 2);
    PrintsLongs(fmt, i, args, a, Output(fmt, i + 12, args, a + 2));
  }

  lemma PrintsOpen(fmt: CString, args: Args, rest: seq<char>)
    requires fmt[0] == '{' && LongItem(fmt, 1) && Output(fmt, 1, args, 0) == rest
    ensures Output(fmt, 0, args, 0) == "{" + rest
  {
    PrintsLiteral(fmt, 0, args, 0);
  }

  lemma {:induction false} ItemsAre(ts: seq<seq<char>>)
    requires |ts| == 5
    ensures Items(ts, 0) == ts[0] + ("," + (ts[1] + ("," + (ts[2] + ("," + (ts[3] + ("," + (ts[4] + "}"))))))))
  {
    assert ['}'] + "" == "}";
    assert Items(ts, 4) == ts[4] + "}";
    assert Items(ts, 2) == ts[2] + ("," + (ts[3] + ("," + (ts[4] + "}"))));
  }

  lemma WordsAre(m: Send)
    ensures var ws, args := Words(m), FrameArgs(m);
      && ws[0] == args(0).word && ws[1] == args(1).word && ws[2] == args(2).word
      && ws[3] == args(3).word && ws[4] == args(4).word
  {}

  lemma NumeralsAre(ws: seq<Word>, ts: seq<seq<char>>)
    requires |ws| == 5 && ts == Numerals(ws)
    ensures && |ts| == 5 && ts[0] == Zeroed(ws[0], 8) && ts[1] == Zeroed(ws[1], 8)
      && ts[2] == Zeroed(ws[2], 3) && ts[3] == Zeroed(ws[3], 2) && ts[4] == Decimal(ws[4])
  {
    assert ts[0] == Numeral(ws[0], 0);
    assert ts[1] == Numeral(ws[1], 1);
    assert ts[2] == Numeral(ws[2], 2);
    assert ts[3] == Numeral(ws[3], 3);
    assert ts[4] == Numeral(ws[4], 4);
  }

  /** For all field values: the printed frame is its numbers, separated. */
  lemma FrameTextIs(m: Send)
    ensures FrameText(m) == ['{'] + Items(Numerals(Words(m)), 0)
  {
    LongItems();
    ShortItems();
    PrintsNumbers(FORMAT, 1, FrameArgs(m), 0);
    PrintsOpen(FORMAT, FrameArgs(m), Listed(FrameArgs(m), 0));
    WordsAre(m);
    NumeralsAre(Words(m), Numerals(Words(m)));
    ItemsAre(Numerals(Words(m)));
  }

  /* ---- What the scanner reads ---- */

  predicate IsItem(fmt: CString, f: nat, sep: char) {
    && f + 3 < |fmt| && fmt[f] == '%' && fmt[f + 1] == 'd' && fmt[f + 2] == sep
    && Stops(sep) && sep != '%' && sep != '\0'
  }

  lemma LooksNumber(s: CString, i: nat, v: int, e: nat, fmt: CString, f: nat, sep: char)
    requires i < e < |s| && Strtol(s, i, 10) == (v, e) && IsItem(fmt, f, sep)
    ensures Look(s, i, fmt, f) == Go(e, f + 2, [v])
  {}

  lemma LooksSeparator(s: CString, e: nat, fmt: CString, f: nat)
    requires e < |s| && f < |fmt| && s[e] == fmt[f] && !IsSpace(fmt[f]) && fmt[f] != '%' && fmt[f] != '\0'
    ensures Look(s, e, fmt, f) == Go(e + 1, f + 1, [])
  {}

  lemma ScanGoes(s: CString, i: nat, fmt: CString, f: nat, t: Turn)
    requires i < |s| && f < |fmt| && Look(s, i, fmt, f) == t && t.Go?
    ensures t.i < |s| && t.f < |fmt| && Scan(s, i, fmt, f) == t.vs + Scan(s, t.i, fmt, t.f)
  {}

  /** A number and its separator. */
  lemma ScansItem(s: CString, i: nat, v: int, e: nat, fmt: CString, f: nat, sep: char, rest: seq<int>)
    requires i < e < |s| - 1 && Strtol(s, i, 10) == (v, e) && s[e] == sep && IsItem(fmt, f, sep)
    requires Scan(s, e + 1, fmt, f + 3) == rest
    ensures Scan(s, i, fmt, f) == [v] + rest
  {
    LooksNumber(s, i, v, e, fmt, f, sep);
    LooksSeparator(s, e, fmt, f + 2);
    ScanGoes(s, e, fmt, f + 2, Go(e + 1, f + 3, []));
    assert [] + rest == rest;
    ScanGoes(s, i, fmt, f, Go(e, f + 2, [v]));
  }

  /** fmt[f..] asks for the numbers from the k-th on. */
  predicate AsksFrom(fmt: CString, f: nat, k: nat)
    requires k <= 5
    decreases 5 - k
  {
    if k == 5 then |fmt| == f + 1 else IsItem(fmt, f, Separator(k)) && AsksFrom(fmt, f + 3, k + 1)
  }

  /* ---- The printed numbers are what strtol reads ---- */

  lemma ItemParts(s: CString, i: nat, t: seq<char>, sep: char, rest: seq<char>, e: nat)
    requires At(s, i, t + ([sep] + rest)) && sep != '\0' && e == i + |t|
    ensures At(s, i, t) && At(s, e + 1, rest) && e < |s| - 1 && s[e] == sep
  {
    AtParts(s, i, t, [sep] + rest);
    AtParts(s, e, [sep], rest);
    assert s[e] == s[e..e + 1][0];
  }

  lemma DecimalReads(s: CString, i: nat, w: Word, width: int, fl: Flags, t: seq<char>, e: nat)
    requires t == NumberText(w, 10, width, -1, fl) && fl.sign && !fl.left
    requires At(s, i, t) && e == i + |t| < |s| && Stops(s[e])
    ensures Strtol(s, i, 10) == (Signed(w), e)
  {
    NumberReadsBack(s, i, w, width, -1, fl, e);
  }

  lemma NumeralReads(s: CString, i: nat, w: Word, k: nat, t: seq<char>, e: nat)
    requires t == Numeral(w, k) && At(s, i, t) && e == i + |t| < |s| && s[e] == Separator(k)
    ensures Strtol(s, i, 10) == (Signed(w), e) && t != []
  {
    if k <= 1 {
      DecimalReads(s, i, w, 8, ZEROED, t, e);
    } else if k == 2 {
      DecimalReads(s, i, w, 3, ZEROED, t, e);
    } else if k == 3 {
      DecimalReads(s, i, w, 2, ZEROED, t, e);
    } else {
      DecimalReads(s, i, w, -1, PLAIN, t, e);
    }
  }

  /** What the receiver should see. */
  function Values(ws: seq<Word>): (vs: seq<int>)
    ensures |vs| == |ws|
  {
    seq(|ws|, k requires 0 <= k < |ws| => Signed(ws[k]))
  }

  /** The k-th text shows the k-th value. */
  predicate Shows(t: seq<char>, w: Word, v: int, k: nat) { t == Numeral(w, k) && v == Signed(w) }

  lemma ScansOne(s: CString, p: nat, w: Word, t: seq<char>, v: int, k: nat, rest: seq<char>, e: nat)
    requires Shows(t, w, v, k) && At(s, p, t + ([Separator(k)] + rest)) && e == p + |t|
    ensures p < e < |s| - 1 && Strtol(s, p, 10) == (v, e) && s[e] == Separator(k) && At(s, e + 1, rest)
  {
    ItemParts(s, p, t, Separator(k), rest, e);
    NumeralReads(s, p, w, k, t, e);
  }

  lemma ScansStep(s: CString, p: nat, w: Word, t: seq<char>, v: int, k: nat, rest: seq<char>, e: nat,
                  fmt: CString, f: nat, vs: seq<int>)
    requires Shows(t, w, v, k) && At(s, p, t + ([Separator(k)] + rest)) && e == p + |t| && e + 1 < |s|
    requires IsItem(fmt, f, Separator(k)) && Scan(s, e + 1, fmt, f + 3) == vs
    ensures p < |s| && Scan(s, p, fmt, f) == [v] + vs
  {
    ScansOne(s, p, w, t, v, k, rest, e);
    ScansItem(s, p, v, e, fmt, f, Separator(k), vs);
  }

  lemma ScansEnd(s: CString, p: nat, fmt: CString, f: nat)
    requires p < |s| && |fmt| == f + 1
    ensures Scan(s, p, fmt, f) == []
  {}

  lemma ItemAfter(s: CString, p: nat, ts: seq<seq<char>>, k: nat, e: nat, rest: seq<char>)
    requires k < |ts| && At(s, p, Items(ts, k)) && e == p + |ts[k]| && rest == Items(ts, k + 1)
    ensures At(s, p, ts[k] + ([Separator(k)] + rest)) && At(s, e + 1, rest) && e + 1 < |s|
  {
    ItemParts(s, p, ts[k], Separator(k), rest, e);
  }

  lemma AsksStep(fmt: CString, f: nat, k: nat)
    requires k < 5 && AsksFrom(fmt, f, k)
    ensures IsItem(fmt, f, Separator(k)) && AsksFrom(fmt, f + 3, k + 1)
  {}

  lemma {:induction false} ScansItems(s: CString, p: nat, ws: seq<Word>, ts: seq<seq<char>>, vs: seq<int>, k: nat,
                                      fmt: CString, f: nat)
    requires k <= |ws| == |ts| == |vs| == 5 && (forall j | 0 <= j < 5 :: Shows(ts[j], ws[j], vs[j], j))
    requires At(s, p, Items(ts, k)) && p < |s| && AsksFrom(fmt, f, k)
    ensures Scan(s, p, fmt, f) == vs[k..]
    decreases 5 - k
  {
    if k == 5 {
      ScansEnd(s, p, fmt, f);
    } else {
      var e, rest := p + |ts[k]|, Items(ts, k + 1);
      AsksStep(fmt, f, k);
      ItemAfter(s, p, ts, k, e, rest);
      ScansItems(s, e + 1, ws, ts, vs, k + 1, fmt, f + 3);
      assert Shows(ts[k], ws[k], vs[k], k);
      ScansStep(s, p, ws[k], ts[k], vs[k], k, rest, e, fmt, f, vs[k + 1..]);
    }
  }

  lemma ScanFormatIs(fmt: CString)
    requires fmt == SCAN_FORMAT
    ensures fmt[0] == '{' && AsksFrom(fmt, 1, 0)
  {
    assert AsksFrom(fmt, 16, 5);
    assert AsksFrom(fmt, 13, 4);
    assert AsksFrom(fmt, 10, 3);
    assert AsksFrom(fmt, 7, 2);
    assert AsksFrom(fmt, 4, 1);
  }

  lemma ScansFrame(s: CString, i: nat, ws: seq<Word>, ts: seq<seq<char>>, vs: seq<int>, k: nat, fmt: CString, f: nat)
    requires k <= |ws| == |ts| == |vs| == 5 && (forall j | 0 <= j < 5 :: Shows(ts[j], ws[j], vs[j], j))
    requires At(s, i, ['{'] + Items(ts, k)) && f < |fmt| && fmt[f] == '{' && AsksFrom(fmt, f + 1, k)
    ensures i < |s| && Scan(s, i, fmt, f) == vs[k..]
  {
    assert [] + (['{'] + Items(ts, k)) == ['{'] + Items(ts, k);
    ItemParts(s, i, [], '{', Items(ts, k), i);
    ScansItems(s, i + 1, ws, ts, vs, k, fmt, f + 1);
    LooksSeparator(s, i, fmt, f);
    ScanGoes(s, i, fmt, f, Go(i + 1, f + 1, []));
  }

  lemma NumeralsShow(ws: seq<Word>)
    requires |ws| == 5
    ensures var ts, vs := Numerals(ws), Values(ws);
      |ts| == |vs| == 5 && forall j | 0 <= j < 5 :: Shows(ts[j], ws[j], vs[j], j)
  {}

  lemma TextScansBack(s: CString, text: seq<char>, ws: seq<Word>, fmt: CString)
    requires |ws| == 5 && text == ['{'] + Items(Numerals(ws), 0) && At(s, 0, text) && fmt == SCAN_FORMAT
    ensures Scan(s, 0, fmt, 0) == Values(ws)
  {
    ScanFormatIs(fmt);
    NumeralsShow(ws);
    ScansFrame(s, 0, ws, Numerals(ws), Values(ws), 0, fmt, 0);
  }

  /** Scanning undoes printing, for every frame, whatever follows the closing brace. */
  lemma FrameScansBack(m: Send, s: CString, fmt: CString)
    requires At(s, 0, FrameText(m)) && fmt == SCAN_FORMAT
    ensures Scan(s, 0, fmt, 0) == Values(Words(m))
  {
    FrameTextIs(m);
    TextScansBack(s, FrameText(m), Words(m), fmt);
  }
}
