/** The radio frame from the sender's fields to the receiver's. */
module RadioTrip {
  import opened Common
  import opened FormatModel
  import opened ScanModel
  import opened PrintScan
  import opened FrameModel
  import opened FramePrint
  import Format

  /* ---- Lengths ---- */

  lemma {:induction false} DigitsCount(n: nat, k: nat)
    requires k > 0
    ensures |Digits(n, 10, false)| <= k <==> n < Format.Pow10(k)
  {
    if n >= 10 {
      if k == 1 {
        assert Format.Pow10(0) == 1;
      } else {
        DigitsCount(n / 10, k - 1);
      }
    } else {
      PowersGrow(k);
    }
  }

  lemma {:induction false} PowersGrow(k: nat)
    requires k > 0
    ensures Format.Pow10(k) >= 10
  {
    if k == 1 {
      assert Format.Pow10(0) == 1;
    } else {
      PowersGrow(k - 1);
    }
  }

  /** A zero-padded number takes exactly its field unless it has too many characters. */
  lemma ZeroedLength(w: Word, width: nat)
    requires width > 0
    ensures |Zeroed(w, width)| == Max(width, |Digits(Magnitude(w, ZEROED), 10, false)| + |SignText(w, ZEROED)|)
  {}

  lemma DecimalLength(w: Word)
    ensures |Decimal(w)| == |Digits(Magnitude(w, PLAIN), 10, false)| + |SignText(w, PLAIN)|
  {}

  /** What fits a field of `width` digits. */
  predicate Fits(w: Word, width: nat)
    requires width > 0
  {
    Signed(w) < Format.Pow10(width) && (Signed(w) < 0 ==> -Signed(w) < Format.Pow10(width - 1))
  }

  lemma ZeroedFits(w: Word, width: nat)
    requires width > 1
    ensures |Zeroed(w, width)| >= width && (|Zeroed(w, width)| == width <==> Fits(w, width))
  {
    ZeroedLength(w, width);
    DigitsCount(Magnitude(w, ZEROED), width);
    DigitsCount(Magnitude(w, ZEROED), width - 1);
    assert Signed(w) < 0 ==> |SignText(w, ZEROED)| == 1 && Magnitude(w, ZEROED) == -Signed(w);
    assert Signed(w) >= 0 ==> |SignText(w, ZEROED)| == 0 && Magnitude(w, ZEROED) == Signed(w);
    PowersGrow(width);
  }

  lemma DecimalFits(w: Byte)
    ensures |Decimal(w)| >= 1 && (|Decimal(w)| == 1 <==> w < 10)
  {
    DecimalLength(w);
  }

  /** No number is longer than ten digits and a sign. */
  lemma NumeralShort(w: Word, k: nat)
    ensures |Numeral(w, k)| <= 11
  {
    ZeroedLength(w, 8);
    ZeroedLength(w, 3);
    ZeroedLength(w, 2);
    DecimalLength(w);
    Format.TenDigits(Magnitude(w, ZEROED), 10, false);
    Format.TenDigits(Magnitude(w, PLAIN), 10, false);
  }

  lemma {:induction false} ItemsLength(ts: seq<seq<char>>)
    requires |ts| == 5
    ensures |Items(ts, 0)| == |ts[0]| + |ts[1]| + |ts[2]| + |ts[3]| + |ts[4]| + 5
  {
    ItemsAre(ts);
  }

  /** rt_sprintf stays inside the 255 bytes of radio_send_buf whatever is sent. */
  lemma FrameShort(m: Send)
    ensures |FrameText(m)| <= 61
  {
    var ws, ts := Words(m), Numerals(Words(m));
    FrameTextIs(m);
    ItemsLength(ts);
    forall k: nat | k < 5
      ensures |ts[k]| <= 11
    {
      NumeralShort(ws[k], k);
    }
  }

  /** Ids that fit eight characters, a command of at most two digits, data of one. */
  predicate InRange(m: Send) { Fits(m.target, 8) && Fits(m.self, 8) && m.command < 100 && m.data < 10 }

  /** The printed text fills exactly the 28 bytes before the checksum iff every field is in range. */
  lemma FrameFits(m: Send)
    ensures |FrameText(m)| >= 28 && (|FrameText(m)| == 28 <==> InRange(m))
  {
    var ws, ts := Words(m), Numerals(Words(m));
    FrameTextIs(m);
    ItemsLength(ts);
    ZeroedFits(ws[0], 8);
    ZeroedFits(ws[1], 8);
    ZeroedFits(ws[2], 3);
    ZeroedFits(ws[3], 2);
    DecimalFits(m.data);
    assert Format.Pow10(2) == 100 && Format.Pow10(3) == 1000;
  }

  /* ---- No NUL inside a frame ---- */

  predicate Clean(t: seq<char>) { forall i | 0 <= i < |t| :: t[i] != '\0' }

  lemma CleanParts(a: seq<char>, b: seq<char>, c: seq<char>, d: seq<char>)
    requires Clean(a) && Clean(b) && Clean(c) && Clean(d)
    ensures Clean(a + b + c + d)
  {}

  lemma DigitsClean(ds: seq<char>)
    requires AllDigits(ds, 10)
    ensures Clean(ds)
  {
    forall i | 0 <= i < |ds|
      ensures ds[i] != '\0'
    {
      assert IsDigitIn(ds[i], 10);
    }
  }

  lemma NumberClean(w: Word, width: int, precision: int, fl: Flags)
    ensures Clean(NumberText(w, 10, width, precision, fl))
  {
    Layout(w, width, precision, fl);
    ShownDenotes(w, width, precision, fl);
    DigitsClean(InField(w, width, precision, fl));
    CleanParts(Rep(' ', Leading(w, width, precision, fl)), SignText(w, fl), InField(w, width, precision, fl),
               Rep(' ', Trailing(w, width, precision, fl)));
  }

  lemma NumeralClean(w: Word, k: nat)
    ensures Clean(Numeral(w, k))
  {
    if k <= 1 {
      NumberClean(w, 8, -1, ZEROED);
    } else if k == 2 {
      NumberClean(w, 3, -1, ZEROED);
    } else if k == 3 {
      NumberClean(w, 2, -1, ZEROED);
    } else {
      NumberClean(w, -1, -1, PLAIN);
    }
  }

  lemma {:induction false} ItemsClean(ts: seq<seq<char>>, k: nat)
    requires k <= |ts| && forall j | 0 <= j < |ts| :: Clean(ts[j])
    ensures Clean(Items(ts, k))
    decreases |ts| - k
  {
    if k < |ts| {
      ItemsClean(ts, k + 1);
      assert Clean(ts[k]);
    }
  }

  lemma FrameClean(m: Send)
    ensures Clean(FrameText(m)) && FrameText(m) != [] && FrameText(m)[0] == '{'
  {
    var ws, ts := Words(m), Numerals(Words(m));
    FrameTextIs(m);
    forall j | 0 <= j < |ts|
      ensures Clean(ts[j])
    {
      NumeralClean(ws[j], j);
    }
    ItemsClean(ts, 0);
  }

  /* ---- The sealed frame ---- */

  /** The four bytes that seal the first 28. */
  function Seal(t: seq<char>): seq<char> {
    [HexDigit(Check(t) / 16), HexDigit(Check(t) % 16), '\r', '\n']
  }

  /** A text with bytes 28 to 31 sealed. A longer one loses those four characters. */
  function Sealing(t: seq<char>): seq<char>
    requires |t| >= 28
  {
    t[..28] + Seal(t[..28]) + if |t| > 32 then t[32..] else ""
  }

  /** What is sent. */
  function Frame(m: Send): seq<char> {
    FrameFits(m);
    Sealing(FrameText(m))
  }

  function TextHead(m: Send): seq<char> {
    FrameFits(m);
    FrameText(m)[..28]
  }

  lemma SealedText(t: seq<char>, b: seq<char>)
    requires |t| == 28 && |b| >= 32 && b[..28] == t
    ensures Sealed(b) == t + Seal(t) + b[32..]
  {
    var want := t + Seal(t) + b[32..];
    forall i | 0 <= i < |b|
      ensures Sealed(b)[i] == want[i]
    {
      if i < 28 {
        assert b[i] == b[..28][i];
      }
    }
  }

  lemma ImageOfShort(t: seq<char>, n: nat)
    requires |t| < n
    ensures Image(Rep('\0', n), t, n) == t + Rep('\0', n - |t|)
  {}

  lemma SealedTail(t: seq<char>, n: nat)
    requires 28 <= |t| < n && n > 32
    ensures var b := t + Rep('\0', n - |t|); var rest := if |t| > 32 then t[32..] else "";
      b[..28] == t[..28] && b[32..] == rest + Rep('\0', n - 32 - |rest|)
  {}

  /** SendPrepare leaves the frame, then zeros, whatever is sent. */
  lemma PreparedIs(m: Send)
    ensures 32 <= |Frame(m)| <= 61
    ensures Prepared(m) == Frame(m) + Rep('\0', SEND_BUF - |Frame(m)|)
    ensures IsSeal(Prepared(m)) && Prepared(m)[..28] == TextHead(m)
  {
    var t := FrameText(m);
    FrameFits(m);
    FrameShort(m);
    ImageOfShort(t, SEND_BUF);
    SealedTail(t, SEND_BUF);
    SealedIs(t + Rep('\0', SEND_BUF - |t|));
    SealedText(t[..28], t + Rep('\0', SEND_BUF - |t|));
  }

  lemma HexClean(d: nat)
    requires d < 16
    ensures HexDigit(d) != '\0'
  {}

  lemma SealingClean(t: seq<char>)
    requires |t| >= 28 && Clean(t)
    ensures Clean(Sealing(t)) && Sealing(t)[0] == t[0]
  {
    HexClean(Check(t[..28]) / 16);
    HexClean(Check(t[..28]) % 16);
    SealedClean(t[..28], Seal(t[..28]), if |t| > 32 then t[32..] else "");
  }

  lemma FrameAllClean(m: Send)
    ensures Clean(Frame(m)) && Frame(m)[0] == '{'
  {
    FrameFits(m);
    FrameClean(m);
    SealingClean(FrameText(m));
  }

  /** The frame as the receiver's scanner sees it. */
  function FrameString(m: Send): CString {
    FrameAllClean(m);
    Terminated(Frame(m))
  }

  function Terminated(t: seq<char>): CString
    requires Clean(t)
  {
    t + ['\0']
  }

  lemma SealedClean(a: seq<char>, b: seq<char>, c: seq<char>)
    requires Clean(a) && Clean(b) && Clean(c)
    ensures Clean(a + b + c)
  {}

  lemma {:induction false} NulAfter(b: seq<char>, i: nat, k: nat)
    requires i <= k < |b| && b[k] == '\0' && forall j | i <= j < k :: b[j] != '\0'
    ensures FirstNul(b, i) == k
  {}

  lemma OnAirOf(frame: seq<char>, n: nat)
    requires Clean(frame) && n > 0 && |frame| + n == SEND_BUF
    ensures OnAir(frame + Rep('\0', n)) == [(|frame| + 1) as char] + frame
  {
    var b := frame + Rep('\0', n);
    forall j | 0 <= j < |frame|
      ensures b[j] != '\0'
    {
      assert b[j] == frame[j];
    }
    NulAfter(b, 0, |frame|);
    assert b[..|frame|] == frame;
  }

  /** On the air: the length byte and the frame. */
  lemma OnAirIs(m: Send)
    ensures 32 <= |Frame(m)| <= 61
    ensures OnAir(Prepared(m)) == [(|Frame(m)| + 1) as char] + Frame(m)
  {
    PreparedIs(m);
    FrameAllClean(m);
    OnAirOf(Frame(m), SEND_BUF - |Frame(m)|);
  }

  /* ---- Reception ---- */

  /** RXBuff after the packet `air` has been stored into the cleared buffer. */
  function RxBuffer(air: seq<char>): (b: seq<char>)
    requires |air| < SEND_BUF
    ensures |b| == SEND_BUF
  {
    air + Rep('\0', SEND_BUF - |air|)
  }

  lemma TailIs(c: char, frame: seq<char>)
    requires Clean(frame) && |frame| < SEND_BUF - 1
    ensures Tail(RxBuffer([c] + frame)) == Terminated(frame)
  {
    var rx := RxBuffer([c] + frame);
    forall j | 1 <= j < |frame| + 1
      ensures rx[j] != '\0'
    {
      assert rx[j] == frame[j - 1];
    }
    NulAfter(rx, 1, |frame| + 1);
    assert rx[1..|frame| + 1] == frame;
  }

  /** What the receiver makes of a packet that starts with a brace: it looks only at the line end. */
  lemma ReceiveIs(c: char, frame: seq<char>)
    requires 32 <= |frame| <= 61 && Clean(frame) && frame[0] == '{'
    ensures Receive(RxBuffer([c] + frame), |frame|) ==
      if frame[|frame| - 2] == '\r' && frame[|frame| - 1] == '\n'
      then Delivery.Normal(Scan(Terminated(frame), 0, SCAN_FORMAT, 0)) else Ignored
  {
    TailIs(c, frame);
    var rx, n := RxBuffer([c] + frame), |frame|;
    assert rx[1] == frame[0] && rx[n - 1] == frame[n - 2] && rx[n] == frame[n - 1];
  }

  lemma {:induction false} ItemsEnd(ts: seq<seq<char>>, k: nat)
    requires k < |ts| == 5
    ensures Items(ts, k) != [] && Items(ts, k)[|Items(ts, k)| - 1] == '}'
    decreases |ts| - k
  {
    if k < 4 {
      ItemsEnd(ts, k + 1);
    }
  }

  lemma FrameEnds(m: Send)
    ensures FrameText(m) != [] && FrameText(m)[|FrameText(m)| - 1] == '}'
  {
    FrameTextIs(m);
    ItemsEnd(Numerals(Words(m)), 0);
  }

  /** For everything that can be sent: a text of more than 32 characters is ignored, because its closing
      brace follows the line end; any other is scanned with its seal, so from 29 characters on the checksum
      digits stand in for the end of the text. */
  lemma RadioDelivery(m: Send)
    ensures var air := OnAir(Prepared(m));
      && 33 <= |air| <= 62
      && Receive(RxBuffer(air), |air| - 1) ==
         if |FrameText(m)| > 32 then Ignored
         else Delivery.Normal(Scan(FrameString(m), 0, SCAN_FORMAT, 0))
  {
    OnAirIs(m);
    FrameAllClean(m);
    FrameFits(m);
    FrameEnds(m);
    LineEnd(FrameText(m));
    ReceiveIs((|Frame(m)| + 1) as char, Frame(m));
  }

  /** The line end is the end of the frame unless the text is longer. */
  lemma LineEnd(t: seq<char>)
    requires |t| >= 28 && t[|t| - 1] == '}'
    ensures var frame := Sealing(t); var n := |frame|;
      n >= 32 && (frame[n - 2] == '\r' && frame[n - 1] == '\n' <==> |t| <= 32)
  {
    var frame := Sealing(t);
    if |t| > 32 {
      assert frame[|frame| - 1] == t[|t| - 1];
    } else {
      assert frame[30] == '\r' && frame[31] == '\n';
    }
  }

  lemma ValuesAre(m: Send)
    ensures Values(Words(m)) ==
      [Signed(m.target), Signed(m.self), (m.counter + 1) % 256 as int, m.command as int, m.data as int]
  {}

  lemma FrameArrives(m: Send)
    requires InRange(m)
    ensures |FrameText(m)| == 28 && Scan(FrameString(m), 0, SCAN_FORMAT, 0) == Values(Words(m))
  {
    FrameFits(m);
    var s := FrameString(m);
    assert s[0..|FrameText(m)|] == FrameText(m);
    FrameScansBack(m, s, SCAN_FORMAT);
  }

  /** Sent, transmitted, received and scanned: the 32-byte frame passes the receiver's checks and every
      field arrives, the counter one higher modulo 256. */
  lemma RadioRoundTrip(m: Send)
    requires InRange(m)
    ensures var air := OnAir(Prepared(m));
      && |air| == 33
      && Receive(RxBuffer(air), |air| - 1) ==
         Delivery.Normal([Signed(m.target), Signed(m.self), (m.counter + 1) % 256, m.command, m.data])
  {
    RadioDelivery(m);
    OnAirIs(m);
    FrameArrives(m);
    ValuesAre(m);
  }

  /** Ids below 10^8 are in range, and arrive as they are. */
  lemma PlainIdsFit(m: Send)
    requires m.target < 100000000 && m.self < 100000000 && m.command < 100 && m.data < 10
    ensures InRange(m) && Signed(m.target) == m.target && Signed(m.self) == m.self
  {
    assert Format.Pow10(8) == 100000000;
  }
}
