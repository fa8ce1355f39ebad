/** What print_number writes, strtol reads back. */
module PrintScan {
  import opened Common
  import opened FormatModel
  import opened ScanModel

  /** `t` stands in `s` at position i. */
  ghost predicate At(s: seq<char>, i: nat, t: seq<char>) { i + |t| <= |s| && s[i..i + |t|] == t }

  lemma AtParts(s: seq<char>, i: nat, a: seq<char>, b: seq<char>)
    ensures At(s, i, a + b) <==> At(s, i, a) && At(s, i + |a|, b)
  {
    if At(s, i, a + b) {
      assert s[i..i + |a + b|][..|a|] == a;
      assert s[i..i + |a + b|][|a|..] == b;
    }
    if At(s, i, a) && At(s, i + |a|, b) {
      assert s[i..i + |a + b|] == a + b;
    }
  }

  /* ---- Digits denote numbers ---- */

  predicate AllDigits(ds: seq<char>, b: nat) { forall k | 0 <= k < |ds| :: IsDigitIn(ds[k], b) }

  lemma DigitDenotes(d: nat, large: bool)
    requires d < 16
    ensures DigitValue(Digit(d, large)) == d
  {}

  lemma ValueSnoc(ds: seq<char>, c: char, b: nat)
    ensures Value(ds + [c], b) == Shift(Value(ds, b), b) + DigitValue(c)
  {
    assert (ds + [c])[..|ds|] == ds;
  }

  /** Positional notation: the digits printed for n have value n, and only a single digit may be 0. */
  lemma {:induction false} DigitsDenote(n: nat, b: nat, large: bool)
    requires b == 10 || b == 16
    ensures Value(Digits(n, b, large), b) == n
    ensures AllDigits(Digits(n, b, large), b)
    ensures |Digits(n, b, large)| > 1 ==> Digits(n, b, large)[0] != '0'
  {
    if n < b {
      DigitDenotes(n, large);
      ValueSnoc([], Digit(n, large), b);
      assert [] + [Digit(n, large)] == [Digit(n, large)];
    } else {
      DigitsDenote(Quot(n, b), b, large);
      DigitDenotes(Rem(n, b), large);
      ValueSnoc(Digits(Quot(n, b), b, large), Digit(Rem(n, b), large), b);
    }
  }

  lemma {:induction false} ZerosValue(k: nat, b: nat)
    ensures Value(Rep('0', k), b) == 0 && (b > 0 ==> AllDigits(Rep('0', k), b))
  {
    if k > 0 {
      ZerosValue(k - 1, b);
      ValueSnoc(Rep('0', k - 1), '0', b);
      assert Rep('0', k) == Rep('0', k - 1) + ['0'];
    }
  }

  /** Leading zeros change nothing. */
  lemma {:induction false} PaddedValue(k: nat, ds: seq<char>, b: nat)
    ensures Value(Rep('0', k) + ds, b) == Value(ds, b)
    decreases |ds|
  {
    if ds == [] {
      ZerosValue(k, b);
      assert Rep('0', k) + ds == Rep('0', k);
    } else {
      var ds1, c := ds[..|ds| - 1], ds[|ds| - 1];
      assert ds1 + [c] == ds && Rep('0', k) + ds == (Rep('0', k) + ds1) + [c];
      PaddedValue(k, ds1, b);
      ValueSnoc(ds1, c, b);
      ValueSnoc(Rep('0', k) + ds1, c, b);
    }
  }

  /* ---- strtol on a printed field ---- */

  lemma {:induction false} SkipsTo(s: CString, i: nat, k: nat)
    requires i <= k < |s| && (forall j | i <= j < k :: IsSpace(s[j])) && !IsSpace(s[k])
    ensures SkipSpace(s, i) == k
    decreases k - i
  {
    if i < k {
      SkipsTo(s, i + 1, k);
    }
  }

  lemma {:induction false} RunsTo(s: CString, i: nat, k: nat, b: nat)
    requires i <= k < |s| && b <= 16 && (forall j | i <= j < k :: IsDigitIn(s[j], b)) && !IsDigitIn(s[k], b)
    ensures RunEnd(s, i, b) == k
    decreases k - i
  {
    if i < k {
      RunsTo(s, i + 1, k, b);
    }
  }

  predicate IsSign(sg: seq<char>) { sg == "" || sg == "-" || sg == "+" || sg == " " }

  function Apply(sg: seq<char>, v: int): int { if sg == "-" then -v else v }

  /** Not part of a number, blank or sign. */
  predicate Stops(c: char) { !IsSpace(c) && c != '-' && c != '+' && !IsDigitIn(c, 16) }

  /** Blanks, a sign and decimal digits, ended at `e` by a character that is no digit. */
  ghost predicate Field(s: CString, i: nat, pad: nat, sg: seq<char>, body: seq<char>, e: nat) {
    && IsSign(sg) && AllDigits(body, 10) && body != []
    && At(s, i, Rep(' ', pad)) && At(s, i + pad, sg) && At(s, i + pad + |sg|, body)
    && e == i + pad + |sg| + |body| < |s| && !IsDigitIn(s[e], 10)
  }

  lemma FieldDigits(s: CString, i: nat, pad: nat, sg: seq<char>, body: seq<char>, e: nat)
    requires Field(s, i, pad, sg, body, e)
    ensures var p := i + pad + |sg|; RunEnd(s, p, 10) == e && s[p..e] == body && IsDigitIn(s[p], 10)
  {
    var p := i + pad + |sg|;
    forall j | p <= j < e
      ensures IsDigitIn(s[j], 10)
    {
      assert s[j] == s[p..e][j - p];
    }
    RunsTo(s, p, e, 10);
  }

  lemma FieldStart(s: CString, i: nat, pad: nat, sg: seq<char>, body: seq<char>, e: nat)
    requires Field(s, i, pad, sg, body, e)
    ensures DigitsStart(s, i, 10) == i + pad + |sg|
    ensures s[SkipSpace(s, i)] == '-' <==> sg == "-"
  {
    forall j | i <= j < i + pad
      ensures IsSpace(s[j])
    {
      assert s[j] == s[i..i + pad][j - i];
    }
    FieldDigits(s, i, pad, sg, body, e);
    var q := i + pad;
    assert sg != "" ==> s[q] == s[q..q + |sg|][0];
    SkipsTo(s, i, if sg == " " then q + 1 else q);
  }

  lemma ReadField(s: CString, i: nat, pad: nat, sg: seq<char>, body: seq<char>, e: nat)
    requires Field(s, i, pad, sg, body, e)
    ensures Strtol(s, i, 10) == (Clamp(Apply(sg, Value(body, 10))), e)
  {
    FieldStart(s, i, pad, sg, body, e);
    FieldDigits(s, i, pad, sg, body, e);
  }

  /** Blanks, a sign and blanks, ended at `e` by a character that cannot continue a number. */
  ghost predicate Hollow(s: CString, i: nat, pad: nat, sg: seq<char>, tail: nat, e: nat) {
    && IsSign(sg) && e == i + pad + |sg| + tail < |s| && Stops(s[e])
    && At(s, i, Rep(' ', pad)) && At(s, i + pad, sg) && At(s, i + pad + |sg|, Rep(' ', tail))
  }

  lemma BlankAt(s: CString, i: nat, n: nat)
    requires At(s, i, Rep(' ', n))
    ensures forall j | i <= j < i + n :: s[j] == ' '
  {
    forall j | i <= j < i + n
      ensures s[j] == ' '
    {
      assert s[j] == s[i..i + n][j - i];
    }
  }

  lemma ReadNothing(s: CString, i: nat, pad: nat, sg: seq<char>, tail: nat, e: nat)
    requires Hollow(s, i, pad, sg, tail, e)
    ensures Strtol(s, i, 10) == (0, i)
  {
    var q := i + pad;
    BlankAt(s, i, pad);
    BlankAt(s, q + |sg|, tail);
    assert sg != "" ==> s[q] == s[q..q + |sg|][0];
    if sg == "-" || sg == "+" {
      SkipsTo(s, i, q);
      assert !IsDigitIn(s[q + 1], 10);
    } else {
      SkipsTo(s, i, e);
    }
  }

  /* ---- print_number and strtol ---- */

  /** The digits of a number with any zeros before them. */
  lemma BodyDenotes(zeros: nat, w: Word, precision: int, fl: Flags)
    requires precision != 0
    ensures var body := Rep('0', zeros) + NumberBody(w, 10, precision, fl);
      body != [] && AllDigits(body, 10) && Value(body, 10) == Magnitude(w, fl)
  {
    var ds := NumberDigits(w, 10, fl);
    var more := Max(precision - |ds|, 0);
    DigitsDenote(Magnitude(w, fl), 10, fl.large);
    PaddedValue(more, ds, 10);
    PaddedValue(zeros, Rep('0', more) + ds, 10);
    assert Rep('0', precision - |ds|) == Rep('0', more);
  }

  lemma SignedIs(w: Word, fl: Flags)
    requires fl.sign
    ensures IsSign(SignText(w, fl)) && Clamp(Apply(SignText(w, fl), Magnitude(w, fl))) == Signed(w)
  {}

  /** A signed decimal conversion stands in `s` at i and ends at `e`. */
  ghost predicate Printed(s: CString, i: nat, w: Word, width: int, precision: int, fl: Flags, e: nat) {
    && At(s, i, NumberText(w, 10, width, precision, fl))
    && e == i + |NumberText(w, 10, width, precision, fl)| < |s| && Stops(s[e]) && fl.sign
  }

  /** Blanks that follow the digits of a left-justified number. */
  function Trailing(w: Word, width: int, precision: int, fl: Flags): nat {
    if fl.left then Max(Gap(w, 10, width, precision, fl), 0) else 0
  }

  /** A field with digits or without. */
  ghost predicate FieldAt(s: CString, i: nat, pad: nat, sg: seq<char>, body: seq<char>, tail: nat, e: nat) {
    tail <= e && if body == [] then Hollow(s, i, pad, sg, tail, e) else Field(s, i, pad, sg, body, e - tail)
  }

  lemma FieldReads(s: CString, i: nat, pad: nat, sg: seq<char>, body: seq<char>, tail: nat, e: nat)
    requires FieldAt(s, i, pad, sg, body, tail, e)
    ensures i < |s|
    ensures Strtol(s, i, 10) == if body == [] then (0, i) else (Clamp(Apply(sg, Value(body, 10))), e - tail)
  {
    if body == [] {
      ReadNothing(s, i, pad, sg, tail, e);
    } else {
      ReadField(s, i, pad, sg, body, e - tail);
    }
  }

  /** The digits as they stand in the field, zero padding included. */
  function InField(w: Word, width: int, precision: int, fl: Flags): seq<char> {
    Rep('0', if fl.zero && !fl.left then Gap(w, 10, width, precision, fl) else 0) + NumberBody(w, 10, precision, fl)
  }

  lemma ShownDenotes(w: Word, width: int, precision: int, fl: Flags)
    ensures AllDigits(InField(w, width, precision, fl), 10)
    ensures Value(InField(w, width, precision, fl), 10) == if precision == 0 then 0 else Magnitude(w, fl)
    ensures precision != 0 ==> InField(w, width, precision, fl) != []
  {
    var zeros := if fl.zero && !fl.left then Max(Gap(w, 10, width, precision, fl), 0) else 0;
    assert InField(w, width, precision, fl) == Rep('0', zeros) + NumberBody(w, 10, precision, fl);
    if precision == 0 {
      ZerosValue(zeros, 10);
      assert InField(w, width, precision, fl) == Rep('0', zeros);
    } else {
      BodyDenotes(zeros, w, precision, fl);
    }
  }

  function Leading(w: Word, width: int, precision: int, fl: Flags): nat {
    if fl.left || fl.zero then 0 else Max(Gap(w, 10, width, precision, fl), 0)
  }

  /** print_number as blanks, sign, digits and blanks. */
  lemma Layout(w: Word, width: int, precision: int, fl: Flags)
    ensures NumberText(w, 10, width, precision, fl) ==
      Rep(' ', Leading(w, width, precision, fl)) + SignText(w, fl) + InField(w, width, precision, fl)
      + Rep(' ', Trailing(w, width, precision, fl))
  {
    assert Rep('0', 0) + NumberBody(w, 10, precision, fl) == NumberBody(w, 10, precision, fl);
  }

  /** Any text of that layout is a field. */
  lemma LaidOut(s: CString, i: nat, t: seq<char>, pad: nat, sg: seq<char>, body: seq<char>, tail: nat, e: nat)
    requires t == Rep(' ', pad) + sg + body + Rep(' ', tail) && IsSign(sg) && AllDigits(body, 10)
    requires At(s, i, t) && e == i + |t| < |s| && Stops(s[e])
    ensures FieldAt(s, i, pad, sg, body, tail, e)
  {
    AtParts(s, i, Rep(' ', pad) + sg + body, Rep(' ', tail));
    AtParts(s, i, Rep(' ', pad) + sg, body);
    AtParts(s, i, Rep(' ', pad), sg);
    BlankAt(s, i + pad + |sg| + |body|, tail);
  }

  lemma PrintedField(s: CString, i: nat, w: Word, width: int, precision: int, fl: Flags, t: seq<char>, e: nat)
    requires t == NumberText(w, 10, width, precision, fl) && fl.sign
    requires At(s, i, t) && e == i + |t| < |s| && Stops(s[e])
    ensures FieldAt(s, i, Leading(w, width, precision, fl), SignText(w, fl), InField(w, width, precision, fl),
                    Trailing(w, width, precision, fl), e)
  {
    Layout(w, width, precision, fl);
    ShownDenotes(w, width, precision, fl);
    SignedIs(w, fl);
    LaidOut(s, i, t, Leading(w, width, precision, fl), SignText(w, fl), InField(w, width, precision, fl),
            Trailing(w, width, precision, fl), e);
  }

  /** Whatever width and flags a %d is printed with, strtol reads the number back exactly when its digits
      were not suppressed by a precision of 0, or it is 0. */
  lemma NumberReadsBack(s: CString, i: nat, w: Word, width: int, precision: int, fl: Flags, e: nat)
    requires Printed(s, i, w, width, precision, fl, e)
    ensures Strtol(s, i, 10).0 == Signed(w) <==> (precision != 0 || w == 0)
    ensures precision != 0 ==> Strtol(s, i, 10).1 == e - Trailing(w, width, precision, fl)
  {
    PrintedField(s, i, w, width, precision, fl, NumberText(w, 10, width, precision, fl), e);
    FieldReads(s, i, Leading(w, width, precision, fl), SignText(w, fl), InField(w, width, precision, fl),
               Trailing(w, width, precision, fl), e);
    ShownDenotes(w, width, precision, fl);
    SignedIs(w, fl);
  }

  /* ---- %o ---- */

  /** Octal notation. */
  function OctalDigits(n: nat): (s: seq<char>)
    ensures |s| > 0
  {
    if n < 8 then [Digit(n, false)] else OctalDigits(n / 8) + [Digit(n % 8, false)]
  }

  lemma {:induction false} OctalDenotes(n: nat)
    ensures Value(OctalDigits(n), 8) == n && AllDigits(OctalDigits(n), 8)
  {
    if n < 8 {
      DigitDenotes(n, false);
      ValueSnoc([], Digit(n, false), 8);
      assert [] + [Digit(n, false)] == [Digit(n, false)];
    } else {
      OctalDenotes(n / 8);
      DigitDenotes(n % 8, false);
      ValueSnoc(OctalDigits(n / 8), Digit(n % 8, false), 8);
    }
  }

  /** Read in base 16 the same digits are worth at least as much, and more if a nonzero part is shifted. */
  lemma {:induction false} HexIsMore(ds: seq<char>)
    ensures Value(ds, 16) >= Value(ds, 8)
    ensures ds != [] && Value(ds[..|ds| - 1], 8) > 0 ==> Value(ds, 16) > Value(ds, 8)
  {
    if ds != [] {
      HexIsMore(ds[..|ds| - 1]);
    }
  }

  lemma OctalDiffers(n: nat, large: bool)
    requires n >= 8
    ensures Digits(n, 16, large) != OctalDigits(n)
  {
    var ds := OctalDigits(n);
    DigitsDenote(n, 16, large);
    OctalDenotes(n);
    OctalDenotes(n / 8);
    assert ds[..|ds| - 1] == OctalDigits(n / 8);
    HexIsMore(ds);
  }

  /** %o prints the octal digits of its argument exactly for arguments below 8: `divide` does not know
      base 8. */
  lemma OctalExact(w: Word, fl: Flags)
    ensures NumberDigits(w, Base('o'), fl) == OctalDigits(Magnitude(w, fl)) <==> Magnitude(w, fl) < 8
  {
    var n := Magnitude(w, fl);
    if n >= 8 {
      OctalDiffers(n, fl.large);
    }
  }

  /** The smallest wrong one: %o of 8 prints "8". */
  lemma OctalOfEight()
    ensures IntegerText('o', 8, Spec(NO_FLAGS, -1, -1, '\0', 0, 0)) == "8" && OctalDigits(8) == "10"
  {
    assert Digits(8, 16, false) == "8";
    assert OctalDigits(1) == "1";
  }
}
