/** Conversion specifications written out and parsed back: what rt_vsnprintf understands by each of them. */
module DirectiveLaws {
  import opened Common
  import opened FormatModel
  import opened ScanModel
  import opened PrintScan

  /** A width or a precision: missing, a number, taken from the arguments, or (precision only) a bare dot. */
  datatype Amount = Absent | Number(n: nat) | Star | Bare

  datatype Directive = Directive(flags: seq<char>, width: Amount, precision: Amount, qual: char, conv: char)

  predicate IsFlag(c: char) { c == '-' || c == '+' || c == ' ' || c == '#' || c == '0' }

  /** Not read as part of what comes before the conversion character. */
  predicate IsConversion(c: char) {
    !IsFlag(c) && !IsDigit(c) && c != '*' && c != '.' && c != 'h' && c != 'l' && c != '\0'
  }

  predicate WellFormed(d: Directive) {
    && (forall i | 0 <= i < |d.flags| :: IsFlag(d.flags[i]))
    && !d.width.Bare? && (d.width.Number? ==> d.width.n > 0)
    && (d.qual == '\0' || d.qual == 'h' || d.qual == 'l') && IsConversion(d.conv)
  }

  /* ---- Written out ---- */

  function WidthPart(w: Amount): seq<char> {
    match w case Number(n) => Digits(n, 10, false) case Star => "*" case _ => ""
  }

  function PrecisionPart(p: Amount): seq<char> {
    match p case Absent => "" case Number(n) => ['.'] + Digits(n, 10, false) case Star => ".*" case Bare => "."
  }

  function QualPart(q: char): seq<char> { if q == '\0' then "" else [q] }

  function AfterPrecision(d: Directive): seq<char> { QualPart(d.qual) + [d.conv] }

  function AfterWidth(d: Directive): seq<char> { PrecisionPart(d.precision) + AfterPrecision(d) }

  function AfterFlags(d: Directive): seq<char> { WidthPart(d.width) + AfterWidth(d) }

  /** What follows the percent sign. */
  function Written(d: Directive): seq<char> { d.flags + AfterFlags(d) }

  /* ---- What it means ---- */

  function Raised(fl: Flags, fs: seq<char>): Flags {
    fl.(left := fl.left || '-' in fs, plus := fl.plus || '+' in fs, space := fl.space || ' ' in fs,
        special := fl.special || '#' in fs, zero := fl.zero || '0' in fs)
  }

  function ArgAt(args: Args, a: nat): int { Signed(args(a).word) }

  function WidthOf(d: Directive, args: Args, a: nat): int {
    match d.width
    case Number(n) => n
    case Star => (if ArgAt(args, a) < 0 then -ArgAt(args, a) else ArgAt(args, a))
    case _ => -1
  }

  /** A negative width from the arguments means left justification. */
  function FlagsOf(d: Directive, args: Args, a: nat): Flags {
    var fl := Raised(NO_FLAGS, d.flags);
    fl.(left := fl.left || (d.width.Star? && ArgAt(args, a) < 0))
  }

  function AfterWidthArg(d: Directive, a: nat): nat { if d.width.Star? then a + 1 else a }

  function PrecisionOf(d: Directive, args: Args, a: nat): int {
    match d.precision
    case Absent => -1
    case Number(n) => n
    case Star => Max(ArgAt(args, AfterWidthArg(d, a)), 0)
    case Bare => 0
  }

  function AfterStars(d: Directive, a: nat): nat { AfterWidthArg(d, a) + if d.precision.Star? then 1 else 0 }

  function Meaning(d: Directive, i: nat, args: Args, a: nat): Spec {
    Spec(FlagsOf(d, args, a), WidthOf(d, args, a), PrecisionOf(d, args, a), d.qual, i + |Written(d)| - 1,
         AfterStars(d, a))
  }

  /* ---- Flags ---- */

  lemma RaisedStep(fl: Flags, fs: seq<char>, c: char, one: Flags)
    requires fs != [] && fs[0] == c && IsFlag(c) && one == Raised(fl, [c])
    ensures Raised(one, fs[1..]) == Raised(fl, fs)
  {
    assert forall x :: x in fs <==> x == c || x in fs[1..];
  }

  lemma FlagStep(fmt: CString, s: Spec)
    requires s.at < |fmt| && IsFlag(fmt[s.at])
    ensures s.at + 1 < |fmt|
    ensures WithFlags(fmt, s) == WithFlags(fmt, s.(at := s.at + 1, flags := Raised(s.flags, [fmt[s.at]])))
  {}

  lemma {:induction false} FlagsLaw(fmt: CString, s: Spec, fs: seq<char>)
    requires At(fmt, s.at, fs) && (forall i | 0 <= i < |fs| :: IsFlag(fs[i]))
    requires s.at + |fs| < |fmt| && !IsFlag(fmt[s.at + |fs|])
    ensures WithFlags(fmt, s) == s.(at := s.at + |fs|, flags := Raised(s.flags, fs))
    decreases |fs|
  {
    if fs != [] {
      AtParts(fmt, s.at, fs[..1], fs[1..]);
      assert fs[..1] + fs[1..] == fs;
      assert fmt[s.at] == fmt[s.at..s.at + |fs|][0];
      FlagStep(fmt, s);
      var s1 := s.(at := s.at + 1, flags := Raised(s.flags, [fs[0]]));
      FlagsLaw(fmt, s1, fs[1..]);
      RaisedStep(s.flags, fs, fs[0], s1.flags);
    }
  }

  /* ---- Numbers ---- */

  predicate Plain(ds: seq<char>) { forall i | 0 <= i < |ds| :: IsDigit(ds[i]) }

  function Fold(ds: seq<char>, acc: nat): nat
    requires Plain(ds)
  {
    if ds == [] then acc
    else
      assert IsDigit(ds[0]);
      Fold(ds[1..], acc * 10 + (ds[0] as int - '0' as int))
  }

  lemma {:induction false} FoldSnoc(ds: seq<char>, c: char, acc: nat)
    requires Plain(ds) && IsDigit(c)
    ensures Fold(ds + [c], acc) == Fold(ds, acc) * 10 + (c as int - '0' as int)
  {
    if ds == [] {
      assert [] + [c] == [c];
      assert [c][1..] == [];
    } else {
      assert (ds + [c])[1..] == ds[1..] + [c];
      FoldSnoc(ds[1..], c, acc * 10 + (ds[0] as int - '0' as int));
    }
  }

  lemma {:induction false} FoldIsValue(ds: seq<char>)
    requires Plain(ds)
    ensures Fold(ds, 0) == Value(ds, 10)
  {
    if ds != [] {
      var init, c := ds[..|ds| - 1], ds[|ds| - 1];
      FoldIsValue(init);
      FoldSnoc(init, c, 0);
      assert init + [c] == ds;
    }
  }

  lemma {:induction false} AtoiRun(fmt: CString, i: nat, ds: seq<char>, acc: nat)
    requires At(fmt, i, ds) && Plain(ds)
    requires i + |ds| < |fmt| && !IsDigit(fmt[i + |ds|])
    ensures Atoi(fmt, i, acc) == Fold(ds, acc) && DigitsEnd(fmt, i) == i + |ds|
    decreases |ds|
  {
    if ds != [] {
      AtParts(fmt, i, ds[..1], ds[1..]);
      assert ds[..1] + ds[1..] == ds;
      assert fmt[i] == fmt[i..i + |ds|][0];
      AtoiRun(fmt, i + 1, ds[1..], acc * 10 + (ds[0] as int - '0' as int));
    }
  }

  lemma DigitsPlain(n: nat)
    ensures var ds := Digits(n, 10, false);
      Plain(ds) && Fold(ds, 0) == n && (n > 0 ==> ds[0] != '0')
  {
    var ds := Digits(n, 10, false);
    DigitsDenote(n, 10, false);
    forall k | 0 <= k < |ds|
      ensures IsDigit(ds[k])
    {
      assert IsDigitIn(ds[k], 10);
    }
    FoldIsValue(ds);
    if n > 0 && |ds| == 1 {
      assert n < 10;
    }
  }

  lemma NumberLaw(fmt: CString, i: nat, n: nat)
    requires var ds := Digits(n, 10, false); At(fmt, i, ds) && i + |ds| < |fmt| && !IsDigit(fmt[i + |ds|])
    ensures var ds := Digits(n, 10, false);
      IsDigit(fmt[i]) && Atoi(fmt, i, 0) == n && DigitsEnd(fmt, i) == i + |ds| && (n > 0 ==> fmt[i] != '0')
  {
    var ds := Digits(n, 10, false);
    DigitsPlain(n);
    assert fmt[i] == fmt[i..i + |ds|][0];
    AtoiRun(fmt, i, ds, 0);
  }

  /* ---- Parsed back ---- */

  lemma FirstAt(fmt: CString, i: nat, t: seq<char>)
    requires At(fmt, i, t) && t != []
    ensures i < |fmt| && fmt[i] == t[0]
  {
    assert fmt[i] == fmt[i..i + |t|][0];
  }

  lemma QualLaw(fmt: CString, s: Spec, d: Directive)
    requires WellFormed(d) && At(fmt, s.at, AfterPrecision(d)) && s.qual == '\0'
    ensures s.at < |fmt|
    ensures WithQualifier(fmt, s) == s.(qual := d.qual, at := s.at + |QualPart(d.qual)|)
    ensures fmt[s.at + |QualPart(d.qual)|] == d.conv
  {
    AtParts(fmt, s.at, QualPart(d.qual), [d.conv]);
    FirstAt(fmt, s.at, AfterPrecision(d));
    FirstAt(fmt, s.at + |QualPart(d.qual)|, [d.conv]);
  }

  lemma AfterPrecisionFirst(d: Directive)
    requires WellFormed(d)
    ensures var c := AfterPrecision(d)[0]; !IsDigit(c) && c != '.' && c != '*' && !IsFlag(c)
  {}

  lemma PrecisionNumber(fmt: CString, s: Spec, n: nat, args: Args)
    requires var part := ['.'] + Digits(n, 10, false);
      At(fmt, s.at, part) && s.at + |part| < |fmt| && !IsDigit(fmt[s.at + |part|])
    ensures s.at < |fmt|
    ensures WithPrecision(fmt, s, args) == s.(precision := n, at := s.at + 1 + |Digits(n, 10, false)|)
  {
    var ds := Digits(n, 10, false);
    AtParts(fmt, s.at, ['.'], ds);
    FirstAt(fmt, s.at, ['.']);
    NumberLaw(fmt, s.at + 1, n);
  }

  lemma PrecisionStar(fmt: CString, s: Spec, args: Args)
    requires At(fmt, s.at, ".*")
    ensures s.at < |fmt|
    ensures WithPrecision(fmt, s, args) ==
      s.(precision := Max(ArgAt(args, s.arg), 0), at := s.at + 2, arg := s.arg + 1)
  {
    var part := fmt[s.at..s.at + 2];
    assert fmt[s.at] == part[0] && fmt[s.at + 1] == part[1];
  }

  lemma PrecisionBare(fmt: CString, s: Spec, args: Args)
    requires s.at + 1 < |fmt| && fmt[s.at] == '.' && !IsDigit(fmt[s.at + 1]) && fmt[s.at + 1] != '*'
    ensures WithPrecision(fmt, s, args) == s.(precision := 0, at := s.at + 1)
  {}

  lemma PrecisionLaw(fmt: CString, s: Spec, d: Directive, args: Args, a: nat)
    requires WellFormed(d) && At(fmt, s.at, AfterWidth(d)) && s.precision == -1 && s.arg == AfterWidthArg(d, a)
    ensures s.at < |fmt|
    ensures WithPrecision(fmt, s, args) ==
      s.(precision := PrecisionOf(d, args, a), at := s.at + |PrecisionPart(d.precision)|, arg := AfterStars(d, a))
    ensures At(fmt, s.at + |PrecisionPart(d.precision)|, AfterPrecision(d))
  {
    var part, rest := PrecisionPart(d.precision), AfterPrecision(d);
    AtParts(fmt, s.at, part, rest);
    FirstAt(fmt, s.at, AfterWidth(d));
    FirstAt(fmt, s.at + |part|, rest);
    AfterPrecisionFirst(d);
    match d.precision
    case Number(n) =>
      PrecisionNumber(fmt, s, n, args);
    case Star =>
      PrecisionStar(fmt, s, args);
    case Bare =>
      PrecisionBare(fmt, s, args);
    case Absent =>
  }

  lemma AfterWidthFirst(d: Directive)
    requires WellFormed(d)
    ensures AfterWidth(d) != []
    ensures var c := AfterWidth(d)[0]; !IsDigit(c) && c != '*' && !IsFlag(c)
  {
    AfterPrecisionFirst(d);
  }

  lemma WidthNumber(fmt: CString, s: Spec, n: nat, args: Args)
    requires var part := Digits(n, 10, false);
      At(fmt, s.at, part) && s.at + |part| < |fmt| && !IsDigit(fmt[s.at + |part|])
    ensures s.at < |fmt|
    ensures WithWidth(fmt, s, args) == s.(width := n, at := s.at + |Digits(n, 10, false)|)
  {
    NumberLaw(fmt, s.at, n);
  }

  lemma WidthStar(fmt: CString, s: Spec, args: Args)
    requires s.at < |fmt| && fmt[s.at] == '*'
    ensures var w := ArgAt(args, s.arg);
      WithWidth(fmt, s, args) ==
        s.(at := s.at + 1, arg := s.arg + 1, width := if w < 0 then -w else w,
           flags := s.flags.(left := s.flags.left || w < 0))
  {}

  lemma WidthLaw(fmt: CString, s: Spec, d: Directive, args: Args, a: nat)
    requires WellFormed(d) && At(fmt, s.at, AfterFlags(d)) && s.width == -1 && s.arg == a
    requires s.flags == Raised(NO_FLAGS, d.flags)
    ensures s.at < |fmt|
    ensures WithWidth(fmt, s, args) ==
      s.(width := WidthOf(d, args, a), flags := FlagsOf(d, args, a), at := s.at + |WidthPart(d.width)|,
         arg := AfterWidthArg(d, a))
    ensures At(fmt, s.at + |WidthPart(d.width)|, AfterWidth(d))
  {
    var part, rest := WidthPart(d.width), AfterWidth(d);
    AtParts(fmt, s.at, part, rest);
    AfterWidthFirst(d);
    FirstAt(fmt, s.at, AfterFlags(d));
    FirstAt(fmt, s.at + |part|, rest);
    match d.width
    case Number(n) =>
      WidthNumber(fmt, s, n, args);
    case Star =>
      WidthStar(fmt, s, args);
    case Absent =>
  }

  lemma AfterFlagsFirst(d: Directive)
    requires WellFormed(d)
    ensures AfterFlags(d) != [] && !IsFlag(AfterFlags(d)[0])
  {
    AfterWidthFirst(d);
    if d.width.Number? {
      DigitsPlain(d.width.n);
    }
  }

  lemma WrittenLength(d: Directive)
    ensures |Written(d)| ==
      |d.flags| + |WidthPart(d.width)| + |PrecisionPart(d.precision)| + |QualPart(d.qual)| + 1
  {}

  lemma StagesLaw(fmt: CString, s1: Spec, d: Directive, args: Args, a: nat)
    requires WellFormed(d) && At(fmt, s1.at, AfterFlags(d))
    requires s1 == Spec(Raised(NO_FLAGS, d.flags), -1, -1, '\0', s1.at, a)
    ensures var k := s1.at + |WidthPart(d.width)| + |PrecisionPart(d.precision)| + |QualPart(d.qual)|;
      s1.at < |fmt| && k < |fmt| && fmt[k] == d.conv &&
      WithQualifier(fmt, WithPrecision(fmt, WithWidth(fmt, s1, args), args)) ==
        Spec(FlagsOf(d, args, a), WidthOf(d, args, a), PrecisionOf(d, args, a), d.qual, k, AfterStars(d, a))
  {
    WidthLaw(fmt, s1, d, args, a);
    var s2 := WithWidth(fmt, s1, args);
    PrecisionLaw(fmt, s2, d, args, a);
    var s3 := WithPrecision(fmt, s2, args);
    QualLaw(fmt, s3, d);
  }

  /** Every specification is understood as written: flags in any order and number, width, precision and
      qualifier, with the arguments that its stars take. */
  lemma ParsesBack(fmt: CString, i: nat, d: Directive, args: Args, a: nat)
    requires WellFormed(d) && At(fmt, i, Written(d))
    ensures i < |fmt| && Parsed(fmt, i, args, a) == Meaning(d, i, args, a)
    ensures fmt[Meaning(d, i, args, a).at] == d.conv
  {
    var s0 := Spec(NO_FLAGS, -1, -1, '\0', i, a);
    AtParts(fmt, i, d.flags, AfterFlags(d));
    AfterFlagsFirst(d);
    FirstAt(fmt, i + |d.flags|, AfterFlags(d));
    FlagsLaw(fmt, s0, d.flags);
    StagesLaw(fmt, WithFlags(fmt, s0), d, args, a);
    WrittenLength(d);
  }

  /* ---- One round, and the whole text ---- */

  /** How many arguments a conversion takes itself. */
  function Taken(c: char): nat { if c in "cspoXxdiu" then 1 else 0 }

  lemma TakenIs(c: char, s: Spec)
    ensures NextArg(c, s) == s.arg + Taken(c)
  {
    assert 'c' in "cspoXxdiu" && 's' in "cspoXxdiu" && 'p' in "cspoXxdiu" && 'o' in "cspoXxdiu" && 'X' in "cspoXxdiu";
    assert 'x' in "cspoXxdiu" && 'd' in "cspoXxdiu" && 'i' in "cspoXxdiu" && 'u' in "cspoXxdiu";
  }

  /** What one round needs to know of a specification. */
  lemma SpecStep(fmt: CString, i: nat, d: Directive, args: Args, a: nat)
    requires WellFormed(d) && At(fmt, i, ['%'] + Written(d))
    ensures i + 1 < |fmt| && fmt[i] == '%'
    ensures var s := Meaning(d, i + 1, args, a);
      s == Parsed(fmt, i + 1, args, a) && s.at < |fmt| && fmt[s.at] == d.conv && s.at == i + |Written(d)| &&
      NextArg(d.conv, s) == AfterStars(d, a) + Taken(d.conv)
  {
    AtParts(fmt, i, ['%'], Written(d));
    FirstAt(fmt, i, ['%']);
    ParsesBack(fmt, i + 1, d, args, a);
    TakenIs(d.conv, Meaning(d, i + 1, args, a));
  }

  lemma HeadIs(fmt: CString, i: nat, args: Args, a: nat, c: char, s: Spec, b: nat)
    requires i + 1 < |fmt| && fmt[i] == '%' && s == Parsed(fmt, i + 1, args, a)
    requires c == fmt[s.at] && c != '\0' && b == NextArg(c, s)
    ensures s.at + 1 < |fmt|
    ensures Output(fmt, i, args, a) == Piece(c, s, args) + Output(fmt, s.at + 1, args, b)
  {
    HeadIsParts(fmt, i, args, a, c, s);
  }

  lemma HeadIsParts(fmt: CString, i: nat, args: Args, a: nat, c: char, s: Spec)
    requires i + 1 < |fmt| && fmt[i] == '%' && s == Parsed(fmt, i + 1, args, a) && c == fmt[s.at] && c != '\0'
    ensures Head(fmt, i, args, a) == Piece(c, s, args)
    ensures HeadEnd(fmt, i, args, a) == s.at + 1 && HeadArg(fmt, i, args, a) == NextArg(c, s)
  {}

  lemma PlainPrints(fmt: CString, i: nat, args: Args, a: nat)
    requires i < |fmt| && fmt[i] != '%' && fmt[i] != '\0'
    ensures i + 1 < |fmt| && Output(fmt, i, args, a) == [fmt[i]] + Output(fmt, i + 1, args, a)
  {}

  /** Text before the first specification is printed as it is. */
  lemma {:induction false} TextPrints(fmt: CString, i: nat, t: seq<char>, args: Args, a: nat)
    requires i < |fmt| && At(fmt, i, t) && '%' !in t && '\0' !in t
    ensures i + |t| < |fmt| && Output(fmt, i, args, a) == t + Output(fmt, i + |t|, args, a)
    decreases |t|
  {
    if t != [] {
      var c, rest := t[0], t[1..];
      assert t == [c] + rest;
      AtParts(fmt, i, [c], rest);
      FirstAt(fmt, i, [c]);
      PlainPrints(fmt, i, args, a);
      TextPrints(fmt, i + 1, rest, args, a);
      Joined([c], rest, Output(fmt, i + |t|, args, a));
    }
  }

  /** A specification prints the argument it converts; the rest of the format goes on with the arguments after
      those that its stars and its conversion take. */
  lemma DirectivePrints(fmt: CString, i: nat, d: Directive, args: Args, a: nat, s: Spec, b: nat)
    requires WellFormed(d) && At(fmt, i, ['%'] + Written(d))
    requires s == Meaning(d, i + 1, args, a) && b == AfterStars(d, a) + Taken(d.conv)
    ensures i < |fmt| && s.at == i + |Written(d)| && s.at + 1 < |fmt|
    ensures Output(fmt, i, args, a) == Piece(d.conv, s, args) + Output(fmt, s.at + 1, args, b)
  {
    SpecStep(fmt, i, d, args, a);
    HeadIs(fmt, i, args, a, d.conv, s, b);
  }
}
