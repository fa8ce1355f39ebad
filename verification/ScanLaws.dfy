/** What each directive of rt_sscanf does with the input, said of the characters that stand there. */
module ScanLaws {
  import opened FormatModel
  import opened ScanModel
  import opened PrintScan

  /** White space, another character, %d or %x, and any other conversion. */
  datatype Item = Gap(c: char) | Literal(c: char) | Number(hex: bool) | Other(c: char)

  predicate WellFormed(it: Item) {
    match it
    case Gap(c) => IsSpace(c)
    case Literal(c) => !IsSpace(c) && c != '%' && c != '\0'
    case Number(_) => true
    case Other(c) => c != 'd' && c != 'x' && c != '\0'
  }

  function Written(it: Item): seq<char> {
    match it
    case Gap(c) => [c]
    case Literal(c) => [c]
    case Number(hex) => if hex then "%x" else "%d"
    case Other(c) => ['%'] + [c]
  }

  /** The input one item takes: blanks, a sign, "0x", and digits or the literal itself. */
  datatype Taken = Taken(blanks: seq<char>, sign: seq<char>, prefix: seq<char>, body: seq<char>)

  function Text(t: Taken): seq<char> { t.blanks + (t.sign + (t.prefix + t.body)) }

  predicate Blanks(t: seq<char>) { forall i | 0 <= i < |t| :: IsSpace(t[i]) }

  function BaseOf(hex: bool): nat { if hex then 16 else 10 }

  predicate IsPrefix(t: seq<char>) { t == "0x" || t == "0X" }

  /** The item takes exactly this much of `s` at i. */
  ghost predicate Takes(it: Item, t: Taken, s: CString, i: nat) {
    && At(s, i, Text(t)) && i + |Text(t)| < |s| && Blanks(t.blanks)
    && match it
       case Gap(_) => Text(t) == ""
       case Other(_) => Text(t) == ""
       case Literal(c) => t.sign == "" && t.prefix == "" && t.body == [c]
       case Number(hex) =>
         var e := i + |Text(t)|;
         && (t.sign == "" || t.sign == "-" || t.sign == "+")
         && t.body != [] && AllDigits(t.body, BaseOf(hex)) && !IsDigitIn(s[e], BaseOf(hex))
         && (t.prefix == "" || (hex && IsPrefix(t.prefix)))
         && (hex && t.prefix == "" ==> !(t.body == "0" && (s[e] == 'x' || s[e] == 'X') && IsDigitIn(s[e + 1], 16)))
  }

  /** A 32-bit long: out of range, the nearest end of the range. */
  function Saturated(v: int): int {
    if v > 0x7FFF_FFFF then 0x7FFF_FFFF else if v < -0x8000_0000 then -0x8000_0000 else v
  }

  /** What is stored for it. */
  function Yields(it: Item, t: Taken): seq<int> {
    match it
    case Number(hex) =>
      var v: int := Value(t.body, BaseOf(hex));
      [Saturated(if t.sign == "-" then -v else v)]
    case _ => []
  }

  /** After `k - i` blanks comes what the item cannot take: another character; no sign and digit. */
  ghost predicate Refuses(it: Item, s: CString, i: nat, k: nat) {
    && i <= k < |s| && Blanks(s[i..k]) && !IsSpace(s[k])
    && match it
       case Literal(c) => s[k] != c
       case Number(hex) =>
         if s[k] == '-' || s[k] == '+' then !IsDigitIn(s[k + 1], BaseOf(hex)) else !IsDigitIn(s[k], BaseOf(hex))
       case _ => false
  }

  /** The item stands in the format at f and takes its part of the input at i; both go on at (j, g). */
  ghost predicate Step(s: CString, i: nat, fmt: CString, f: nat, it: Item, t: Taken, j: nat, g: nat) {
    && WellFormed(it) && At(fmt, f, Written(it)) && Takes(it, t, s, i)
    && j == i + |Text(t)| && g == f + |Written(it)|
  }

  /** From (i, f) the scan stores `vs` and goes on at (j, g). */
  ghost predicate Leads(s: CString, i: nat, fmt: CString, f: nat, vs: seq<int>, j: nat, g: nat) {
    i < |s| && f < |fmt| && j < |s| && g < |fmt| && Scan(s, i, fmt, f) == vs + Scan(s, j, fmt, g)
  }

  /* ---- One item ---- */

  lemma SkipsBlanks(s: CString, i: nat, k: nat)
    requires i <= k < |s| && Blanks(s[i..k]) && !IsSpace(s[k])
    ensures SkipSpace(s, i) == k
  {
    forall j | i <= j < k
      ensures IsSpace(s[j])
    {
      assert s[j] == s[i..k][j - i];
    }
    SkipsTo(s, i, k);
  }

  lemma FirstAt(s: seq<char>, i: nat, t: seq<char>)
    requires At(s, i, t) && t != []
    ensures i < |s| && s[i] == t[0]
  {
    assert s[i] == s[i..i + |t|][0];
  }

  lemma BlanksAt(s: CString, i: nat, t: seq<char>, rest: seq<char>)
    requires At(s, i, t + rest) && rest != [] && Blanks(t) && !IsSpace(rest[0])
    ensures i + |t| < |s| && At(s, i + |t|, rest) && SkipSpace(s, i) == i + |t| && s[i + |t|] == rest[0]
  {
    AtParts(s, i, t, rest);
    FirstAt(s, i + |t|, rest);
    SkipsBlanks(s, i, i + |t|);
  }

  lemma LiteralTaken(s: CString, i: nat, fmt: CString, f: nat, c: char, blanks: seq<char>)
    requires WellFormed(Literal(c)) && At(fmt, f, [c]) && At(s, i, blanks + [c]) && Blanks(blanks)
    ensures var j := i + |blanks| + 1;
      j < |s| && f + 1 < |fmt| && Scan(s, i, fmt, f) == Scan(s, j, fmt, f + 1)
  {
    FirstAt(fmt, f, [c]);
    BlanksAt(s, i, blanks, [c]);
    FirstAt(s, i, blanks + [c]);
    LookGoes(s, i, fmt, f, i + |blanks| + 1, f + 1, []);
  }

  lemma LookGoes(s: CString, i: nat, fmt: CString, f: nat, j: nat, g: nat, vs: seq<int>)
    requires i < |s| && f < |fmt| && Look(s, i, fmt, f) == Go(j, g, vs)
    ensures j < |s| && f < g < |fmt| && Scan(s, i, fmt, f) == vs + Scan(s, j, fmt, g)
  {}

  lemma GapGoes(s: CString, i: nat, fmt: CString, f: nat)
    requires i < |s| && f < |fmt| && IsSpace(fmt[f])
    ensures f + 1 < |fmt| && Leads(s, i, fmt, f, [], i, f + 1)
  {
    if s[i] != '\0' {
      LookGoes(s, i, fmt, f, i, f + 1, []);
    }
  }

  lemma OtherGoes(s: CString, i: nat, fmt: CString, f: nat)
    requires i < |s| && f + 1 < |fmt| && fmt[f] == '%' && fmt[f + 1] != 'd' && fmt[f + 1] != 'x' && fmt[f + 1] != '\0'
    ensures f + 2 < |fmt| && Leads(s, i, fmt, f, [], i, f + 2)
  {
    if s[i] != '\0' {
      LookGoes(s, i, fmt, f, i, f + 2, []);
    }
  }

  /* ---- Numbers ---- */

  lemma DigitsRun(s: CString, p: nat, ds: seq<char>, b: nat)
    requires At(s, p, ds) && AllDigits(ds, b) && b <= 16 && p + |ds| < |s| && !IsDigitIn(s[p + |ds|], b)
    ensures RunEnd(s, p, b) == p + |ds|
  {
    forall j | p <= j < p + |ds|
      ensures IsDigitIn(s[j], b)
    {
      assert s[j] == s[p..p + |ds|][j - p];
    }
    RunsTo(s, p, p + |ds|, b);
  }

  /** Where the digits start once blanks and sign are read. */
  function AfterPrefix(s: CString, k: nat, b: nat): nat
    requires k < |s| && b <= 16
  {
    if b == 16 && s[k] == '0' && (s[k + 1] == 'x' || s[k + 1] == 'X') && IsDigitIn(s[k + 2], 16) then k + 2 else k
  }

  lemma StartIs(s: CString, i: nat, j: nat, b: nat)
    requires i < |s| && b <= 16 && j == SkipSpace(s, i)
    ensures DigitsStart(s, i, b) == AfterPrefix(s, if s[j] == '-' || s[j] == '+' then j + 1 else j, b)
  {}

  /** Prefix and digits at k. */
  lemma PrefixTaken(s: CString, k: nat, prefix: seq<char>, ds: seq<char>, hex: bool)
    requires At(s, k, prefix + ds) && ds != [] && AllDigits(ds, BaseOf(hex)) && k + |prefix| + |ds| < |s|
    requires !IsDigitIn(s[k + |prefix| + |ds|], BaseOf(hex)) && (prefix == "" || (hex && IsPrefix(prefix)))
    requires var e := k + |prefix| + |ds|;
      hex && prefix == "" ==> !(ds == "0" && (s[e] == 'x' || s[e] == 'X') && IsDigitIn(s[e + 1], 16))
    ensures k < |s| && AfterPrefix(s, k, BaseOf(hex)) == k + |prefix|
  {
    AtParts(s, k, prefix, ds);
    FirstAt(s, k + |prefix|, ds);
    if prefix != "" {
      var t := s[k..k + 2];
      assert t == prefix && s[k] == t[0] && s[k + 1] == t[1];
    } else if hex && |ds| > 1 {
      assert s[k + 1] == s[k..k + |ds|][1];
      assert IsDigitIn(ds[1], 16);
    }
  }

  lemma Places(s: CString, i: nat, t: Taken, k: nat, m: nat, p: nat)
    requires At(s, i, Text(t)) && k == i + |t.blanks| && m == k + |t.sign| && p == m + |t.prefix|
    ensures At(s, i, t.blanks) && At(s, k, t.sign) && At(s, m, t.prefix + t.body) && At(s, p, t.body)
  {
    AtParts(s, i, t.blanks, t.sign + (t.prefix + t.body));
    AtParts(s, k, t.sign, t.prefix + t.body);
    AtParts(s, m, t.prefix, t.body);
  }

  lemma SignRead(s: CString, i: nat, k: nat, m: nat, blanks: seq<char>, sign: seq<char>)
    requires At(s, i, blanks) && k == i + |blanks| && Blanks(blanks)
    requires At(s, k, sign) && m == k + |sign| && (sign == "" || sign == "-" || sign == "+")
    requires m < |s| && IsDigitIn(s[m], 16)
    ensures SkipSpace(s, i) == k && (s[k] == '-' <==> sign == "-")
    ensures m == if s[k] == '-' || s[k] == '+' then k + 1 else k
  {
    if sign != "" {
      FirstAt(s, k, sign);
    }
    SkipsBlanks(s, i, k);
  }

  lemma DigitFirst(s: CString, m: nat, prefix: seq<char>, body: seq<char>, hex: bool)
    requires At(s, m, prefix + body) && body != [] && AllDigits(body, BaseOf(hex)) && (prefix == "" || IsPrefix(prefix))
    ensures m < |s| && IsDigitIn(s[m], 16)
  {
    FirstAt(s, m, prefix + body);
    assert IsDigitIn(body[0], BaseOf(hex));
  }

  lemma LengthIs(t: Taken)
    ensures |Text(t)| == |t.blanks| + |t.sign| + |t.prefix| + |t.body|
  {}

  /** What Takes says of a number, position by position. */
  ghost predicate NumberAt(s: CString, hex: bool, t: Taken, i: nat, k: nat, m: nat, p: nat, e: nat) {
    && At(s, i, t.blanks) && At(s, k, t.sign) && At(s, m, t.prefix + t.body) && At(s, p, t.body)
    && k == i + |t.blanks| && m == k + |t.sign| && p == m + |t.prefix| && e == p + |t.body| < |s|
    && Blanks(t.blanks) && (t.sign == "" || t.sign == "-" || t.sign == "+")
    && t.body != [] && AllDigits(t.body, BaseOf(hex)) && !IsDigitIn(s[e], BaseOf(hex))
    && (t.prefix == "" || (hex && IsPrefix(t.prefix)))
  }

  lemma NumberParts(s: CString, i: nat, hex: bool, t: Taken, k: nat, m: nat, p: nat, e: nat)
    requires Takes(Number(hex), t, s, i)
    requires k == i + |t.blanks| && m == k + |t.sign| && p == m + |t.prefix| && e == p + |t.body|
    ensures NumberAt(s, hex, t, i, k, m, p, e)
  {
    LengthIs(t);
    Places(s, i, t, k, m, p);
  }

  lemma NumberSign(s: CString, hex: bool, t: Taken, i: nat, k: nat, m: nat, p: nat, e: nat)
    requires NumberAt(s, hex, t, i, k, m, p, e)
    ensures k < |s| && SkipSpace(s, i) == k && (s[k] == '-' <==> t.sign == "-")
    ensures m == if s[k] == '-' || s[k] == '+' then k + 1 else k
  {
    DigitFirst(s, m, t.prefix, t.body, hex);
    SignRead(s, i, k, m, t.blanks, t.sign);
  }

  lemma NumberDigits(s: CString, hex: bool, t: Taken, i: nat, k: nat, m: nat, p: nat, e: nat)
    requires NumberAt(s, hex, t, i, k, m, p, e)
    requires hex && t.prefix == "" ==> !(t.body == "0" && (s[e] == 'x' || s[e] == 'X') && IsDigitIn(s[e + 1], 16))
    ensures m < |s| && AfterPrefix(s, m, BaseOf(hex)) == p
    ensures RunEnd(s, p, BaseOf(hex)) == e && s[p..e] == t.body
  {
    PrefixTaken(s, m, t.prefix, t.body, hex);
    DigitsRun(s, p, t.body, BaseOf(hex));
  }

  /** Blanks, sign, prefix and digits, as strtol finds them. */
  lemma NumberRead(s: CString, i: nat, hex: bool, t: Taken, k: nat, m: nat, p: nat, e: nat)
    requires NumberAt(s, hex, t, i, k, m, p, e)
    requires hex && t.prefix == "" ==> !(t.body == "0" && (s[e] == 'x' || s[e] == 'X') && IsDigitIn(s[e + 1], 16))
    ensures SkipSpace(s, i) == k && (s[k] == '-' <==> t.sign == "-")
    ensures DigitsStart(s, i, BaseOf(hex)) == p && RunEnd(s, p, BaseOf(hex)) == e && s[p..e] == t.body
  {
    NumberSign(s, hex, t, i, k, m, p, e);
    NumberDigits(s, hex, t, i, k, m, p, e);
    StartIs(s, i, k, BaseOf(hex));
  }

  lemma StrtolIs(s: CString, i: nat, b: nat, p: nat, e: nat, ds: seq<char>, minus: bool)
    requires i < |s| && b <= 16 && DigitsStart(s, i, b) == p && RunEnd(s, p, b) == e && p < e && s[p..e] == ds
    requires s[SkipSpace(s, i)] == '-' <==> minus
    ensures var v: int := Value(ds, b);
      Strtol(s, i, b) == (Saturated(if minus then -v else v), e)
  {}

  lemma NumberValue(s: CString, i: nat, hex: bool, t: Taken, k: nat, m: nat, p: nat, e: nat)
    requires NumberAt(s, hex, t, i, k, m, p, e)
    requires hex && t.prefix == "" ==> !(t.body == "0" && (s[e] == 'x' || s[e] == 'X') && IsDigitIn(s[e + 1], 16))
    ensures i < e && [Strtol(s, i, BaseOf(hex)).0] == Yields(Number(hex), t) && Strtol(s, i, BaseOf(hex)).1 == e
  {
    NumberRead(s, i, hex, t, k, m, p, e);
    StrtolIs(s, i, BaseOf(hex), p, e, t.body, t.sign == "-");
  }

  lemma NumberIs(s: CString, i: nat, hex: bool, t: Taken, e: nat)
    requires Takes(Number(hex), t, s, i) && e == i + |Text(t)|
    ensures i < e && [Strtol(s, i, BaseOf(hex)).0] == Yields(Number(hex), t) && Strtol(s, i, BaseOf(hex)).1 == e
  {
    var k := i + |t.blanks|;
    var m := k + |t.sign|;
    var p := m + |t.prefix|;
    LengthIs(t);
    NumberParts(s, i, hex, t, k, m, p, e);
    NumberValue(s, i, hex, t, k, m, p, e);
  }

  lemma NumberLooks(s: CString, i: nat, fmt: CString, f: nat, hex: bool, v: int, e: nat)
    requires At(fmt, f, Written(Number(hex))) && i < e < |s| && Strtol(s, i, BaseOf(hex)) == (v, e)
    ensures f < |fmt| && Look(s, i, fmt, f) == Go(e, f + 2, [v])
  {
    assert fmt[f] == fmt[f..f + 2][0] && fmt[f + 1] == fmt[f..f + 2][1];
  }

  /* ---- What stops a scan ---- */

  lemma NoDigits(s: CString, i: nat, k: nat, hex: bool)
    requires Refuses(Number(hex), s, i, k)
    ensures Strtol(s, i, BaseOf(hex)).1 == i
  {
    SkipsBlanks(s, i, k);
    StartIs(s, i, k, BaseOf(hex));
  }

  /** What an item cannot take ends the scan with nothing more stored. */
  lemma RefusedStops(s: CString, i: nat, fmt: CString, f: nat, it: Item, k: nat)
    requires WellFormed(it) && At(fmt, f, Written(it)) && Refuses(it, s, i, k)
    ensures Scan(s, i, fmt, f) == []
  {
    FirstAt(fmt, f, Written(it));
    SkipsBlanks(s, i, k);
    if it.Number? {
      assert fmt[f + 1] == fmt[f..f + 2][1];
      NoDigits(s, i, k, it.hex);
    }
    assert !Look(s, i, fmt, f).Go?;
  }

  lemma NumberGoes(s: CString, i: nat, fmt: CString, f: nat, hex: bool, vs: seq<int>, j: nat, g: nat)
    requires At(fmt, f, if hex then "%x" else "%d") && i < j < |s| && g == f + 2
    requires vs == [Strtol(s, i, BaseOf(hex)).0] && Strtol(s, i, BaseOf(hex)).1 == j
    ensures f < |fmt| && g < |fmt| && Scan(s, i, fmt, f) == vs + Scan(s, j, fmt, g)
  {
    NumberLooks(s, i, fmt, f, hex, Strtol(s, i, BaseOf(hex)).0, j);
    LookGoes(s, i, fmt, f, j, g, vs);
  }

  lemma NumberItem(s: CString, i: nat, fmt: CString, f: nat, it: Item, t: Taken, j: nat, g: nat)
    requires it.Number? && Step(s, i, fmt, f, it, t, j, g)
    ensures Leads(s, i, fmt, f, Yields(it, t), j, g)
  {
    var vs, hex := Yields(it, t), it.hex;
    NumberIs(s, i, hex, t, j);
    NumberGoes(s, i, fmt, f, hex, vs, j, g);
  }

  lemma LeadsSame(s: CString, i: nat, fmt: CString, f: nat, j: nat, g: nat)
    requires i < |s| && f < |fmt| && j < |s| && g < |fmt| && Scan(s, i, fmt, f) == Scan(s, j, fmt, g)
    ensures Leads(s, i, fmt, f, [], j, g)
  {}

  lemma LiteralParts(s: CString, i: nat, fmt: CString, f: nat, it: Item, t: Taken, j: nat, g: nat)
    requires it.Literal? && Step(s, i, fmt, f, it, t, j, g)
    ensures At(s, i, t.blanks + [it.c]) && Blanks(t.blanks) && At(fmt, f, [it.c])
    ensures j == i + |t.blanks| + 1 && g == f + 1
  {
    assert Text(t) == t.blanks + [it.c];
  }

  lemma LiteralItem(s: CString, i: nat, fmt: CString, f: nat, it: Item, t: Taken, j: nat, g: nat)
    requires it.Literal? && Step(s, i, fmt, f, it, t, j, g)
    ensures Leads(s, i, fmt, f, [], j, g)
  {
    LiteralParts(s, i, fmt, f, it, t, j, g);
    LiteralTaken(s, i, fmt, f, it.c, t.blanks);
    LeadsSame(s, i, fmt, f, j, g);
  }

  lemma GapParts(s: CString, i: nat, fmt: CString, f: nat, it: Item, t: Taken, j: nat, g: nat)
    requires it.Gap? && Step(s, i, fmt, f, it, t, j, g)
    ensures i == j < |s| && f < |fmt| && g == f + 1 && IsSpace(fmt[f])
  {
    FirstAt(fmt, f, Written(it));
  }

  lemma OtherParts(s: CString, i: nat, fmt: CString, f: nat, it: Item, t: Taken, j: nat, g: nat)
    requires it.Other? && Step(s, i, fmt, f, it, t, j, g)
    ensures i == j < |s| && f + 1 < |fmt| && g == f + 2
    ensures fmt[f] == '%' && fmt[f + 1] != 'd' && fmt[f + 1] != 'x' && fmt[f + 1] != '\0'
  {
    FirstAt(fmt, f, Written(it));
    assert fmt[f + 1] == fmt[f..f + 2][1];
  }

  lemma OtherItem(s: CString, i: nat, fmt: CString, f: nat, it: Item, t: Taken, j: nat, g: nat)
    requires (it.Gap? || it.Other?) && Step(s, i, fmt, f, it, t, j, g)
    ensures Leads(s, i, fmt, f, [], j, g)
  {
    if it.Gap? {
      GapParts(s, i, fmt, f, it, t, j, g);
      GapGoes(s, i, fmt, f);
    } else {
      OtherParts(s, i, fmt, f, it, t, j, g);
      OtherGoes(s, i, fmt, f);
    }
  }

  /** One item: what it takes, what it stores, and where the scan goes on. */
  lemma ItemTaken(s: CString, i: nat, fmt: CString, f: nat, it: Item, t: Taken, j: nat, g: nat)
    requires Step(s, i, fmt, f, it, t, j, g)
    ensures Leads(s, i, fmt, f, Yields(it, t), j, g)
  {
    if it.Number? {
      NumberItem(s, i, fmt, f, it, t, j, g);
    } else if it.Literal? {
      LiteralItem(s, i, fmt, f, it, t, j, g);
    } else {
      OtherItem(s, i, fmt, f, it, t, j, g);
    }
  }

  /* ---- A whole format ---- */

  /** An item of the format, what it takes, and where both stand. */
  datatype Stage = Stage(it: Item, t: Taken, i: nat, f: nat)

  function InputAt(ss: seq<Stage>, k: nat, j: nat): nat { if k < |ss| then ss[k].i else j }

  function FormatAt(ss: seq<Stage>, k: nat, g: nat): nat { if k < |ss| then ss[k].f else g }

  ghost predicate StageOk(s: CString, fmt: CString, ss: seq<Stage>, k: nat, j: nat, g: nat)
    requires k < |ss|
  {
    Step(s, ss[k].i, fmt, ss[k].f, ss[k].it, ss[k].t, InputAt(ss, k + 1, j), FormatAt(ss, k + 1, g))
  }

  /** The items follow each other in the format, and what they take in the input, up to (j, g). */
  ghost predicate Chain(s: CString, fmt: CString, ss: seq<Stage>, j: nat, g: nat) {
    j < |s| && g < |fmt| && forall k | 0 <= k < |ss| :: StageOk(s, fmt, ss, k, j, g)
  }

  function YieldFrom(ss: seq<Stage>, k: nat): seq<int>
    requires k <= |ss|
    decreases |ss| - k
  {
    if k == |ss| then [] else Yields(ss[k].it, ss[k].t) + YieldFrom(ss, k + 1)
  }

  lemma StageTaken(s: CString, fmt: CString, ss: seq<Stage>, k: nat, j: nat, g: nat)
    requires Chain(s, fmt, ss, j, g) && k < |ss|
    ensures Leads(s, InputAt(ss, k, j), fmt, FormatAt(ss, k, g), Yields(ss[k].it, ss[k].t), InputAt(ss, k + 1, j),
                  FormatAt(ss, k + 1, g))
  {
    assert StageOk(s, fmt, ss, k, j, g);
    ItemTaken(s, ss[k].i, fmt, ss[k].f, ss[k].it, ss[k].t, InputAt(ss, k + 1, j), FormatAt(ss, k + 1, g));
  }

  lemma LeadsOn(s: CString, i: nat, j: nat, k: nat, fmt: CString, f: nat, g: nat, h: nat, y: seq<int>, more: seq<int>)
    requires Leads(s, i, fmt, f, y, j, g) && Leads(s, j, fmt, g, more, k, h)
    ensures Leads(s, i, fmt, f, y + more, k, h)
  {}

  lemma LeadsNowhere(s: CString, i: nat, fmt: CString, f: nat)
    requires i < |s| && f < |fmt|
    ensures Leads(s, i, fmt, f, [], i, f)
  {}

  lemma ChainStep(s: CString, fmt: CString, ss: seq<Stage>, k: nat, i: nat, f: nat, i1: nat, f1: nat, j: nat, g: nat)
    requires k < |ss| && Leads(s, i, fmt, f, Yields(ss[k].it, ss[k].t), i1, f1)
    requires Leads(s, i1, fmt, f1, YieldFrom(ss, k + 1), j, g)
    ensures Leads(s, i, fmt, f, YieldFrom(ss, k), j, g)
  {
    LeadsOn(s, i, i1, j, fmt, f, f1, g, Yields(ss[k].it, ss[k].t), YieldFrom(ss, k + 1));
  }

  /** The scan stores what each item yields, in order, and goes on behind them. */
  lemma {:induction false} ChainLeads(s: CString, fmt: CString, ss: seq<Stage>, k: nat, i: nat, f: nat, j: nat, g: nat)
    requires Chain(s, fmt, ss, j, g) && k <= |ss| && i == InputAt(ss, k, j) && f == FormatAt(ss, k, g)
    ensures Leads(s, i, fmt, f, YieldFrom(ss, k), j, g)
    decreases |ss| - k
  {
    if k == |ss| {
      LeadsNowhere(s, j, fmt, g);
    } else {
      var i1, f1 := InputAt(ss, k + 1, j), FormatAt(ss, k + 1, g);
      StageTaken(s, fmt, ss, k, j, g);
      ChainLeads(s, fmt, ss, k + 1, i1, f1, j, g);
      ChainStep(s, fmt, ss, k, i, f, i1, f1, j, g);
    }
  }

  /** What ends a scan: input that the next item refuses, or the end of either string. */
  ghost predicate Ends(s: CString, j: nat, fmt: CString, g: nat, it: Item, k: nat) {
    j < |s| && g < |fmt| &&
    ((WellFormed(it) && At(fmt, g, Written(it)) && Refuses(it, s, j, k)) || s[j] == '\0' || fmt[g] == '\0')
  }

  lemma EndsEmpty(s: CString, j: nat, fmt: CString, g: nat, it: Item, k: nat)
    requires Ends(s, j, fmt, g, it, k)
    ensures Scan(s, j, fmt, g) == []
  {
    if s[j] != '\0' && fmt[g] != '\0' {
      RefusedStops(s, j, fmt, g, it, k);
    }
  }

  /** A mismatch stops the scan with exactly the values before it. */
  lemma MismatchStops(s: CString, fmt: CString, ss: seq<Stage>, j: nat, g: nat, it: Item, k: nat)
    requires Chain(s, fmt, ss, j, g) && InputAt(ss, 0, j) == FormatAt(ss, 0, g) == 0 && Ends(s, j, fmt, g, it, k)
    ensures Scan(s, 0, fmt, 0) == YieldFrom(ss, 0)
  {
    ChainLeads(s, fmt, ss, 0, 0, 0, j, g);
    EndsEmpty(s, j, fmt, g, it, k);
  }
}
