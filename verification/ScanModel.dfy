/** rt_sscanf of radio/Radio_Decoder_Utils.c: the values a format reads from a string. strtol follows
    section 7.22.1.4 of ISO/IEC 9899:2011 with 32-bit longs. */
module ScanModel {
  import opened FormatModel

  predicate IsSpace(c: char) { c == ' ' || '\t' <= c <= '\r' }

  function SkipSpace(s: CString, i: nat): (k: nat)
    requires i < |s|
    ensures i <= k < |s| && !IsSpace(s[k])
    decreases |s| - i
  {
    if IsSpace(s[i]) then SkipSpace(s, i + 1) else i
  }

  /** The value of a digit, 99 for any other character. */
  function DigitValue(c: char): nat {
    if '0' <= c <= '9' then c as int - '0' as int
    else if 'a' <= c <= 'f' then c as int - 'a' as int + 10
    else if 'A' <= c <= 'F' then c as int - 'A' as int + 10
    else 99
  }

  predicate IsDigitIn(c: char, b: nat) { DigitValue(c) < b }

  /** The end of the digits that start at i. */
  function RunEnd(s: CString, i: nat, b: nat): (k: nat)
    requires i < |s| && b <= 16
    ensures i <= k < |s| && !IsDigitIn(s[k], b)
    decreases |s| - i
  {
    if IsDigitIn(s[i], b) then RunEnd(s, i + 1, b) else i
  }

  /** The number that digits denote in base 8, 10 or 16. */
  function Value(ds: seq<char>, b: nat): nat {
    if ds == [] then 0 else Shift(Value(ds[..|ds| - 1], b), b) + DigitValue(ds[|ds| - 1])
  }

  function Shift(v: nat, b: nat): nat { if b == 10 then 10 * v else if b == 8 then 8 * v else 16 * v }

  function Clamp(v: int): int {
    if v < -0x8000_0000 then -0x8000_0000 else if v > 0x7FFF_FFFF then 0x7FFF_FFFF else v
  }

  /** Where the digits of a number at i start: after blanks, a sign and, in base 16, "0x" before a digit. */
  function DigitsStart(s: CString, i: nat, b: nat): (k: nat)
    requires i < |s| && b <= 16
    ensures i <= k < |s|
  {
    var j := SkipSpace(s, i);
    var k := if s[j] == '-' || s[j] == '+' then j + 1 else j;
    if b == 16 && s[k] == '0' && (s[k + 1] == 'x' || s[k + 1] == 'X') && IsDigitIn(s[k + 2], 16) then k + 2 else k
  }

  /** strtol: the value and the end pointer, which is i when nothing could be read. */
  function Strtol(s: CString, i: nat, b: nat): (r: (int, nat))
    requires i < |s| && b <= 16
    ensures i <= r.1 < |s|
  {
    var p := DigitsStart(s, i, b);
    var e := RunEnd(s, p, b);
    if e == p then (0, i)
    else
      var v: int := Value(s[p..e], b);
      (Clamp(if s[SkipSpace(s, i)] == '-' then -v else v), e)
  }

  predicate Reads(c: char) { c == 'd' || c == 'x' }

  /** One round of the scan: stop, read past the terminator of the format, or go on at (i, f) with `vs`
      stored. */
  datatype Turn = Stop | Overrun | Go(i: nat, f: nat, vs: seq<int>)

  function Look(s: CString, i: nat, fmt: CString, f: nat): (t: Turn)
    requires i < |s| && f < |fmt|
    ensures t.Go? ==> t.i < |s| && f < t.f < |fmt| && |t.vs| <= 1
  {
    if s[i] == '\0' || fmt[f] == '\0' then Stop
    else if IsSpace(fmt[f]) then Go(i, f + 1, [])
    else if fmt[f] != '%' then
      var j := SkipSpace(s, i);
      if s[j] == '\0' || s[j] != fmt[f] then Stop else Go(j + 1, f + 1, [])
    else if fmt[f + 1] == '\0' then Overrun
    else if Reads(fmt[f + 1]) then
      var (v, e) := Strtol(s, i, if fmt[f + 1] == 'd' then 10 else 16);
      if e == i then Stop else Go(e, f + 2, [v])
    else Go(i, f + 2, [])
  }

  /** The values stored from s[i..] under fmt[f..]. */
  function Scan(s: CString, i: nat, fmt: CString, f: nat): (vs: seq<int>)
    requires i < |s| && f < |fmt|
    decreases |fmt| - f
  {
    var t := Look(s, i, fmt, f);
    if t.Go? then t.vs + Scan(s, t.i, fmt, t.f) else []
  }

  /** The scan reaches a lone '%' at the end of the format with input left, and steps over the
      terminator. */
  predicate Overruns(s: CString, i: nat, fmt: CString, f: nat)
    requires i < |s| && f < |fmt|
    decreases |fmt| - f
  {
    var t := Look(s, i, fmt, f);
    t.Overrun? || (t.Go? && Overruns(s, t.i, fmt, t.f))
  }

  /** No '%' is left alone at the end of the format. */
  predicate Closed(fmt: CString, f: nat)
    requires f < |fmt|
    decreases |fmt| - f
  {
    if fmt[f] == '\0' then true
    else if fmt[f] != '%' then Closed(fmt, f + 1)
    else fmt[f + 1] != '\0' && Closed(fmt, f + 2)
  }

  /** How many values a format asks for. */
  function Wanted(fmt: CString, f: nat): nat
    requires f < |fmt|
    decreases |fmt| - f
  {
    if fmt[f] == '\0' then 0
    else if fmt[f] != '%' then Wanted(fmt, f + 1)
    else if fmt[f + 1] == '\0' then 0
    else (if Reads(fmt[f + 1]) then 1 else 0) + Wanted(fmt, f + 2)
  }

  lemma LookWants(s: CString, i: nat, fmt: CString, f: nat)
    requires i < |s| && f < |fmt| && Look(s, i, fmt, f).Go?
    ensures var t := Look(s, i, fmt, f); Wanted(fmt, f) == |t.vs| + Wanted(fmt, t.f)
  {}

  lemma {:induction false} ScanCount(s: CString, i: nat, fmt: CString, f: nat)
    requires i < |s| && f < |fmt|
    ensures |Scan(s, i, fmt, f)| <= Wanted(fmt, f)
    decreases |fmt| - f
  {
    var t := Look(s, i, fmt, f);
    if t.Go? {
      LookWants(s, i, fmt, f);
      ScanCount(s, t.i, fmt, t.f);
    }
  }

  /* ---- The documented result ---- */

  const EOF: int := -1

  /** An input failure before any data was read: the scan stops at the end of the input, blanks aside, with a
      directive left in the format and nothing stored. */
  predicate InputFails(s: CString, i: nat, fmt: CString, f: nat)
    requires i < |s| && f < |fmt|
    decreases |fmt| - f
  {
    var t := Look(s, i, fmt, f);
    if t.Go? then t.vs == [] && InputFails(s, t.i, fmt, t.f)
    else t.Stop? && s[SkipSpace(s, i)] == '\0' && fmt[SkipSpace(fmt, f)] != '\0'
  }

  /** What the comment on rt_sscanf promises to return. */
  function Documented(s: CString, fmt: CString): int {
    if InputFails(s, 0, fmt, 0) then EOF else |Scan(s, 0, fmt, 0)|
  }

  lemma {:induction false} FailureStoresNothing(s: CString, i: nat, fmt: CString, f: nat)
    requires i < |s| && f < |fmt| && InputFails(s, i, fmt, f)
    ensures Scan(s, i, fmt, f) == []
    decreases |fmt| - f
  {
    var t := Look(s, i, fmt, f);
    if t.Go? {
      FailureStoresNothing(s, t.i, fmt, t.f);
    }
  }

  /** rt_sscanf returns what its comment promises exactly if there is no input failure; then it returns 0
      instead of EOF. */
  lemma ResultExact(s: CString, fmt: CString)
    ensures |Scan(s, 0, fmt, 0)| == Documented(s, fmt) <==> !InputFails(s, 0, fmt, 0)
    ensures InputFails(s, 0, fmt, 0) ==> |Scan(s, 0, fmt, 0)| == 0
  {
    if InputFails(s, 0, fmt, 0) {
      FailureStoresNothing(s, 0, fmt, 0);
    }
  }

  /** The empty input fails under every format that asks for something. */
  lemma EmptyInputFails(s: CString, fmt: CString)
    requires s == ['\0'] && fmt[SkipSpace(fmt, 0)] != '\0'
    ensures InputFails(s, 0, fmt, 0) && Documented(s, fmt) == EOF && Scan(s, 0, fmt, 0) == []
  {}

  /* ---- Which formats are safe for every input ---- */

  lemma {:induction false} ClosedNeverOverruns(s: CString, i: nat, fmt: CString, f: nat)
    requires i < |s| && f < |fmt| && Closed(fmt, f)
    ensures !Overruns(s, i, fmt, f)
    decreases |fmt| - f
  {
    var t := Look(s, i, fmt, f);
    if t.Go? {
      ClosedNeverOverruns(s, t.i, fmt, t.f);
    }
  }

  /** Input that carries the scan through a format: its literals, and "1 " for every number. */
  function Fodder(fmt: CString, f: nat): (t: seq<char>)
    requires f < |fmt|
    ensures forall k | 0 <= k < |t| :: t[k] != '\0'
    decreases |fmt| - f
  {
    if fmt[f] == '\0' then "."
    else if IsSpace(fmt[f]) then Fodder(fmt, f + 1)
    else if fmt[f] != '%' then [fmt[f]] + Fodder(fmt, f + 1)
    else if fmt[f + 1] == '\0' then "."
    else (if Reads(fmt[f + 1]) then "1 " else "") + Fodder(fmt, f + 2)
  }

  lemma FodderStarts(fmt: CString, f: nat)
    requires f < |fmt|
    ensures Fodder(fmt, f) != [] && !IsSpace(Fodder(fmt, f)[0])
    decreases |fmt| - f
  {
    if fmt[f] == '\0' {
    } else if fmt[f] != '%' {
      FodderStarts(fmt, f + 1);
    } else if fmt[f + 1] != '\0' {
      FodderStarts(fmt, f + 2);
    }
  }

  /** From k on, `s` holds the fodder of fmt[f..]; k is i or follows one blank at i. */
  ghost predicate Fed(s: CString, i: nat, k: nat, t: seq<char>) {
    && i <= k <= i + 1 && (i < k ==> i < |s| && s[i] == ' ')
    && k + |t| < |s| && s[k..k + |t|] == t && t != [] && !IsSpace(t[0])
  }

  lemma FedSkips(s: CString, i: nat, k: nat, t: seq<char>)
    requires Fed(s, i, k, t)
    ensures k < |s| && s[k] == t[0] && s[i] != '\0' && SkipSpace(s, i) == k
  {
    assert s[k] == s[k..k + |t|][0];
  }

  lemma FedRest(s: CString, i: nat, k: nat, a: seq<char>, t: seq<char>)
    requires Fed(s, i, k, a + t) && t != [] && !IsSpace(t[0])
    ensures Fed(s, k + |a|, k + |a|, t)
  {
    assert s[k + |a|..k + |a| + |t|] == s[k..k + |a + t|][|a|..];
  }

  /** "1 " is read as one number, up to the blank. */
  lemma FedNumber(s: CString, i: nat, k: nat, t: seq<char>, b: nat)
    requires Fed(s, i, k, "1 " + t) && (b == 10 || b == 16) && t != [] && !IsSpace(t[0])
    ensures Strtol(s, i, b).1 == k + 1 && Fed(s, k + 1, k + 2, t)
  {
    FedSkips(s, i, k, "1 " + t);
    FedRest(s, i, k, "1 ", t);
    assert s[k + 1] == s[k..k + |"1 " + t|][1];
    assert RunEnd(s, k + 1, b) == k + 1;
  }

  lemma LookLiteral(s: CString, i: nat, k: nat, fmt: CString, f: nat)
    requires f < |fmt| && fmt[f] != '\0' && !IsSpace(fmt[f]) && fmt[f] != '%' && Fed(s, i, k, Fodder(fmt, f))
    ensures i < |s| && Look(s, i, fmt, f) == Go(k + 1, f + 1, []) && Fed(s, k + 1, k + 1, Fodder(fmt, f + 1))
  {
    FedSkips(s, i, k, Fodder(fmt, f));
    FodderStarts(fmt, f + 1);
    FedRest(s, i, k, [fmt[f]], Fodder(fmt, f + 1));
  }

  lemma LookNumber(s: CString, i: nat, k: nat, fmt: CString, f: nat)
    requires f + 1 < |fmt| && fmt[f] == '%' && Reads(fmt[f + 1]) && Fed(s, i, k, Fodder(fmt, f))
    ensures i < |s| && Fed(s, k + 1, k + 2, Fodder(fmt, f + 2))
    ensures var t := Look(s, i, fmt, f); t.Go? && t.i == k + 1 && t.f == f + 2
  {
    FedSkips(s, i, k, Fodder(fmt, f));
    FodderStarts(fmt, f + 2);
    FedNumber(s, i, k, Fodder(fmt, f + 2), if fmt[f + 1] == 'd' then 10 else 16);
  }

  lemma LookOther(s: CString, i: nat, k: nat, fmt: CString, f: nat, g: nat)
    requires f < |fmt| && fmt[f] != '\0' && Fed(s, i, k, Fodder(fmt, f))
    requires if IsSpace(fmt[f]) then g == f + 1
      else fmt[f] == '%' && fmt[f + 1] != '\0' && !Reads(fmt[f + 1]) && g == f + 2
    ensures i < |s| && Look(s, i, fmt, f) == Go(i, g, []) && Fed(s, i, k, Fodder(fmt, g))
  {
    FedSkips(s, i, k, Fodder(fmt, f));
    if !IsSpace(fmt[f]) {
      assert "" + Fodder(fmt, f + 2) == Fodder(fmt, f + 2);
    }
  }

  lemma LookLone(s: CString, i: nat, k: nat, fmt: CString, f: nat)
    requires f + 1 < |fmt| && fmt[f] == '%' && fmt[f + 1] == '\0' && Fed(s, i, k, Fodder(fmt, f))
    ensures i < |s| && Overruns(s, i, fmt, f)
  {
    FedSkips(s, i, k, Fodder(fmt, f));
  }

  lemma OverrunsVia(s: CString, i: nat, fmt: CString, f: nat, j: nat, g: nat)
    requires i < |s| && f < |fmt| && j < |s| && g < |fmt| && Overruns(s, j, fmt, g)
    requires var t := Look(s, i, fmt, f); t.Go? && t.i == j && t.f == g
    ensures Overruns(s, i, fmt, f)
  {}

  /** The scan follows its fodder to the lone '%'. */
  lemma {:induction false} FodderOverruns(s: CString, i: nat, k: nat, fmt: CString, f: nat)
    requires f < |fmt| && !Closed(fmt, f) && Fed(s, i, k, Fodder(fmt, f))
    ensures i < |s| && Overruns(s, i, fmt, f)
    decreases |fmt| - f
  {
    if fmt[f] != '%' {
      if IsSpace(fmt[f]) {
        LookOther(s, i, k, fmt, f, f + 1);
        FodderOverruns(s, i, k, fmt, f + 1);
        OverrunsVia(s, i, fmt, f, i, f + 1);
      } else {
        LookLiteral(s, i, k, fmt, f);
        FodderOverruns(s, k + 1, k + 1, fmt, f + 1);
        OverrunsVia(s, i, fmt, f, k + 1, f + 1);
      }
    } else if fmt[f + 1] == '\0' {
      LookLone(s, i, k, fmt, f);
    } else if Reads(fmt[f + 1]) {
      LookNumber(s, i, k, fmt, f);
      FodderOverruns(s, k + 1, k + 2, fmt, f + 2);
      OverrunsVia(s, i, fmt, f, k + 1, f + 2);
    } else {
      LookOther(s, i, k, fmt, f, f + 2);
      FodderOverruns(s, i, k, fmt, f + 2);
      OverrunsVia(s, i, fmt, f, i, f + 2);
    }
  }

  predicate SafeFor(s: CString, fmt: CString) { !Overruns(s, 0, fmt, 0) }

  /** A format is safe for every input exactly when no '%' is left alone at its end. */
  lemma ClosedExact(fmt: CString)
    ensures Closed(fmt, 0) <==> forall s: CString :: SafeFor(s, fmt)
  {
    if Closed(fmt, 0) {
      forall s: CString
        ensures SafeFor(s, fmt)
      {
        ClosedNeverOverruns(s, 0, fmt, 0);
      }
    } else {
      var s: CString := Fodder(fmt, 0) + ['\0'];
      FodderStarts(fmt, 0);
      assert s[0..|Fodder(fmt, 0)|] == Fodder(fmt, 0);
      FodderOverruns(s, 0, 0, fmt, 0);
      assert !SafeFor(s, fmt);
    }
  }
}

/** rt_sscanf as it runs: two cursors, results stored through the argument pointers. */
module Scanner {
  import opened FormatModel
  import opened ScanModel

  method SkipBlanks(s: CString, i: nat) returns (k: nat)
    requires i < |s|
    ensures k == SkipSpace(s, i)
  {
    k := i;
    while IsSpace(s[k])
      invariant k < |s| && SkipSpace(s, k) == SkipSpace(s, i)
      decreases |s| - k
    {
      k := k + 1;
    }
  }

  /** One round of the loop. */
  method Round(s: CString, rp: nat, fmt: CString, fp: nat) returns (t: Turn)
    requires rp < |s| && fp < |fmt| && s[rp] != '\0' && fmt[fp] != '\0'
    ensures t == Look(s, rp, fmt, fp)
    ensures t.Go? ==> t.i < |s| && fp < t.f < |fmt| && |t.vs| <= 1
    ensures t.Go? ==> Scan(s, rp, fmt, fp) == t.vs + Scan(s, t.i, fmt, t.f)
    ensures t.Go? ==> Overruns(s, rp, fmt, fp) == Overruns(s, t.i, fmt, t.f)
    ensures t.Stop? ==> Scan(s, rp, fmt, fp) == []
  {
    var fc := fmt[fp];
    if IsSpace(fc) {
      return Go(rp, fp + 1, []);
    }
    if fc != '%' {
      var i := SkipBlanks(s, rp);
      if s[i] == '\0' || fc != s[i] {
        return Stop;
      }
      return Go(i + 1, fp + 1, []);
    }
    fc := fmt[fp + 1];
    if fc == '\0' {
      return Overrun;
    }
    if fc == 'd' || fc == 'x' {
      var (v, ep) := Strtol(s, rp, if fc == 'd' then 10 else 16);
      if rp == ep {
        return Stop;
      }
      return Go(ep, fp + 2, [v]);
    }
    return Go(rp, fp + 2, []);
  }

  /** `ret` values are stored, the rest of `all` is what the scan from (rp, fp) on will store. */
  ghost predicate Underway(s: CString, rp: nat, fmt: CString, fp: nat, ret: nat, all: seq<int>) {
    && rp < |s| && fp < |fmt| && !Overruns(s, rp, fmt, fp)
    && ret <= |all| && all[ret..] == Scan(s, rp, fmt, fp)
  }

  ghost predicate Filled(now: seq<int>, was: seq<int>, ret: nat, all: seq<int>) {
    |now| == |was| && ret <= |all| && forall k | 0 <= k < |now| :: now[k] == if k < ret then all[k] else was[k]
  }

  lemma ScanEnds(s: CString, rp: nat, fmt: CString, fp: nat, ret: nat, all: seq<int>)
    requires Underway(s, rp, fmt, fp, ret, all) && (s[rp] == '\0' || fmt[fp] == '\0')
    ensures ret == |all|
  {}

  /** The loop body. */
  method Advance(s: CString, rp: nat, fmt: CString, fp: nat, dst: array<int>, ret: nat, ghost all: seq<int>,
                 ghost was: seq<int>) returns (stop: bool, i: nat, f: nat, n: nat)
    requires Underway(s, rp, fmt, fp, ret, all) && s[rp] != '\0' && fmt[fp] != '\0'
    requires Filled(dst[..], was, ret, all) && |all| <= dst.Length
    modifies dst
    ensures Filled(dst[..], was, n, all)
    ensures stop ==> n == |all|
    ensures !stop ==> Underway(s, i, fmt, f, n, all) && fp < f
  {
    var t := Round(s, rp, fmt, fp);
    stop, i, f, n := !t.Go?, rp, fp, ret;
    if t.Go? {
      assert all[ret..] == t.vs + Scan(s, t.i, fmt, t.f);
      n := Keep(dst, ret, t.vs);
      i, f := t.i, t.f;
    }
  }

  /** rt_sscanf: `dst[k]` is what the k-th pointer argument points to; those not reached keep their
      values. No character past either terminator is read, exactly because the scan does not overrun. */
  method Sscanf(s: CString, fmt: CString, dst: array<int>) returns (ret: nat)
    requires !Overruns(s, 0, fmt, 0) && |Scan(s, 0, fmt, 0)| <= dst.Length
    modifies dst
    ensures ret == |Scan(s, 0, fmt, 0)|
    ensures dst[..] == Scan(s, 0, fmt, 0) + old(dst[..])[ret..]
  {
    var rp: nat, fp: nat := 0, 0;
    ret := 0;
    ghost var all, was := Scan(s, 0, fmt, 0), dst[..];
    while s[rp] != '\0' && fmt[fp] != '\0'
      invariant Underway(s, rp, fmt, fp, ret, all) && Filled(dst[..], was, ret, all)
      decreases |fmt| - fp
    {
      var stop, i, f, n := Advance(s, rp, fmt, fp, dst, ret, all, was);
      ret := n;
      if stop {
        Finished(dst[..], was, ret, all);
        return;
      }
      rp, fp := i, f;
    }
    ScanEnds(s, rp, fmt, fp, ret, all);
    Finished(dst[..], was, ret, all);
  }

  lemma Finished(now: seq<int>, was: seq<int>, ret: nat, all: seq<int>)
    requires Filled(now, was, ret, all) && ret == |all| <= |now|
    ensures now == all + was[ret..]
  {}

  /** *ip = v; ret++; */
  method Keep(dst: array<int>, k: nat, vs: seq<int>) returns (ret: nat)
    requires |vs| <= 1 && k + |vs| <= dst.Length
    modifies dst
    ensures ret == k + |vs|
    ensures forall j | 0 <= j < dst.Length :: dst[j] == if k <= j < ret then vs[j - k] else old(dst[j])
  {
    ret := k;
    if vs != [] {
      dst[k] := vs[0];
      ret := k + 1;
    }
  }
}
