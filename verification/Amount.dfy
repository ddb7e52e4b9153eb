// Amounts of CCD as text (concordium-contracts-common/src/types.rs): a decimal
// number of at most six decimals, held as a 64-bit number of micro CCD.
module Amounts {
  import opened Wrappers
  import opened ByteCodecs

  datatype AmountParseError =
    Overflow | ExpectedDot | ExpectedDigit | ExpectedMore | ExpectedDigitOrDot | AtMostSixDecimals

  // ----- decimal numbers -----

  predicate IsDigit(c: char) { '0' <= c <= '9' }

  // `to_digit(10)`.
  function DigitOf(c: char): (d: Option<nat>)
    ensures d.Some? <==> IsDigit(c)
    ensures d.Some? ==> d.value < 10
  {
    if IsDigit(c) then Some((c - '0') as nat) else None
  }

  function CharOf(d: nat): (c: char)
    requires d < 10
    ensures DigitOf(c) == Some(d)
  {
    '0' + (d as char)
  }

  predicate AreDigits(s: string) {
    forall i :: 0 <= i < |s| ==> IsDigit(s[i])
  }

  function Pow10(k: nat): (p: nat)
    ensures p > 0
  {
    if k == 0 then 1 else 10 * Pow10(k - 1)
  }

  // The number that a string of digits denotes.
  function Number(s: string): nat
    requires AreDigits(s)
  {
    if s == "" then 0 else 10 * Number(s[..|s| - 1]) + DigitOf(s[|s| - 1]).value
  }

  // No leading zeros.
  predicate IsIntegral(n: string) {
    AreDigits(n) && n != "" && (n == "0" || n[0] != '0')
  }

  function Text(n: string, m: string): string {
    if m == "" then n else n + "." + m
  }

  ghost predicate IsReading(v: string, a: nat, n: string, m: string) {
    && v == Text(n, m) && IsIntegral(n) && AreDigits(m) && |m| <= 6
    && AreDigits(n + m) && a == Number(n + m) * Pow10(6 - |m|)
  }

  // The text is n or n.m with at most six decimals, and stands for exactly
  // this number of micro CCD.
  ghost predicate Denotes(v: string, a: nat) {
    exists n, m :: IsReading(v, a, n, m)
  }

  // ----- the parser -----

  datatype Progress = Progress(state: nat, microCcd: nat, afterDot: nat)

  const START := Progress(0, 0, 0)

  // Multiplies by ten and adds a digit, within 64 bits.
  function PushDigit(microCcd: nat, d: nat): Result<nat, AmountParseError> {
    if microCcd * 10 >= U64_RANGE then Err(Overflow)
    else if microCcd * 10 + d >= U64_RANGE then Err(Overflow)
    else Ok(microCcd * 10 + d)
  }

  function Step(p: Progress, c: char): Result<Progress, AmountParseError>
    requires p.state <= 3
  {
    var digit := DigitOf(c);
    if p.state == 0 then
      if digit.None? then Err(ExpectedDigit)
      else if digit.value == 0 then Ok(p.(state := 1))
      else Ok(p.(state := 2, microCcd := digit.value))
    else if p.state == 1 then
      if c != '.' then Err(ExpectedDot) else Ok(p.(state := 3))
    else if p.state == 2 then
      if digit.Some? then
        var microCcd :- PushDigit(p.microCcd, digit.value);
        Ok(p.(microCcd := microCcd))
      else if c == '.' then Ok(p.(state := 3))
      else Err(ExpectedDigitOrDot)
    else
      if p.afterDot >= 6 then Err(AtMostSixDecimals)
      else if digit.None? then Err(ExpectedDigit)
      else
        var microCcd :- PushDigit(p.microCcd, digit.value);
        Ok(p.(microCcd := microCcd, afterDot := p.afterDot + 1))
  }

  lemma StepState(p: Progress, c: char)
    requires p.state <= 3 && p.afterDot <= 6 && Step(p, c).Ok?
    ensures Step(p, c).value.state <= 3 && Step(p, c).value.afterDot <= 6
  {
  }

  function Scan(p: Progress, v: string): (r: Result<Progress, AmountParseError>)
    requires p.state <= 3 && p.afterDot <= 6
    ensures r.Ok? ==> r.value.state <= 3 && r.value.afterDot <= 6
    decreases |v|
  {
    if v == "" then Ok(p)
    else
      var next :- Step(p, v[0]);
      StepState(p, v[0]);
      Scan(next, v[1..])
  }

  // The final multiplications.
  function Scale(microCcd: nat, k: nat): Result<nat, AmountParseError>
    decreases k
  {
    if k == 0 then Ok(microCcd)
    else if microCcd * 10 >= U64_RANGE then Err(Overflow)
    else Scale(microCcd * 10, k - 1)
  }

  function Finish(p: Progress): Result<nat, AmountParseError>
    requires p.afterDot <= 6
  {
    if p.state == 0 || (p.state >= 3 && p.afterDot == 0) then Err(ExpectedMore)
    else Scale(p.microCcd, 6 - p.afterDot)
  }

  function Parse(v: string): Result<nat, AmountParseError> {
    var p :- Scan(START, v);
    Finish(p)
  }

  // `from_str`.
  method FromStr(v: string) returns (r: Result<nat, AmountParseError>)
    ensures r == Parse(v)
  {
    var microCcd: nat, afterDot: nat, state: nat := 0, 0, 0;
    assert v[0..] == v;
    hide Scan;
    for i := 0 to |v|
      invariant state <= 3 && afterDot <= 6
      invariant Scan(START, v) == Scan(Progress(state, microCcd, afterDot), v[i..])
    {
      var c := v[i];
      ScanUnfold(Progress(state, microCcd, afterDot), v[i..]);
      assert v[i..][1..] == v[i + 1..];
      var digit := DigitOf(c);
      if state == 0 {
        if digit.None? { return Err(ExpectedDigit); }
        if digit.value == 0 {
          state := 1;
        } else {
          microCcd := digit.value;
          state := 2;
        }
      } else if state == 1 {
        if c != '.' { return Err(ExpectedDot); }
        state := 3;
      } else if state == 2 {
        if digit.Some? {
          if microCcd * 10 >= U64_RANGE { return Err(Overflow); }
          microCcd := microCcd * 10;
          if microCcd + digit.value >= U64_RANGE { return Err(Overflow); }
          microCcd := microCcd + digit.value;
        } else if c == '.' {
          state := 3;
        } else {
          return Err(ExpectedDigitOrDot);
        }
      } else {
        if afterDot >= 6 { return Err(AtMostSixDecimals); }
        if digit.None? { return Err(ExpectedDigit); }
        if microCcd * 10 >= U64_RANGE { return Err(Overflow); }
        microCcd := microCcd * 10;
        if microCcd + digit.value >= U64_RANGE { return Err(Overflow); }
        microCcd := microCcd + digit.value;
        afterDot := afterDot + 1;
      }
    }
    assert v[|v|..] == "";
    ScanNothing(Progress(state, microCcd, afterDot));
    if state == 0 || (state >= 3 && afterDot == 0) {
      return Err(ExpectedMore);
    }
    var missing := 6 - afterDot;
    ghost var total := Scale(microCcd, missing);
    for j := 0 to missing
      invariant total == Scale(microCcd, missing - j)
    {
      if microCcd * 10 >= U64_RANGE { return Err(Overflow); }
      microCcd := microCcd * 10;
    }
    return Ok(microCcd);
  }

  lemma ScanUnfold(p: Progress, v: string)
    requires p.state <= 3 && p.afterDot <= 6 && v != ""
    ensures Step(p, v[0]).Ok? ==> Step(p, v[0]).value.state <= 3 && Step(p, v[0]).value.afterDot <= 6
    ensures Scan(p, v) == match Step(p, v[0]) case Err(e) => Err(e) case Ok(next) => Scan(next, v[1..])
  {
    if Step(p, v[0]).Ok? {
      StepState(p, v[0]);
    }
  }

  // ----- arithmetic of digits -----

  lemma NumberPush(s: string, c: char)
    requires AreDigits(s) && IsDigit(c)
    ensures AreDigits(s + [c]) && Number(s + [c]) == 10 * Number(s) + DigitOf(c).value
  {
    assert (s + [c])[..|s|] == s;
  }

  lemma NumberOfNothing()
    ensures Number("") == 0 && Pow10(0) == 1
  {
  }

  lemma {:induction false} NumberConcat(s: string, t: string)
    requires AreDigits(s) && AreDigits(t)
    ensures AreDigits(s + t) && Number(s + t) == Number(s) * Pow10(|t|) + Number(t)
  {
    hide Number, Pow10, DigitOf;
    if t == "" {
      assert s + t == s;
      NumberOfNothing();
    } else {
      var n := |t| - 1;
      NumberConcat(s, t[..n]);
      assert s + t == (s + t[..n]) + [t[n]];
      NumberPush(s + t[..n], t[n]);
      assert t == t[..n] + [t[n]];
      NumberPush(t[..n], t[n]);
      MorePlaces(Number(s), n);
    }
  }

  lemma MorePlaces(x: nat, k: nat)
    ensures x * Pow10(k + 1) == 10 * (x * Pow10(k))
  {
    assert x * (10 * Pow10(k)) == 10 * (x * Pow10(k));
  }

  lemma {:induction false} ScaleIsExact(microCcd: nat, k: nat)
    ensures microCcd < U64_RANGE ==>
        Scale(microCcd, k) == if microCcd * Pow10(k) < U64_RANGE then Ok(microCcd * Pow10(k)) else Err(Overflow)
    decreases k
  {
    if k > 0 {
      ScaleIsExact(microCcd * 10, k - 1);
      assert microCcd * Pow10(k) == (microCcd * 10) * Pow10(k - 1);
      AtLeast(microCcd * 10, Pow10(k - 1));
    }
  }

  lemma AtLeast(a: nat, p: nat)
    requires p > 0
    ensures a * p >= a
  {
  }

  // ----- what the states mean -----

  // The parser has read n, and m after the dot if it has seen one.
  ghost predicate HasRead(u: string, p: Progress, n: string, m: string) {
    && p.microCcd < U64_RANGE
    && match p.state
       case 0 => u == "" && n == "" && m == "" && p == START
       case 1 => u == "0" && n == u && m == "" && p.microCcd == 0 && p.afterDot == 0
       case 2 => u == n && m == "" && IsIntegral(n) && n != "0" && p.microCcd == Number(n) && p.afterDot == 0
       case 3 => u == n + "." + m && IsIntegral(n) && AreDigits(m) && AreDigits(n + m)
                 && p.microCcd == Number(n + m) && p.afterDot == |m| <= 6
       case _ => false
  }

  lemma StepReads(u: string, p: Progress, n: string, m: string, c: char) returns (n': string, m': string)
    requires HasRead(u, p, n, m) && p.state <= 3 && Step(p, c).Ok?
    ensures HasRead(u + [c], Step(p, c).value, n', m')
  {
    hide Number;
    NumberOfNothing();
    n', m' := n, m;
    if p.state == 0 {
      n' := [c];
      NumberPush("", c);
      assert u + [c] == [c];
      assert "" + [c] == [c];
      if DigitOf(c).value == 0 {
        assert c == '0';
        assert [c] == "0";
      }
    } else if p.state == 1 {
      assert u + [c] == n + "." + "";
      assert n + "" == n;
      NumberPush("", '0');
      assert "" + ['0'] == "0";
    } else if p.state == 2 {
      if IsDigit(c) {
        n' := n + [c];
        NumberPush(n, c);
      } else {
        assert u + [c] == n + "." + "";
        assert n + "" == n;
      }
    } else {
      m' := m + [c];
      NumberPush(n + m, c);
      assert (n + m) + [c] == n + (m + [c]);
      assert u + [c] == n + "." + m';
    }
  }

  lemma ScanNothing(p: Progress)
    requires p.state <= 3 && p.afterDot <= 6
    ensures Scan(p, "") == Ok(p)
  {
  }

  lemma {:induction false} ScanReads(u: string, p: Progress, n: string, m: string, v: string)
    returns (n': string, m': string)
    requires p.state <= 3 && p.afterDot <= 6 && HasRead(u, p, n, m) && Scan(p, v).Ok?
    ensures HasRead(u + v, Scan(p, v).value, n', m')
    decreases |v|
  {
    hide HasRead, Step, Scan;
    if v == "" {
      ScanNothing(p);
      assert u + v == u;
      n', m' := n, m;
    } else {
      ScanUnfold(p, v);
      var n1, m1 := StepReads(u, p, n, m, v[0]);
      n', m' := ScanReads(u + [v[0]], Step(p, v[0]).value, n1, m1, v[1..]);
      assert u + [v[0]] + v[1..] == u + v;
    }
  }

  lemma FinishReads(v: string, p: Progress, n: string, m: string, a: nat)
    requires HasRead(v, p, n, m) && p.state <= 3 && p.afterDot <= 6 && Finish(p) == Ok(a)
    ensures Denotes(v, a) && a < U64_RANGE
  {
    hide Number, Pow10, Scale;
    ScaleIsExact(p.microCcd, 6 - p.afterDot);
    if p.state < 3 {
      assert n + "" == n;
      if p.state == 1 {
        NumberOfNothing();
        NumberPush("", '0');
        assert "" + ['0'] == "0";
      }
    }
    assert IsReading(v, a, n, m);
  }

  // Accepted texts denote the amount that is returned.
  lemma ParseIsSound(v: string, a: nat)
    requires Parse(v) == Ok(a)
    ensures Denotes(v, a) && a < U64_RANGE
  {
    hide Scan, Finish, Denotes;
    var n, m := ScanReads("", START, "", "", v);
    assert "" + v == v;
    FinishReads(v, Scan(START, v).value, n, m, a);
  }

  // ----- every text of the right form is accepted -----

  lemma {:induction false} ScanConcat(p: Progress, u: string, v: string)
    requires p.state <= 3 && p.afterDot <= 6
    ensures Scan(p, u + v) == match Scan(p, u) case Err(e) => Err(e) case Ok(q) => Scan(q, v)
    decreases |u|
  {
    hide Step;
    if u == "" {
      assert u + v == v;
    } else {
      assert (u + v)[1..] == u[1..] + v;
      ScanUnfold(p, u);
      ScanUnfold(p, u + v);
      if Step(p, u[0]).Ok? {
        ScanConcat(Step(p, u[0]).value, u[1..], v);
      }
    }
  }

  lemma ScanOne(p: Progress, c: char)
    requires p.state <= 3 && p.afterDot <= 6
    ensures Scan(p, [c]) == Step(p, c)
  {
    ScanUnfold(p, [c]);
    assert [c][1..] == "";
  }

  lemma ScanPush(p: Progress, s: string, c: char)
    requires p.state <= 3 && p.afterDot <= 6
    ensures Scan(p, s + [c]) == match Scan(p, s) case Err(e) => Err(e) case Ok(q) => Step(q, c)
  {
    hide Step, Scan;
    ScanConcat(p, s, [c]);
    if Scan(p, s).Ok? {
      ScanOne(Scan(p, s).value, c);
    }
  }

  lemma {:induction false} ScanIntegral(n: string)
    requires IsIntegral(n) && Number(n) < U64_RANGE
    ensures Scan(START, n) == Ok(Progress(if n == "0" then 1 else 2, Number(n), 0))
  {
    var k := |n| - 1;
    assert n == n[..k] + [n[k]];
    NumberPush(n[..k], n[k]);
    ScanPush(START, n[..k], n[k]);
    if k > 0 {
      ScanIntegral(n[..k]);
      assert n[..k][0] == n[0];
    }
  }

  // One more decimal digit.
  lemma DecimalDigit(value: nat, places: nat, c: char)
    requires IsDigit(c) && places < 6 && 10 * value + DigitOf(c).value < U64_RANGE
    ensures Step(Progress(3, value, places), c) == Ok(Progress(3, 10 * value + DigitOf(c).value, places + 1))
  {
  }

  lemma {:induction false} ScanDecimals(micro: nat, m: string)
    requires AreDigits(m) && |m| <= 6 && micro * Pow10(|m|) + Number(m) < U64_RANGE
    ensures Scan(Progress(3, micro, 0), m) == Ok(Progress(3, micro * Pow10(|m|) + Number(m), |m|))
  {
    if m != "" {
      var k := |m| - 1;
      assert m == m[..k] + [m[k]];
      NumberPush(m[..k], m[k]);
      MorePlaces(micro, k);
      hide Number, Step, Scan, Pow10;
      ScanDecimals(micro, m[..k]);
      ScanPush(Progress(3, micro, 0), m[..k], m[k]);
      DecimalDigit(micro * Pow10(k) + Number(m[..k]), k, m[k]);
    }
  }

  lemma ParseIsComplete(v: string, a: nat)
    requires Denotes(v, a) && a < U64_RANGE
    ensures Parse(v) == Ok(a)
  {
    var n, m :| IsReading(v, a, n, m);
    var total := Number(n + m);
    AtLeast(total, Pow10(6 - |m|));
    NumberConcat(n, m);
    AtLeast(Number(n), Pow10(|m|));
    ScanIntegral(n);
    ScaleIsExact(total, 6 - |m|);
    if m == "" {
      assert n + m == n;
    } else {
      WithDecimals(n, m);
      hide *;
    }
    ParseUnfold(v);
  }

  lemma ParseUnfold(v: string)
    ensures Parse(v) == match Scan(START, v) case Err(e) => Err(e) case Ok(p) => Finish(p)
  {
  }

  lemma WithDecimals(n: string, m: string)
    requires IsIntegral(n) && AreDigits(m) && 0 < |m| <= 6 && AreDigits(n + m) && Number(n + m) < U64_RANGE
    ensures Scan(START, n + "." + m) == Ok(Progress(3, Number(n + m), |m|))
  {
    NumberConcat(n, m);
    AtLeast(Number(n), Pow10(|m|));
    ScanIntegral(n);
    ScanPush(START, n, '.');
    ScanConcat(START, n + ".", m);
    ScanDecimals(Number(n), m);
  }

  // Parsing is exact: it returns an amount exactly when the text denotes it and
  // it fits in 64 bits.
  lemma ParseIff(v: string, a: nat)
    ensures Parse(v) == Ok(a) <==> Denotes(v, a) && a < U64_RANGE
  {
    if Parse(v) == Ok(a) {
      ParseIsSound(v, a);
    }
    if Denotes(v, a) && a < U64_RANGE {
      ParseIsComplete(v, a);
    }
  }

  // ----- printing -----

  // Decimal notation without leading zeros.
  function Decimal(q: nat): (s: string)
    ensures IsIntegral(s) && Number(s) == q && (q > 0 ==> s[0] != '0')
  {
    if q < 10 then
      NumberPush("", CharOf(q));
      assert "" + [CharOf(q)] == [CharOf(q)];
      [CharOf(q)]
    else
      NumberPush(Decimal(q / 10), CharOf(q % 10));
      Decimal(q / 10) + [CharOf(q % 10)]
  }

  // Decimal notation of a given width, with leading zeros.
  function Padded(r: nat, width: nat): (s: string)
    requires r < Pow10(width)
    ensures |s| == width && AreDigits(s) && Number(s) == r
  {
    if width == 0 then ""
    else
      NumberPush(Padded(r / 10, width - 1), CharOf(r % 10));
      Padded(r / 10, width - 1) + [CharOf(r % 10)]
  }

  const MICRO_PER_CCD: nat := 1_000_000

  lemma MicroPerCcd()
    ensures Pow10(6) == MICRO_PER_CCD && Pow10(5) == 100_000 && Pow10(1) == 10 && Pow10(0) == 1
  {
    assert Pow10(2) == 10 * Pow10(1);
    assert Pow10(3) == 10 * Pow10(2);
    assert Pow10(4) == 10 * Pow10(3);
    assert Pow10(5) == 10 * Pow10(4);
    assert Pow10(6) == 10 * Pow10(5);
  }

  function Display(a: nat): string {
    var q, r := a / MICRO_PER_CCD, a % MICRO_PER_CCD;
    MicroPerCcd();
    if r == 0 then Decimal(q) + ".0" else Decimal(q) + "." + Padded(r, 6)
  }

  // The text denotes the amount, with a given number of decimals.
  ghost predicate DenotesWith(v: string, a: nat, places: nat) {
    exists n, m :: IsReading(v, a, n, m) && |m| == places
  }

  // Whole amounts are printed with one decimal, all others with six.
  lemma DisplayDenotes(a: nat)
    ensures DenotesWith(Display(a), a, if a % 1_000_000 == 0 then 1 else 6)
  {
    var q, r := a / MICRO_PER_CCD, a % MICRO_PER_CCD;
    MicroPerCcd();
    if r == 0 {
      NumberPush("", '0');
      assert "" + ['0'] == "0";
      WholeReading(a);
    } else {
      NumberConcat(Decimal(q), Padded(r, 6));
      hide Number, AreDigits, Decimal, Padded;
      assert IsReading(Display(a), a, Decimal(q), Padded(r, 6)) && |Padded(r, 6)| == 6;
    }
  }

  lemma WholeReading(a: nat)
    requires a % MICRO_PER_CCD == 0 && AreDigits("0") && Number("0") == 0
    ensures DenotesWith(Display(a), a, 1)
  {
    var n := Decimal(a / MICRO_PER_CCD);
    MicroPerCcd();
    NumberConcat(n, "0");
    assert n + ".0" == n + "." + "0";
    hide Number, AreDigits, Decimal, Padded, Pow10;
    assert IsReading(Display(a), a, n, "0") && |"0"| == 1;
  }

  // Every 64-bit amount survives being printed and parsed.
  lemma DisplayParses(a: nat)
    requires a < U64_RANGE
    ensures Parse(Display(a)) == Ok(a)
  {
    DisplayDenotes(a);
    var n, m :| IsReading(Display(a), a, n, m);
    assert Denotes(Display(a), a);
    ParseIff(Display(a), a);
  }
}
