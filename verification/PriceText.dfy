/** Printing and parsing prices as decimal text. */
module PriceText {
  import opened Common
  import opened MarketData

  datatype ParseError = InvalidString | DecimalsOutOfRange

  // ---------- Digits ----------

  predicate IsDigit(c: char) {
    '0' <= c <= '9'
  }

  predicate AllDigits(s: string) {
    forall i :: 0 <= i < |s| ==> IsDigit(s[i])
  }

  /** The number a digit string denotes; the empty string denotes 0. */
  function Value(s: string): (r: nat)
    requires AllDigits(s)
  {
    if s == "" then 0 else 10 * Value(Init(s)) + (Last(s) as int - '0' as int)
  }

  function Digit(d: nat): (c: char)
    requires d < 10
    ensures IsDigit(c) && c as int - '0' as int == d
  {
    ('0' as int + d) as char
  }

  /** Decimal numeral without leading zeros. */
  function Numeral(n: nat): (s: string)
    ensures s != "" && AllDigits(s) && Value(s) == n
  {
    if n < 10 then
      assert Init([Digit(n)]) == "";
      [Digit(n)]
    else
      var s := Numeral(n / 10) + [Digit(n % 10)];
      assert Init(s) == Numeral(n / 10);
      s
  }

  function Zeros(n: nat): (s: string)
    ensures |s| == n && AllDigits(s)
  {
    seq(n, _ => '0')
  }

  lemma {:induction false} ValueOfConcat(a: string, b: string)
    requires AllDigits(a) && AllDigits(b)
    ensures AllDigits(a + b)
    ensures Value(a + b) == Value(a) * Pow10(|b|) + Value(b)
  {
    if b == "" {
      assert a + b == a;
    } else {
      ValueOfConcat(a, Init(b));
      assert Init(a + b) == a + Init(b) && Last(a + b) == Last(b);
      TenTimes(Value(a), Pow10(|b| - 1));
      assert Pow10(|b|) == 10 * Pow10(|b| - 1);
    }
  }

  lemma TenTimes(v: nat, k: nat)
    ensures v * (10 * k) == 10 * (v * k)
  {
  }

  lemma {:induction false} ValueIsBounded(s: string)
    requires AllDigits(s)
    ensures Value(s) < Pow10(|s|)
  {
    if s != "" {
      ValueIsBounded(Init(s));
    }
  }

  lemma {:induction false} ValueOfZeros(n: nat)
    ensures Value(Zeros(n)) == 0
  {
    if n > 0 {
      assert Init(Zeros(n)) == Zeros(n - 1);
      ValueOfZeros(n - 1);
    }
  }

  lemma {:induction false} NumeralIsShort(n: nat, d: nat)
    requires d >= 1 && n < Pow10(d)
    ensures |Numeral(n)| <= d
  {
    if n >= 10 {
      NumeralIsShort(n / 10, d - 1);
    }
  }

  // ---------- Parsing ----------

  predicate IsSpace(c: char) {
    '\U{0009}' <= c <= '\U{000D}' || c == ' ' || c == '\U{00A0}' || c == '\U{1680}' || '\U{2000}' <= c <= '\U{200A}'
    || c == '\U{2028}' || c == '\U{2029}' || c == '\U{202F}' || c == '\U{205F}' || c == '\U{3000}' || c == '\U{FEFF}'
  }

  function Trim(s: string): (r: string)
    decreases |s|
  {
    if s == "" then s
    else if IsSpace(s[0]) then Trim(s[1..])
    else if IsSpace(Last(s)) then Trim(Init(s))
    else s
  }

  /** Where the first dot is, or the length of s. */
  function DotAt(s: string): (r: nat)
    ensures r <= |s| && (forall i :: 0 <= i < r ==> s[i] != '.') && (r < |s| ==> s[r] == '.')
  {
    if s == "" || s[0] == '.' then 0 else 1 + DotAt(s[1..])
  }

  predicate Accepted(t: string) {
    var d := DotAt(t);
    d > 0 && AllDigits(t[..d]) && (d == |t| || (d + 1 < |t| && AllDigits(t[d + 1..])))
  }

  function FractionOf(t: string): string {
    if DotAt(t) < |t| then t[DotAt(t) + 1..] else ""
  }

  function Parse(s: string, decimals: nat): (r: Result<Price, ParseError>) {
    var t := Trim(s);
    if !Accepted(t) then Err(InvalidString)
    else
      var fraction := (FractionOf(t) + Zeros(decimals))[..decimals];
      if decimals > 18 then Err(DecimalsOutOfRange)
      else Ok(Price(Value(t[..DotAt(t)]) * Pow10(decimals) + Value(fraction), decimals))
  }

  // ---------- Printing ----------

  function PadStart(s: string, n: nat): string {
    if |s| >= n then s else Zeros(n - |s|) + s
  }

  function SignedNumeral(n: int): string {
    if n >= 0 then Numeral(n) else "-" + Numeral(-n)
  }

  /** Digits, after a minus sign for a negative number. */
  lemma SignedNumeralReads(n: int)
    ensures n >= 0 ==> AllDigits(SignedNumeral(n)) && Value(SignedNumeral(n)) == n
    ensures n < 0 ==> SignedNumeral(n)[0] == '-' && AllDigits(SignedNumeral(n)[1..])
    ensures n < 0 ==> Value(SignedNumeral(n)[1..]) == -n
  {
    if n < 0 {
      assert SignedNumeral(n)[1..] == Numeral(-n);
    }
  }

  /** Bigint remainder: it has the sign of the dividend. */
  function TruncatedRest(n: int, div: nat): int
    requires div > 0
  {
    n - Volume.TruncatedDiv(n, div) * div
  }

  function Print(p: Price): string {
    SignedNumeral(Volume.TruncatedDiv(p.minor, Pow10(p.decimals))) + "."
    + PadStart(SignedNumeral(TruncatedRest(p.minor, Pow10(p.decimals))), p.decimals)
  }

  // ---------- What is accepted ----------

  /** One or more digits, optionally followed by a dot and one or more digits. */
  ghost predicate IsDecimalText(t: string) {
    (t != "" && AllDigits(t))
    || exists i, f :: i != "" && f != "" && AllDigits(i) && AllDigits(f) && t == i + "." + f
  }

  lemma DotOfDecimalText(i: string, f: string)
    requires AllDigits(i) && AllDigits(f)
    ensures DotAt(i) == |i|
    ensures DotAt(i + "." + f) == |i|
    ensures (i + "." + f)[..|i|] == i && (i + "." + f)[|i| + 1..] == f
  {
    var t := i + "." + f;
    assert t[|i|] == '.';
    assert forall k :: 0 <= k < |i| ==> t[k] == i[k] && IsDigit(i[k]);
  }

  lemma AcceptsDecimalText(s: string, decimals: nat)
    ensures Parse(s, decimals).Ok? <==> IsDecimalText(Trim(s)) && decimals <= 18
    ensures Parse(s, decimals) == Err(InvalidString) <==> !IsDecimalText(Trim(s))
    ensures Parse(s, decimals) == Err(DecimalsOutOfRange) <==> IsDecimalText(Trim(s)) && decimals > 18
  {
    var t := Trim(s);
    var d := DotAt(t);
    if Accepted(t) {
      if d == |t| {
        assert t[..d] == t;
      } else {
        assert t == t[..d] + "." + t[d + 1..];
      }
    }
    if IsDecimalText(t) {
      if t != "" && AllDigits(t) {
        DotOfDecimalText(t, "");
        assert t[..d] == t;
      } else {
        var i, f :| i != "" && f != "" && AllDigits(i) && AllDigits(f) && t == i + "." + f;
        DotOfDecimalText(i, f);
      }
    }
  }

  predicate IsBlank(s: string) {
    forall k :: 0 <= k < |s| ==> IsSpace(s[k])
  }

  /** t without surrounding blanks, if it has no blank at either end. */
  predicate IsTrimmed(t: string) {
    t == "" || (!IsSpace(t[0]) && !IsSpace(Last(t)))
  }

  /** s is t between blanks. */
  ghost predicate IsPadded(s: string, t: string) {
    exists lead, trail :: IsBlank(lead) && IsBlank(trail) && s == lead + t + trail
  }

  lemma NoBlanks(s: string)
    ensures IsPadded(s, s)
  {
    assert IsBlank("") && s == "" + s + "";
  }

  lemma BlankBefore(s: string, t: string)
    requires s != "" && IsSpace(s[0]) && IsPadded(s[1..], t)
    ensures IsPadded(s, t)
  {
    hide IsSpace;
    var lead, trail :| IsBlank(lead) && IsBlank(trail) && s[1..] == lead + t + trail;
    assert IsBlank([s[0]] + lead) && s == [s[0]] + lead + t + trail;
  }

  lemma BlankAfter(s: string, t: string)
    requires s != "" && IsSpace(Last(s)) && IsPadded(Init(s), t)
    ensures IsPadded(s, t)
  {
    hide IsSpace;
    var lead, trail :| IsBlank(lead) && IsBlank(trail) && Init(s) == lead + t + trail;
    assert IsBlank(trail + [Last(s)]) && s == lead + t + (trail + [Last(s)]);
  }

  /** Trimming takes the blanks off both ends, all of them and nothing else. */
  lemma {:induction false} TrimStripsBlanks(s: string)
    ensures IsTrimmed(Trim(s)) && IsPadded(s, Trim(s))
    decreases |s|
  {
    hide IsPadded;
    hide IsSpace;
    if s == "" {
      NoBlanks(s);
    } else if IsSpace(s[0]) {
      TrimStripsBlanks(s[1..]);
      BlankBefore(s, Trim(s));
    } else if IsSpace(Last(s)) {
      TrimStripsBlanks(Init(s));
      BlankAfter(s, Trim(s));
    } else {
      NoBlanks(s);
    }
  }

  lemma {:induction false} TrimOfPadded(lead: string, t: string, trail: string)
    requires IsBlank(lead) && IsBlank(trail) && t != "" && IsTrimmed(t)
    ensures Trim(lead + t + trail) == t
    decreases |lead| + |trail|
  {
    var s := lead + t + trail;
    if lead != "" {
      assert s[1..] == lead[1..] + t + trail;
      TrimOfPadded(lead[1..], t, trail);
    } else if trail != "" {
      assert s[0] == t[0] && Init(s) == lead + t + Init(trail);
      TrimOfPadded(lead, t, Init(trail));
    } else {
      assert s == t;
    }
  }

  lemma TrimOfText(s: string, t: string)
    requires IsPadded(s, t) && t != "" && IsTrimmed(t)
    ensures Trim(s) == t
  {
    var lead, trail :| IsBlank(lead) && IsBlank(trail) && s == lead + t + trail;
    TrimOfPadded(lead, t, trail);
  }

  lemma DecimalTextIsTrimmed(t: string)
    requires IsDecimalText(t)
    ensures t != "" && IsTrimmed(t)
  {
    if !(t != "" && AllDigits(t)) {
      var i, f :| i != "" && f != "" && AllDigits(i) && AllDigits(f) && t == i + "." + f;
      assert t[0] == i[0] && Last(t) == Last(f);
    }
  }

  /** Accepted are exactly the digits, optionally with a dot and more digits, that may stand between blanks - for up to
      eighteen decimals. */
  lemma AcceptsExactlyDecimalText(s: string, decimals: nat)
    ensures Parse(s, decimals).Ok? <==> decimals <= 18 && exists t :: IsDecimalText(t) && IsPadded(s, t)
  {
    AcceptsDecimalText(s, decimals);
    TrimStripsBlanks(s);
    hide Trim;
    hide Parse;
    hide IsDecimalText;
    hide IsPadded;
    assert IsDecimalText(Trim(s)) ==> exists t :: IsDecimalText(t) && IsPadded(s, t);
    forall t | IsDecimalText(t) && IsPadded(s, t)
      ensures Trim(s) == t
    {
      DecimalTextIsTrimmed(t);
      TrimOfText(s, t);
    }
  }

  // ---------- What is computed ----------

  /** parse truncates: minor is the floor of the text's value times 10^decimals. With digits i before the
      dot and f after it the value is Value(i + f) / 10^|f|. */
  lemma ParseTruncates(s: string, decimals: nat)
    requires Parse(s, decimals).Ok?
    ensures var i, f := Trim(s)[..DotAt(Trim(s))], FractionOf(Trim(s));
      var m := Parse(s, decimals).value.minor;
      AllDigits(i + f) && m * Pow10(|f|) <= Value(i + f) * Pow10(decimals) < (m + 1) * Pow10(|f|)
  {
    hide Value;
    hide Pow10;
    hide Trim;
    hide DotAt;
    PartsAreDigits(Trim(s));
    FractionIsTruncated(Trim(s)[..DotAt(Trim(s))], FractionOf(Trim(s)), decimals);
    hide FractionOf;
    hide AllDigits;
  }

  lemma PartsAreDigits(t: string)
    requires Accepted(t)
    ensures AllDigits(t[..DotAt(t)]) && AllDigits(FractionOf(t))
  {
    hide DotAt;
  }

  lemma FractionIsTruncated(i: string, f: string, decimals: nat)
    requires AllDigits(i) && AllDigits(f)
    ensures AllDigits(i + f)
    ensures var m := Value(i) * Pow10(decimals) + Value((f + Zeros(decimals))[..decimals]);
      m * Pow10(|f|) <= Value(i + f) * Pow10(decimals) < (m + 1) * Pow10(|f|)
  {
    hide Value;
    hide Pow10;
    ValueOfConcat(i, f);
    if |f| <= decimals {
      PaddedFraction(i, f, decimals);
      OneMoreIsMore(Value(i) * Pow10(decimals) + Value((f + Zeros(decimals))[..decimals]), Pow10(|f|));
    } else {
      CutFraction(i, f, decimals);
    }
  }

  lemma OneMoreIsMore(m: nat, k: nat)
    requires k > 0
    ensures m * k < (m + 1) * k
  {
  }

  lemma PaddedFraction(i: string, f: string, decimals: nat)
    requires AllDigits(i) && AllDigits(f) && AllDigits(i + f) && |f| <= decimals
    ensures var m := Value(i) * Pow10(decimals) + Value((f + Zeros(decimals))[..decimals]);
      m * Pow10(|f|) == Value(i + f) * Pow10(decimals)
  {
    var k := decimals - |f|;
    assert (f + Zeros(decimals))[..decimals] == f + Zeros(k);
    ValueOfConcat(f, Zeros(k));
    ValueOfZeros(k);
    ValueOfConcat(i, f);
    Pow10Adds(k, |f|);
    Regroup(Value(i), Value(f), Pow10(k), Pow10(|f|));
  }

  lemma Regroup(a: nat, b: nat, x: nat, y: nat)
    ensures (a * (x * y) + b * x) * y == (a * y + b) * (x * y)
  {
    calc {
      (a * (x * y) + b * x) * y;
      a * (x * y) * y + b * x * y;
      { assert a * (x * y) * y == a * y * (x * y); assert b * x * y == b * (x * y); }
      a * y * (x * y) + b * (x * y);
      (a * y + b) * (x * y);
    }
  }

  lemma CutFraction(i: string, f: string, decimals: nat)
    requires AllDigits(i) && AllDigits(f) && AllDigits(i + f) && decimals < |f|
    ensures var m := Value(i) * Pow10(decimals) + Value((f + Zeros(decimals))[..decimals]);
      m * Pow10(|f|) <= Value(i + f) * Pow10(decimals) < (m + 1) * Pow10(|f|)
  {
    var kept, cut := f[..decimals], f[decimals..];
    assert (f + Zeros(decimals))[..decimals] == kept && f == kept + cut;
    ValueOfConcat(i, f);
    ValueOfConcat(kept, cut);
    ValueIsBounded(cut);
    Pow10Adds(decimals, |cut|);
    CutArithmetic(Value(i), Value(kept), Value(cut), Pow10(decimals), Pow10(|cut|), Pow10(|f|));
  }

  lemma CutArithmetic(a: nat, b: nat, r: nat, x: nat, y: nat, z: nat)
    requires r < y && x > 0 && z == x * y
    ensures var m := a * x + b;
      m * z <= (a * z + (b * y + r)) * x < (m + 1) * z
  {
    SplitNumeral(a, b, r, x, y);
    FloorBounds(a * x + b, r, x, y);
  }

  lemma SplitNumeral(a: nat, b: nat, r: nat, x: nat, y: nat)
    ensures a * (x * y) + (b * y + r) == (a * x + b) * y + r
  {
    assert a * (x * y) == a * x * y;
    assert (a * x + b) * y == a * x * y + b * y;
  }

  lemma FloorBounds(m: nat, r: nat, x: nat, y: nat)
    requires r < y && x > 0
    ensures m * (x * y) <= (m * y + r) * x < (m + 1) * (x * y)
  {
    assert (m * y + r) * x == m * (x * y) + r * x;
    assert r * x < y * x by { assert (y - r) * x > 0; }
    assert (m + 1) * (x * y) == m * (x * y) + x * y;
  }

  // ---------- Round trip ----------

  lemma TrimKeepsDecimalText(t: string)
    requires t != "" && !IsSpace(t[0]) && !IsSpace(Last(t))
    ensures Trim(t) == t
  {
  }

  /** Printing then parsing gives the price back exactly for the nonnegative ones; a negative price
      prints as text that parse refuses. */
  lemma RoundTripIffNonnegative(p: Price)
    requires p.decimals <= 18
    ensures Parse(Print(p), p.decimals) == Ok(p) <==> p.minor >= 0
  {
    if p.minor >= 0 {
      RoundTrip(p);
    } else {
      NegativeIsRefused(p);
    }
  }

  lemma RoundTrip(p: Price)
    requires p.decimals <= 18 && p.minor >= 0
    ensures Parse(Print(p), p.decimals) == Ok(p)
  {
    hide Value;
    hide Pow10;
    hide Parse;
    hide TruncatedRest;
    var d, whole, rest := p.decimals, p.minor / Pow10(p.decimals), TruncatedRest(p.minor, Pow10(p.decimals));
    QuotientAndRest(p.minor, Pow10(d));
    var i, f := Numeral(whole), PadStart(Numeral(rest), d);
    PaddedValue(rest, d);
    ParseOfPlainText(i, f, d);
    if d == 0 {
      NoFraction(rest, (f + Zeros(d))[..d]);
    } else {
      assert (f + Zeros(d))[..d] == f;
    }
  }

  lemma NoFraction(rest: int, digits: string)
    requires 0 <= rest < Pow10(0) && digits == ""
    ensures rest == 0 && Value(digits) == 0
  {
  }

  lemma QuotientAndRest(n: nat, div: nat)
    requires div > 0
    ensures Volume.TruncatedDiv(n, div) == n / div
    ensures 0 <= TruncatedRest(n, div) < div && n / div * div + TruncatedRest(n, div) == n
  {
    var r := n % div;
    assert n == n / div * div + r;
  }

  lemma ParseOfPlainText(i: string, f: string, decimals: nat)
    requires i != "" && f != "" && AllDigits(i) && AllDigits(f) && decimals <= 18
    ensures Parse(i + "." + f, decimals)
      == Ok(Price(Value(i) * Pow10(decimals) + Value((f + Zeros(decimals))[..decimals]), decimals))
  {
    hide Value;
    hide Pow10;
    var t := i + "." + f;
    assert t[0] == i[0] && Last(t) == Last(f);
    TrimKeepsDecimalText(t);
    DotOfDecimalText(i, f);
    hide Trim;
    hide DotAt;
  }

  lemma PaddedValue(rest: nat, d: nat)
    requires rest < Pow10(d)
    ensures var f := PadStart(Numeral(rest), d);
      f != "" && AllDigits(f) && Value(f) == rest && (d >= 1 ==> |f| == d)
  {
    hide Value;
    hide Pow10;
    hide Numeral;
    if d >= 1 {
      NumeralIsShort(rest, d);
      PaddingIsWorthless(Numeral(rest), d - |Numeral(rest)|);
    }
  }

  lemma PaddingIsWorthless(s: string, n: nat)
    requires AllDigits(s)
    ensures AllDigits(Zeros(n) + s) && Value(Zeros(n) + s) == Value(s)
  {
    ValueOfConcat(Zeros(n), s);
    ValueOfZeros(n);
    ZeroTimes(Pow10(|s|));
  }

  lemma ZeroTimes(k: nat)
    ensures 0 * k == 0
  {
  }

  lemma NegativeIsRefused(p: Price)
    requires p.minor < 0
    ensures Parse(Print(p), p.decimals).Err?
  {
    var whole, rest := Volume.TruncatedDiv(p.minor, Pow10(p.decimals)), TruncatedRest(p.minor, Pow10(p.decimals));
    TruncationKeepsTheSign(p.minor, Pow10(p.decimals));
    var a, b := SignedNumeral(whole), PadStart(SignedNumeral(rest), p.decimals);
    var t := a + "." + b;
    assert '-' in t by {
      if whole < 0 {
        assert t[0] == '-';
      } else {
        MinusSurvivesPadding(rest, p.decimals);
        var k :| 0 <= k < |b| && b[k] == '-';
        assert t[|a| + 1 + k] == '-';
      }
    }
    MinusIsRefused(t);
  }

  lemma TruncationKeepsTheSign(n: int, div: nat)
    requires n < 0 && div > 0
    ensures Volume.TruncatedDiv(n, div) <= 0 && TruncatedRest(n, div) <= 0
    ensures Volume.TruncatedDiv(n, div) < 0 || TruncatedRest(n, div) < 0
  {
    QuotientAndRest(-n, div);
    var q := (-n) / div;
    assert Volume.TruncatedDiv(n, div) == -q && (-q) * div == -(q * div);
  }

  lemma MinusSurvivesPadding(n: int, d: nat)
    requires n < 0
    ensures '-' in PadStart(SignedNumeral(n), d)
  {
    var s := SignedNumeral(n);
    assert s[0] == '-';
    if |s| < d {
      assert (Zeros(d - |s|) + s)[d - |s|] == '-';
    }
  }

  lemma {:induction false} TrimKeepsMinus(s: string)
    requires '-' in s
    ensures '-' in Trim(s)
    decreases |s|
  {
    var k :| 0 <= k < |s| && s[k] == '-';
    if IsSpace(s[0]) {
      assert s[1..][k - 1] == '-';
      TrimKeepsMinus(s[1..]);
    } else if IsSpace(Last(s)) {
      assert Init(s)[k] == '-';
      TrimKeepsMinus(Init(s));
    }
  }

  lemma MinusIsRefused(s: string)
    requires '-' in s
    ensures !Accepted(Trim(s))
  {
    TrimKeepsMinus(s);
    var t := Trim(s);
    var k :| 0 <= k < |t| && t[k] == '-';
    var d := DotAt(t);
    if k < d {
      assert t[..d][k] == '-';
    } else if d < k {
      assert t[d + 1..][k - d - 1] == '-';
    }
  }
}
