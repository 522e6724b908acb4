/** Decimal printing of integers. */
module Decimal {
  import opened Radix

  function Digit(d: nat): (c: char)
    requires d < 10
    ensures '0' <= c <= '9' && (c as int) - ('0' as int) == d
  {
    (('0' as int) + d) as char
  }

  predicate IsDigits(s: string) {
    forall i :: 0 <= i < |s| ==> '0' <= s[i] <= '9'
  }

  function Characters(ds: seq<nat>): (s: string)
    requires forall i :: 0 <= i < |ds| ==> ds[i] < 10
    ensures |s| == |ds| && IsDigits(s)
    ensures forall i :: 0 <= i < |ds| ==> s[i] == Digit(ds[i])
  {
    seq(|ds|, i requires 0 <= i < |ds| => Digit(ds[i]))
  }

  /** The usual decimal text of a number. */
  function Show(n: nat): (s: string)
    ensures |s| > 0 && IsDigits(s)
  {
    Characters(Reverse(Numeral(n, 10)))
  }

  /** Reading decimal digits from left to right. */
  function Read(s: string): nat
    requires IsDigits(s)
  {
    if s == "" then 0 else Read(s[..|s| - 1]) * 10 + ((s[|s| - 1] as int) - ('0' as int))
  }

  lemma {:induction false} ReadOfCharacters(ds: seq<nat>)
    requires forall i :: 0 <= i < |ds| ==> ds[i] < 10
    ensures Read(Characters(ds)) == Value(ds, 10)
  {
    if ds != [] {
      ReadOfCharacters(ds[..|ds| - 1]);
      assert Characters(ds)[..|ds| - 1] == Characters(ds[..|ds| - 1]);
    }
  }

  /** Reading a printed number gives the number. */
  lemma ReadOfShow(n: nat)
    ensures Read(Show(n)) == n
  {
    var ds := Numeral(n, 10);
    ReadOfCharacters(Reverse(ds));
    EvalOfReverse(Reverse(ds), 10);
    ReverseTwice(ds);
    if n > 0 {
      EvalOfDigits(n, 10);
    } else {
      assert Eval([0], 10) == 0 + 10 * Eval([0][1..], 10);
    }
  }

  lemma ShowInjective(a: nat, b: nat)
    requires Show(a) == Show(b)
    ensures a == b
  {
    ReadOfShow(a);
    ReadOfShow(b);
  }

  /** A printed number starts with a zero only if it is zero. */
  lemma ShowHasNoLeadingZero(n: nat)
    ensures Show(n)[0] == '0' <==> n == 0
  {
    assert Show(n)[0] == Digit(Reverse(Numeral(n, 10))[0]);
  }

  function Pow10(n: nat): (p: nat)
    ensures p > 0 && (n > 0 ==> p >= 10)
  {
    if n == 0 then 1 else 10 * Pow10(n - 1)
  }

  /** A number below 10^k prints in at most k digits. */
  lemma {:induction false} DigitCount(n: nat, k: nat)
    requires n < Pow10(k)
    ensures |Digits(n, 10)| <= k
    decreases n
  {
    if n > 0 {
      DivShrinks(n, 10);
      assert k > 0;
      DigitCount(n / 10, k - 1);
    }
  }
}

/** `formatTokenAmount`: raw integer amounts printed with a fixed number of decimals. */
module TokenAmount {
  import opened Radix
  import opened Decimal

  function Repeat(c: char, n: nat): (s: string)
    ensures |s| == n && forall i :: 0 <= i < n ==> s[i] == c
  {
    seq(n, _ => c)
  }

  function PadStart(s: string, width: nat): string {
    if |s| >= width then s else Repeat('0', width - |s|) + s
  }

  function StripTrailingZeros(s: string): string {
    if s != "" && s[|s| - 1] == '0' then StripTrailingZeros(s[..|s| - 1]) else s
  }

  function Format(raw: nat, decimals: int): string {
    if decimals <= 0 then Show(raw)
    else
      var base := Pow10(decimals);
      DivMod(raw, base);
      var whole, fraction := raw / base, raw % base;
      if fraction == 0 then Show(whole)
      else Show(whole) + "." + StripTrailingZeros(PadStart(Show(fraction), decimals))
  }

  /** Number of characters before the decimal point, or the whole length without one. */
  function Point(s: string): (p: nat)
    ensures p <= |s|
    ensures forall i :: 0 <= i < p ==> s[i] != '.'
    ensures p < |s| ==> s[p] == '.'
  {
    if s == "" || s[0] == '.' then 0 else 1 + Point(s[1..])
  }

  function WholePart(s: string): string { s[..Point(s)] }

  function FractionPart(s: string): string { if Point(s) < |s| then s[Point(s) + 1..] else "" }

  /** A plain decimal text with at most `decimals` digits after the point. */
  predicate IsDecimal(s: string, decimals: nat) {
    IsDigits(WholePart(s)) && IsDigits(FractionPart(s)) && |FractionPart(s)| <= decimals
  }

  /** The number a decimal text denotes, times 10^decimals. */
  function ReadScaled(s: string, decimals: nat): nat
    requires IsDecimal(s, decimals)
  {
    Read(WholePart(s)) * Pow10(decimals) + Read(FractionPart(s)) * Pow10(decimals - |FractionPart(s)|)
  }

  /** Nothing superfluous: no leading zero, no empty fraction, no zero at the end of the fraction. */
  predicate IsCanonical(s: string) {
    && |WholePart(s)| > 0
    && (WholePart(s)[0] == '0' ==> |WholePart(s)| == 1)
    && (Point(s) < |s| ==> |FractionPart(s)| > 0 && FractionPart(s)[|FractionPart(s)| - 1] != '0')
  }

  lemma {:induction false} ReadIgnoresLeadingZeros(k: nat, s: string)
    requires IsDigits(s)
    ensures Read(Repeat('0', k) + s) == Read(s)
    decreases k + |s|
  {
    var all := Repeat('0', k) + s;
    if s != "" {
      assert all[..|all| - 1] == Repeat('0', k) + s[..|s| - 1];
      ReadIgnoresLeadingZeros(k, s[..|s| - 1]);
    } else if k > 0 {
      assert all[..|all| - 1] == Repeat('0', k - 1) + s;
      ReadIgnoresLeadingZeros(k - 1, s);
    }
  }

  /** Stripping trailing zeros divides by the matching power of ten and leaves none behind. */
  lemma {:induction false} StripScales(s: string)
    requires IsDigits(s)
    ensures var t := StripTrailingZeros(s);
            && |t| <= |s| && IsDigits(t)
            && Read(s) == Read(t) * Pow10(|s| - |t|)
            && (t != "" ==> t[|t| - 1] != '0')
  {
    if s != "" && s[|s| - 1] == '0' {
      var cut := s[..|s| - 1];
      StripScales(cut);
      var t := StripTrailingZeros(cut);
      MulAssociates(Read(t), Pow10(|cut| - |t|), 10);
    }
  }

  lemma SplitAt(a: string, b: string)
    requires IsDigits(a)
    ensures WholePart(a + "." + b) == a && FractionPart(a + "." + b) == b
    ensures WholePart(a) == a && FractionPart(a) == "" && Point(a) == |a|
  {
    var s := a + "." + b;
    assert s[|a|] == '.';
    assert forall i :: 0 <= i < |a| ==> s[i] == a[i];
    assert Point(s) == |a|;
    assert Point(a) == |a|;
  }

  /**
    Printing loses nothing: the text denotes raw / 10^decimals.  It is also canonical, so that amounts
    with the same number of decimals have the same text only when they are equal.
  */
  lemma FormatIsLossless(raw: nat, decimals: nat)
    requires decimals > 0
    ensures IsDecimal(Format(raw, decimals), decimals)
    ensures ReadScaled(Format(raw, decimals), decimals) == raw
    ensures IsCanonical(Format(raw, decimals))
  {
    DivMod(raw, Pow10(decimals));
    var whole, fraction := raw / Pow10(decimals), raw % Pow10(decimals);
    if fraction > 0 {
      Joined(whole, fraction, decimals);
    } else {
      WholeText(whole);
      ReadOfParts(Show(whole), "", decimals);
    }
  }

  /** With no decimals, or a negative number of them, the text is the plain integer. */
  lemma FormatPlain(raw: nat, decimals: int)
    requires decimals <= 0
    ensures IsDigits(Format(raw, decimals)) && Read(Format(raw, decimals)) == raw
    ensures Format(raw, decimals)[0] == '0' ==> |Format(raw, decimals)| == 1
  {
    WholeText(raw);
  }

  lemma WholeText(whole: nat)
    ensures Read(Show(whole)) == whole
    ensures Show(whole)[0] == '0' ==> |Show(whole)| == 1
  {
    ReadOfShow(whole);
    ShowHasNoLeadingZero(whole);
    if whole == 0 { assert Show(0) == Characters(Reverse([0])); }
  }

  /** The same for a whole part and a fraction that are already apart. */
  lemma Joined(whole: nat, fraction: nat, decimals: nat)
    requires decimals > 0 && 0 < fraction < Pow10(decimals)
    ensures var text := Show(whole) + "." + StripTrailingZeros(PadStart(Show(fraction), decimals));
            && IsDecimal(text, decimals) && IsCanonical(text)
            && ReadScaled(text, decimals) == whole * Pow10(decimals) + fraction
  {
    var a, b := Show(whole), StripTrailingZeros(PadStart(Show(fraction), decimals));
    WholeText(whole);
    FractionDigits(fraction, decimals);
    var scaled := Read(b) * Pow10(decimals - |b|);
    assert scaled == fraction;
    assert ReadScaled(a + "." + b, decimals) == Read(a) * Pow10(decimals) + scaled by { ReadOfParts(a, b, decimals); }
    SplitAt(a, b);
  }

  lemma ReadOfParts(a: string, b: string, decimals: nat)
    requires IsDigits(a) && IsDigits(b) && |b| <= decimals
    ensures WholePart(a) == a && FractionPart(a) == "" && Point(a) == |a|
    ensures WholePart(a + "." + b) == a && FractionPart(a + "." + b) == b
    ensures ReadScaled(a, decimals) == Read(a) * Pow10(decimals)
    ensures ReadScaled(a + "." + b, decimals) == Read(a) * Pow10(decimals) + Read(b) * Pow10(decimals - |b|)
  {
    SplitAt(a, b);
    assert Read("") == 0;
  }

  /** The printed fraction, read over 10^length, is fraction / 10^decimals, and does not end in a zero. */
  lemma FractionDigits(fraction: nat, decimals: nat)
    requires 0 < fraction < Pow10(decimals)
    ensures var t := StripTrailingZeros(PadStart(Show(fraction), decimals));
            && 0 < |t| <= decimals && IsDigits(t) && t[|t| - 1] != '0'
            && Read(t) * Pow10(decimals - |t|) == fraction
  {
    var padded := PadStart(Show(fraction), decimals);
    var t := StripTrailingZeros(padded);
    PaddedReads(fraction, decimals);
    assert |t| <= decimals && IsDigits(t) && (t != "" ==> t[|t| - 1] != '0')
      && fraction == Read(t) * Pow10(decimals - |t|) by { StripScales(padded); }
    assert Read("") == 0;
  }

  lemma PaddedReads(n: nat, width: nat)
    requires n < Pow10(width)
    ensures var padded := PadStart(Show(n), width);
            n > 0 ==> |padded| == width && IsDigits(padded) && Read(padded) == n
  {
    var digits := Show(n);
    DigitCount(n, width);
    ReadOfShow(n);
    if n > 0 {
      ReadIgnoresLeadingZeros(width - |digits|, digits);
      assert PadStart(digits, width) == Repeat('0', width - |digits|) + digits;
    }
  }

  /** For any number of decimals; zero and negative ones print the plain integer. */
  lemma FormatInjective(a: nat, b: nat, decimals: int)
    ensures Format(a, decimals) == Format(b, decimals) <==> a == b
  {
    if decimals > 0 {
      FormatIsLossless(a, decimals);
      FormatIsLossless(b, decimals);
    } else if Format(a, decimals) == Format(b, decimals) {
      ShowInjective(a, b);
    }
  }
}
