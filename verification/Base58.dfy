/**
  The base58 codec of the worker (src/backend/workerCore.ts and its second copy in workerShared.ts), and
  the address normalisation built on it.

  Both directions are the same conversion between bases 58 and 256: keep one zero per leading zero, then
  append the big-endian numeral of the value.  `Convert` says that in closed form; the methods run the
  worker's in-place carry loops and are proved to compute it.
*/
module Base58 {
  import opened Wrappers
  import opened Radix
  import opened JsText

  const DIGITS := "123456789"
  const A_TO_H := "ABCDEFGH"
  const J_TO_N := "JKLMN"
  const P_TO_Z := "PQRSTUVWXYZ"
  const LOWER_A_TO_K := "abcdefghijk"
  const LOWER_M_TO_Z := "mnopqrstuvwxyz"

  const ALPHABET: string := DIGITS + A_TO_H + J_TO_N + P_TO_Z + LOWER_A_TO_K + LOWER_M_TO_Z

  type byte = n: nat | n < 256

  datatype DecodeError = InvalidCharacter

  datatype AddressError = EmptyAddress | InvalidAddress

  // ---------------------------------------------------------------- the conversion in closed form

  function Zeros(n: nat): (z: seq<nat>)
    ensures |z| == n && forall i :: 0 <= i < n ==> z[i] == 0
  {
    seq(n, _ => 0)
  }

  function LeadingZeros(ds: seq<nat>): (k: nat)
    ensures k <= |ds|
    ensures forall i :: 0 <= i < k ==> ds[i] == 0
    ensures k < |ds| ==> ds[k] != 0
  {
    if ds == [] || ds[0] != 0 then 0 else 1 + LeadingZeros(ds[1..])
  }

  /** Big-endian digits in base `a` to big-endian digits in base `b`, one zero kept per leading zero. */
  function Convert(ds: seq<nat>, a: nat, b: nat): (r: seq<nat>)
    requires a >= 2 && b >= 2
    ensures forall i :: 0 <= i < |r| ==> r[i] < b
  {
    Zeros(LeadingZeros(ds)) + Reverse(Numeral(Value(ds, a), b))
  }

  ghost predicate HasNonzero(ds: seq<nat>) {
    exists i :: 0 <= i < |ds| && ds[i] != 0
  }

  lemma LeadingZerosUnique(ds: seq<nat>, k: nat)
    requires k < |ds| && ds[k] != 0
    requires forall i :: 0 <= i < k ==> ds[i] == 0
    ensures LeadingZeros(ds) == k
  {
  }

  lemma {:induction false} ValueIgnoresLeadingZeros(k: nat, ds: seq<nat>, base: nat)
    requires base >= 2
    ensures Value(Zeros(k) + ds, base) == Value(ds, base)
  {
    if ds != [] {
      var all := Zeros(k) + ds;
      assert all[..|all| - 1] == Zeros(k) + ds[..|ds| - 1];
      ValueIgnoresLeadingZeros(k, ds[..|ds| - 1], base);
    } else {
      assert Zeros(k) + ds == Zeros(k);
      ValueOfZeros(k, base);
    }
  }

  lemma {:induction false} ValueOfZeros(k: nat, base: nat)
    requires base >= 2
    ensures Value(Zeros(k), base) == 0
  {
    if k > 0 {
      assert Zeros(k)[..k - 1] == Zeros(k - 1);
      ValueOfZeros(k - 1, base);
    }
  }

  /** The value of digits that start with a nonzero digit is positive, and they are its numeral. */
  lemma ProperDigits(rest: seq<nat>, base: nat)
    requires base >= 2 && |rest| > 0 && rest[0] != 0
    requires forall i :: 0 <= i < |rest| ==> rest[i] < base
    ensures Value(rest, base) > 0
    ensures Reverse(Numeral(Value(rest, base), base)) == rest
  {
    var le := Reverse(rest);
    EvalOfReverse(rest, base);
    EvalPositive(le, base);
    DigitsOfEval(le, base);
    ReverseTwice(rest);
  }

  lemma ValueOfReversedNumeral(v: nat, base: nat)
    requires base >= 2 && v > 0
    ensures Value(Reverse(Numeral(v, base)), base) == v
  {
    var ds := Digits(v, base);
    EvalOfReverse(Reverse(ds), base);
    ReverseTwice(ds);
    EvalOfDigits(v, base);
  }

  lemma ConvertAllZero(ds: seq<nat>, a: nat, b: nat)
    requires a >= 2 && b >= 2
    requires !HasNonzero(ds)
    ensures Convert(ds, a, b) == Zeros(|ds| + 1)
  {
    assert LeadingZeros(ds) == |ds|;
    assert ds == Zeros(|ds|);
    ValueOfZeros(|ds|, a);
    assert Reverse([0]) == [0];
  }

  /** Digits that are not all zero are their leading zeros and the numeral of their value. */
  lemma SplitDigits(ds: seq<nat>, a: nat)
    requires a >= 2 && HasNonzero(ds)
    requires forall i :: 0 <= i < |ds| ==> ds[i] < a
    ensures Value(ds, a) > 0 && ds == Zeros(LeadingZeros(ds)) + Reverse(Numeral(Value(ds, a), a))
  {
    var k := LeadingZeros(ds);
    var rest := ds[k..];
    assert ds == Zeros(k) + rest;
    ValueIgnoresLeadingZeros(k, rest, a);
    ProperDigits(rest, a);
  }

  lemma PaddedNumeral(k: nat, v: nat, b: nat)
    requires b >= 2 && v > 0
    ensures var out := Zeros(k) + Reverse(Numeral(v, b)); LeadingZeros(out) == k && Value(out, b) == v
  {
    var mid := Reverse(Numeral(v, b));
    var out := Zeros(k) + mid;
    assert mid[0] != 0 && out[k] == mid[0];
    assert LeadingZeros(out) == k by { LeadingZerosUnique(out, k); }
    assert Value(out, b) == Value(mid, b) by { ValueIgnoresLeadingZeros(k, mid, b); }
    ValueOfReversedNumeral(v, b);
  }

  /** A conversion keeps value and leading zeros of digits that are not all zero. */
  lemma ConvertKeepsValue(ds: seq<nat>, a: nat, b: nat)
    requires a >= 2 && b >= 2 && HasNonzero(ds)
    requires forall i :: 0 <= i < |ds| ==> ds[i] < a
    ensures LeadingZeros(Convert(ds, a, b)) == LeadingZeros(ds)
    ensures Value(Convert(ds, a, b), b) == Value(ds, a)
  {
    SplitDigits(ds, a);
    PaddedNumeral(LeadingZeros(ds), Value(ds, a), b);
  }

  /** Converting there and back restores the digits exactly when one of them is not zero. */
  lemma ConvertRoundTrip(ds: seq<nat>, a: nat, b: nat)
    requires a >= 2 && b >= 2
    requires forall i :: 0 <= i < |ds| ==> ds[i] < a
    ensures Convert(Convert(ds, a, b), b, a) == ds <==> HasNonzero(ds)
  {
    if HasNonzero(ds) {
      ConvertKeepsValue(ds, a, b);
      SplitDigits(ds, a);
    } else {
      ConvertAllZero(ds, a, b);
      ConvertAllZero(Zeros(|ds| + 1), b, a);
    }
  }

  // ---------------------------------------------------------------- the alphabet

  /** Consecutive characters. */
  predicate IsRun(part: string, first: char, n: nat) {
    |part| == n && forall i :: 0 <= i < n ==> part[i] as int == first as int + i
  }

  lemma AlphabetRuns()
    ensures IsRun(DIGITS, '1', 9) && IsRun(A_TO_H, 'A', 8) && IsRun(J_TO_N, 'J', 5)
    ensures IsRun(P_TO_Z, 'P', 11) && IsRun(LOWER_A_TO_K, 'a', 11) && IsRun(LOWER_M_TO_Z, 'm', 14)
  {
  }

  /** The digits and letters but for 0, I, O and l, digits first, then upper case, then lower case. */
  lemma AlphabetAt(i: nat)
    requires i < 58
    ensures ALPHABET[i] as int
         == if i < 9 then '1' as int + i
            else if i < 17 then 'A' as int + i - 9
            else if i < 22 then 'J' as int + i - 17
            else if i < 33 then 'P' as int + i - 22
            else if i < 44 then 'a' as int + i - 33
            else 'm' as int + i - 44
  {
    AlphabetRuns();
  }

  /** The digit a character stands for. */
  function DigitOf(c: char): Option<nat> {
    if '1' <= c <= '9' then Some(c as int - '1' as int)
    else if 'A' <= c <= 'H' then Some(c as int - 'A' as int + 9)
    else if 'J' <= c <= 'N' then Some(c as int - 'J' as int + 17)
    else if 'P' <= c <= 'Z' then Some(c as int - 'P' as int + 22)
    else if 'a' <= c <= 'k' then Some(c as int - 'a' as int + 33)
    else if 'm' <= c <= 'z' then Some(c as int - 'm' as int + 44)
    else None
  }

  lemma AlphabetAscends(i: nat)
    requires i < 57
    ensures ALPHABET[i] < ALPHABET[i + 1]
  {
    AlphabetAt(i);
    AlphabetAt(i + 1);
  }

  lemma {:induction false} AlphabetSorted(i: nat, j: nat)
    requires i < j < 58
    ensures ALPHABET[i] < ALPHABET[j]
  {
    AlphabetAscends(j - 1);
    if i < j - 1 {
      AlphabetSorted(i, j - 1);
    }
  }

  /** Position of a character in the alphabet, as a scan from position i on. */
  function IndexFrom(c: char, i: nat): (r: Option<nat>)
    requires i <= 58
    ensures r.Some? ==> i <= r.value < 58 && ALPHABET[r.value] == c
    ensures r.None? ==> forall j :: i <= j < 58 ==> ALPHABET[j] != c
    decreases 58 - i
  {
    if i == 58 then None
    else if ALPHABET[i] == c then Some(i)
    else IndexFrom(c, i + 1)
  }

  lemma DigitIsIndex(c: char)
    requires DigitOf(c).Some?
    ensures DigitOf(c).value < 58 && ALPHABET[DigitOf(c).value] == c
  {
    AlphabetAt(DigitOf(c).value);
  }

  lemma IndexIsDigit(c: char)
    ensures IndexFrom(c, 0) == DigitOf(c)
  {
    if DigitOf(c).Some? {
      DigitIsIndex(c);
      AlphabetInjective(IndexFrom(c, 0).value, DigitOf(c).value);
    } else if IndexFrom(c, 0).Some? {
      AlphabetAt(IndexFrom(c, 0).value);
    }
  }

  predicate InAlphabet(s: string) {
    forall i :: 0 <= i < |s| ==> IndexFrom(s[i], 0).Some?
  }

  function Indices(s: string): (ds: seq<nat>)
    requires InAlphabet(s)
    ensures |ds| == |s|
    ensures forall i :: 0 <= i < |s| ==> ds[i] < 58 && ALPHABET[ds[i]] == s[i]
  {
    seq(|s|, i requires 0 <= i < |s| => IndexFrom(s[i], 0).value)
  }

  function Text(ds: seq<nat>): (s: string)
    requires forall i :: 0 <= i < |ds| ==> ds[i] < 58
    ensures |s| == |ds|
    ensures forall i :: 0 <= i < |ds| ==> s[i] == ALPHABET[ds[i]]
  {
    seq(|ds|, i requires 0 <= i < |ds| => ALPHABET[ds[i]])
  }

  lemma AlphabetInjective(i: nat, j: nat)
    requires i < 58 && j < 58 && ALPHABET[i] == ALPHABET[j]
    ensures i == j
  {
    if i < j { AlphabetSorted(i, j); } else if j < i { AlphabetSorted(j, i); }
  }

  lemma IndicesOfText(ds: seq<nat>)
    requires forall i :: 0 <= i < |ds| ==> ds[i] < 58
    ensures InAlphabet(Text(ds)) && Indices(Text(ds)) == ds
  {
    var s := Text(ds);
    forall i | 0 <= i < |s| ensures IndexFrom(s[i], 0) == Some(ds[i]) {
      var r := IndexFrom(s[i], 0);
      assert ALPHABET[ds[i]] == s[i];
      AlphabetInjective(r.value, ds[i]);
    }
  }

  lemma TextOfIndices(s: string)
    requires InAlphabet(s)
    ensures Text(Indices(s)) == s
  {
  }

  // ---------------------------------------------------------------- decoding

  /** What decoding means: every character must be in the alphabet, then one base conversion. */
  function Decoded(s: string): Result<seq<byte>, DecodeError> {
    if InAlphabet(s) then Success(Convert(Indices(s), 58, 256)) else Failure(InvalidCharacter)
  }

  lemma IndicesPrefix(s: string, k: nat)
    requires k < |s| && InAlphabet(s[..k]) && IndexFrom(s[k], 0).Some?
    ensures InAlphabet(s[..k + 1])
    ensures Indices(s[..k + 1]) == Indices(s[..k]) + [IndexFrom(s[k], 0).value]
  {
    assert s[..k + 1] == s[..k] + [s[k]];
  }

  /** Moving the carry over one digit: the bottom digit of the part still to do becomes final. */
  lemma PassStep(rest: seq<nat>, mul: nat, carry: nat, base: nat)
    requires base >= 2 && |rest| > 0
    ensures var t := carry + rest[0] * mul;
            MulAdd(rest, mul, carry, base) == [t % base] + MulAdd(rest[1..], mul, t / base, base)
  {
  }

  /** The inner loop over the existing digits; no carry between digits ever reaches `mul`. */
  method Ripple(digits: seq<nat>, mul: nat, base: nat, first: nat) returns (out: seq<nat>, carry: nat)
    requires base >= 2 && first < mul
    requires forall i :: 0 <= i < |digits| ==> digits[i] < base
    ensures carry < mul
    ensures out + Digits(carry, base) == MulAdd(digits, mul, first, base)
  {
    out, carry := digits, first;
    ghost var todo := digits;
    for i := 0 to |digits|
      invariant |out| == |digits| && todo == out[i..] == digits[i..]
      invariant carry < mul
      invariant out[..i] + MulAdd(todo, mul, carry, base) == MulAdd(digits, mul, first, base)
    {
      var t := carry + out[i] * mul;
      CarryBound(carry, out[i], mul, base);
      var low, high := t % base, t / base;
      ghost var done, rest := out[..i], MulAdd(todo[1..], mul, high, base);
      assert MulAdd(todo, mul, carry, base) == [low] + rest by { PassStep(todo, mul, carry, base); }
      assert done + ([low] + rest) == done + [low] + rest;
      out, carry, todo := out[i := low], high, todo[1..];
      assert out[..i + 1] == done + [low];
    }
    assert out[..|digits|] == out;
  }

  /** One `digits = digits * mul + first` pass in place, growing the list while a carry is left. */
  method CarryPass(digits: seq<nat>, mul: nat, base: nat, first: nat) returns (out: seq<nat>)
    requires base >= 2 && first < mul
    requires forall i :: 0 <= i < |digits| ==> digits[i] < base
    ensures out == MulAdd(digits, mul, first, base)
  {
    var carry: nat;
    out, carry := Ripple(digits, mul, base, first);
    while carry > 0
      invariant out + Digits(carry, base) == MulAdd(digits, mul, first, base)
      decreases carry
    {
      ghost var before, ds := out, Digits(carry, base);
      var low, high := carry % base, carry / base;
      DivMod(carry, base);
      DivShrinks(carry, base);
      assert ds == [low] + Digits(high, base) by { DigitsStep(carry, high, low, base); }
      out, carry := out + [low], high;
      assert out + Digits(carry, base) == before + ds;
    }
  }

  /** One more character is one carry pass. */
  lemma DecodeStep(s: string, k: nat, index: nat)
    requires k < |s| && InAlphabet(s[..k]) && IndexFrom(s[k], 0) == Some(index)
    ensures InAlphabet(s[..k + 1])
    ensures MulAdd(Numeral(Value(Indices(s[..k]), 58), 256), 58, index, 256)
         == Numeral(Value(Indices(s[..k + 1]), 58), 256)
  {
    IndicesPrefix(s, k);
    var before, after := Indices(s[..k]), Indices(s[..k + 1]);
    assert after[..k] == before && after[k] == index;
    assert Value(after, 58) == Value(before, 58) * 58 + index;
    MulAddNumeral(Value(before, 58), 58, index, 256);
  }

  method Decode(s: string) returns (r: Result<seq<byte>, DecodeError>)
    ensures r == Decoded(s)
  {
    var bytes: seq<nat> := [0];
    for k := 0 to |s|
      invariant InAlphabet(s[..k])
      invariant bytes == Numeral(Value(Indices(s[..k]), 58), 256)
    {
      var idx := IndexFrom(s[k], 0);
      if idx.None? {
        return Failure(InvalidCharacter);
      }
      DecodeStep(s, k, idx.value);
      bytes := CarryPass(bytes, 58, 256, idx.value);
    }
    assert s[..|s|] == s;
    var zeros := 0;
    while zeros < |s| && s[zeros] == '1'
      invariant zeros <= |s|
      invariant forall j :: 0 <= j < zeros ==> s[j] == '1'
    {
      zeros := zeros + 1;
    }
    OnesAreZeros(s, zeros);
    ReverseAppendZeros(bytes, zeros);
    r := Success(Reverse(bytes + Zeros(zeros)));
  }

  lemma OnesAreZeros(s: string, k: nat)
    requires InAlphabet(s) && k <= |s|
    requires forall j :: 0 <= j < k ==> s[j] == '1'
    requires k < |s| ==> s[k] != '1'
    ensures LeadingZeros(Indices(s)) == k
  {
    var ds := Indices(s);
    forall j | 0 <= j < |s| ensures ds[j] == 0 <==> s[j] == '1' {
      if s[j] == '1' { AlphabetInjective(ds[j], 0); }
    }
    if k < |s| { LeadingZerosUnique(ds, k); }
  }

  lemma ReverseAppendZeros(ds: seq<nat>, k: nat)
    ensures Reverse(ds + Zeros(k)) == Zeros(k) + Reverse(ds)
  {
  }

  // ---------------------------------------------------------------- encoding

  function Ones(n: nat): (s: string)
    ensures |s| == n
  {
    seq(n, _ => '1')
  }

  /** The encoder of workerShared.ts. */
  function EncodedShared(bytes: seq<byte>): string {
    Text(Convert(bytes, 256, 58))
  }

  /** The encoder of workerCore.ts, which treats the empty and the all-zero input apart. */
  function EncodedCore(bytes: seq<byte>): string {
    if forall i :: 0 <= i < |bytes| ==> bytes[i] == 0 then Ones(|bytes|) else EncodedShared(bytes)
  }

  lemma ValueOfPrefix(ds: seq<nat>, k: nat, base: nat)
    requires base >= 2 && k < |ds|
    ensures Value(ds[..k + 1], base) == Value(ds[..k], base) * base + ds[k]
  {
    assert ds[..k + 1][..k] == ds[..k];
  }

  method Base58Digits(bytes: seq<byte>) returns (digits: seq<nat>)
    ensures digits == Numeral(Value(bytes, 256), 58)
  {
    digits := [0];
    for k := 0 to |bytes|
      invariant digits == Numeral(Value(bytes[..k], 256), 58)
    {
      ValueOfPrefix(bytes, k, 256);
      MulAddNumeral(Value(bytes[..k], 256), 256, bytes[k], 58);
      digits := CarryPass(digits, 256, 58, bytes[k]);
    }
    assert bytes[..|bytes|] == bytes;
  }

  lemma PaddedText(n: nat, ds: seq<nat>)
    requires forall i :: 0 <= i < |ds| ==> ds[i] < 58
    ensures Ones(n) + Text(ds) == Text(Zeros(n) + ds)
  {
    AlphabetAt(0);
  }

  method EncodeShared(bytes: seq<byte>) returns (s: string)
    ensures s == EncodedShared(bytes)
  {
    var digits := Base58Digits(bytes);
    var zeros := 0;
    while zeros < |bytes| && bytes[zeros] == 0
      invariant zeros <= |bytes|
      invariant forall j :: 0 <= j < zeros ==> bytes[j] == 0
    {
      zeros := zeros + 1;
    }
    if zeros < |bytes| { LeadingZerosUnique(bytes, zeros); }
    s := Ones(zeros) + Text(Reverse(digits));
    PaddedText(zeros, Reverse(digits));
  }

  method EncodeCore(bytes: seq<byte>) returns (s: string)
    ensures s == EncodedCore(bytes)
  {
    if |bytes| == 0 {
      return "";
    }
    if forall i :: 0 <= i < |bytes| ==> bytes[i] == 0 {
      return Ones(|bytes|);
    }
    s := EncodeShared(bytes);
  }

  // ---------------------------------------------------------------- theorems

  lemma OnesAreText(n: nat)
    ensures Ones(n) == Text(Zeros(n))
  {
  }

  /** Decoding an encoded byte string gives it back exactly when it has a nonzero byte. */
  lemma DecodeEncode(bytes: seq<byte>)
    ensures Decoded(EncodedCore(bytes)) == Success(bytes) <==> HasNonzero(bytes)
  {
    if HasNonzero(bytes) {
      IndicesOfText(Convert(bytes, 256, 58));
      ConvertRoundTrip(bytes, 256, 58);
    } else {
      OnesAreText(|bytes|);
      IndicesOfText(Zeros(|bytes|));
      ConvertAllZero(Zeros(|bytes|), 58, 256);
    }
  }

  /** An all-`1` text of length n decodes to n + 1 zero bytes. */
  lemma DecodeAllOnes(n: nat)
    ensures Decoded(Ones(n)) == Success(Zeros(n + 1))
  {
    OnesAreText(n);
    IndicesOfText(Zeros(n));
    ConvertAllZero(Zeros(n), 58, 256);
  }

  /** Encoding a decoded text gives it back exactly when it has a character other than `1`. */
  lemma EncodeDecode(s: string)
    requires Decoded(s).Success?
    ensures EncodedCore(Decoded(s).value) == s <==> exists i :: 0 <= i < |s| && s[i] != '1'
  {
    var ds := Indices(s);
    forall j | 0 <= j < |s| ensures ds[j] == 0 <==> s[j] == '1' {
      if s[j] == '1' { AlphabetInjective(ds[j], 0); }
    }
    if i :| 0 <= i < |s| && s[i] != '1' {
      assert HasNonzero(ds);
      ConvertRoundTrip(ds, 58, 256);
      var bytes := Convert(ds, 58, 256);
      if !HasNonzero(bytes) {
        ConvertAllZero(bytes, 256, 58);
        assert false;
      }
      TextOfIndices(s);
    } else {
      assert s == Ones(|s|);
      DecodeAllOnes(|s|);
      assert |EncodedCore(Decoded(s).value)| == |s| + 1;
    }
  }

  /** The two encoder copies agree on a byte string exactly when it has a nonzero byte. */
  lemma EncodersAgree(bytes: seq<byte>)
    ensures EncodedCore(bytes) == EncodedShared(bytes) <==> HasNonzero(bytes)
  {
    if !HasNonzero(bytes) {
      ConvertAllZero(bytes, 256, 58);
    }
  }

  /** An ASCII digit or letter other than 0, I, O and l. */
  predicate IsBase58(c: char) {
    '1' <= c <= '9' || ('A' <= c <= 'Z' && c != 'I' && c != 'O') || ('a' <= c <= 'z' && c != 'l')
  }

  lemma HasDigit(c: char)
    ensures IndexFrom(c, 0).Some? <==> IsBase58(c)
  {
    IndexIsDigit(c);
  }

  /** A text decodes exactly when all its characters are base58 digits. */
  lemma DecodesExactly(s: string)
    ensures Decoded(s).Success? <==> forall i :: 0 <= i < |s| ==> IsBase58(s[i])
  {
    forall i | 0 <= i < |s| ensures IndexFrom(s[i], 0).Some? <==> IsBase58(s[i]) {
      HasDigit(s[i]);
    }
  }

  lemma OneDigitNumeral(d: nat)
    requires 0 < d < 58
    ensures Convert([d], 58, 256) == [d]
  {
    assert Value([d], 58) == d by { assert [d][..0] == []; }
    assert Digits(d, 256) == [d] by { assert d / 256 == 0 && d % 256 == d; }
    assert Reverse([d]) == [d];
    assert LeadingZeros([d]) == 0 && Zeros(0) == [];
  }

  /** One character decodes to its digit; `1`, the digit zero, is kept as a leading zero besides. */
  lemma DecodeOne(c: char)
    ensures Decoded([c]) == if c == '1' then Success([0, 0])
                            else if DigitOf(c).Some? then Success([DigitOf(c).value])
                            else Failure(InvalidCharacter)
  {
    IndexIsDigit(c);
    if DigitOf(c).Some? {
      var d := DigitOf(c).value;
      assert Indices([c]) == [d];
      if d > 0 {
        OneDigitNumeral(d);
      } else {
        ConvertAllZero([d], 58, 256);
        assert Zeros(2) == [0, 0];
      }
    }
  }

  /** Every encoded text consists of base58 digits. */
  lemma EncodedIsBase58(bytes: seq<byte>, i: nat)
    requires i < |EncodedCore(bytes)|
    ensures IsBase58(EncodedCore(bytes)[i])
  {
    if HasNonzero(bytes) {
      DecodeEncode(bytes);
      DecodesExactly(EncodedCore(bytes));
    }
  }

  // ---------------------------------------------------------------- address normalisation

  method NormalizeCore(value: string) returns (r: Result<string, AddressError>)
    ensures r == NormalizedCore(value)
  {
    var trimmed := Trim(value);
    if trimmed == "" {
      return Failure(EmptyAddress);
    }
    var decoded := Decode(trimmed);
    if decoded.Failure? || |decoded.value| != 32 {
      return Failure(InvalidAddress);
    }
    var encoded := EncodeCore(decoded.value);
    r := Success(encoded);
  }

  function NormalizedCore(value: string): Result<string, AddressError> {
    var trimmed := Trim(value);
    if trimmed == "" then Failure(EmptyAddress)
    else if Decoded(trimmed).Failure? || |Decoded(trimmed).value| != 32 then Failure(InvalidAddress)
    else Success(EncodedCore(Decoded(trimmed).value))
  }

  method NormalizeShared(value: string) returns (r: Result<string, AddressError>)
    ensures r == NormalizedShared(value)
  {
    var trimmed := Trim(value);
    if trimmed == "" {
      return Failure(EmptyAddress);
    }
    var decoded := Decode(trimmed);
    if decoded.Failure? || |decoded.value| != 32 {
      return Failure(InvalidAddress);
    }
    r := Success(trimmed);
  }

  function NormalizedShared(value: string): Result<string, AddressError> {
    var trimmed := Trim(value);
    if trimmed == "" then Failure(EmptyAddress)
    else if Decoded(trimmed).Failure? || |Decoded(trimmed).value| != 32 then Failure(InvalidAddress)
    else Success(trimmed)
  }

  /**
    The two normalisers accept the same inputs, and on an accepted input they return the same text exactly
    when it is not the one accepted all-`1` text, which has 31 characters.
  */
  lemma NormalizersAgree(value: string)
    ensures NormalizedCore(value).Success? <==> NormalizedShared(value).Success?
    ensures NormalizedCore(value).Failure? ==> NormalizedCore(value) == NormalizedShared(value)
    ensures NormalizedCore(value).Success? ==>
              (NormalizedCore(value) == NormalizedShared(value) <==> Trim(value) != Ones(31))
  {
    var t := Trim(value);
    if NormalizedCore(value).Success? {
      EncodeDecode(t);
      if forall i :: 0 <= i < |t| ==> t[i] == '1' {
        assert t == Ones(|t|);
        DecodeAllOnes(|t|);
      } else if t == Ones(31) {
        assert false;
      }
    }
  }

  /**
    Accepted are exactly the encodings of 32 bytes that are not all zero, which come back as they are, and the text
    of 31 ones, which comes back with one more; refused as empty is exactly white space.
  */
  lemma NormalizesExactly(value: string)
    ensures NormalizedCore(value) == Failure(EmptyAddress) <==> AllSpace(value)
    ensures NormalizedCore(value).Success? <==>
              Trim(value) == Ones(31)
              || exists bytes: seq<byte> :: |bytes| == 32 && HasNonzero(bytes) && EncodedCore(bytes) == Trim(value)
    ensures NormalizedCore(value).Success? ==>
              NormalizedCore(value).value == if Trim(value) == Ones(31) then Ones(32) else Trim(value)
  {
    var t := Trim(value);
    DecodeAllOnes(31);
    AllOnesAddressRejected();
    if NormalizedCore(value).Success? && t != Ones(31) {
      AcceptedIsEncoded(t);
    }
    if bytes: seq<byte> :| |bytes| == 32 && HasNonzero(bytes) && EncodedCore(bytes) == t {
      DecodeEncode(bytes);
      assert t != "";
    }
  }

  lemma AcceptedIsEncoded(t: string)
    requires Decoded(t).Success? && |Decoded(t).value| == 32 && t != Ones(31)
    ensures var bytes := Decoded(t).value; HasNonzero(bytes) && EncodedCore(bytes) == t
  {
    EncodeDecode(t);
    if forall i :: 0 <= i < |t| ==> t[i] == '1' {
      assert t == Ones(|t|);
      DecodeAllOnes(|t|);
      assert false;
    }
    DecodeEncode(Decoded(t).value);
  }

  /** The address of 32 ones, which stands for 32 zero bytes, decodes to 33 bytes and is rejected. */
  lemma AllOnesAddressRejected()
    ensures EncodedCore(Zeros(32)) == Ones(32)
    ensures NormalizedCore(Ones(32)) == Failure(InvalidAddress)
    ensures NormalizedShared(Ones(32)) == Failure(InvalidAddress)
  {
    DecodeAllOnes(32);
    assert Trim(Ones(32)) == Ones(32);
  }

  /** Normalising twice is normalising once exactly when the trimmed input is not the 31-character text of ones. */
  lemma NormalizeIdempotent(value: string)
    requires NormalizedCore(value).Success?
    ensures NormalizedCore(NormalizedCore(value).value) == NormalizedCore(value) <==> Trim(value) != Ones(31)
  {
    NormalizersAgree(value);
    var t := Trim(value);
    if t != Ones(31) {
      assert Trim(t) == t;
    } else {
      DecodeAllOnes(31);
      AllOnesAddressRejected();
    }
  }
}
