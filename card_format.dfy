/**
 * The card-number scheme of the virtual-card engine: sixteen characters,
 * the literal prefix "8948", eight random digits, the literal suffix "2241";
 * the format check; and the Luhn check-digit helper.
 */
module CardFormat {
  import opened Text

  const Prefix: string := "8948"
  const Suffix: string := "2241"
  const CardNumberLength := 16

  /** The eight random digits drawn for one candidate number. */
  type Infix = s: seq<Digit> | |s| == 8 witness [0, 0, 0, 0, 0, 0, 0, 0]

  /** `generate_card_number_raw`, with the eight random draws as its input. */
  function GenerateCardNumberRaw(middle: Infix): (n: string)
    ensures |n| == CardNumberLength
  {
    Prefix + DigitString(middle) + Suffix
  }

  /**
   * `validate_card_format`: non-empty, sixteen characters, the prefix, the
   * suffix, and digits in positions 4..11.
   */
  predicate ValidateCardFormat(n: string)
    ensures ValidateCardFormat(n) ==> |n| == CardNumberLength && IsDigits(n)
  {
    if n == [] || |n| != CardNumberLength then false
    else if n[..4] != Prefix then false
    else if n[12..] != Suffix then false
    else IsDigits(n[4..12])
  }

  /** The eight digits a well-formed number carries. */
  function InfixOf(n: string): (m: Infix)
    requires ValidateCardFormat(n)
  {
    DigitsOf(n[4..12])
  }

  /** Every generated candidate passes the format check. */
  lemma GeneratedNumbersAreWellFormed(middle: Infix)
    ensures ValidateCardFormat(GenerateCardNumberRaw(middle))
  {
    var n := GenerateCardNumberRaw(middle);
    assert n[..4] == Prefix;
    assert n[12..] == Suffix;
    assert n[4..12] == DigitString(middle);
  }

  /** Every number that passes the format check is the candidate for its own infix. */
  lemma WellFormedNumbersAreGenerated(n: string)
    requires ValidateCardFormat(n)
    ensures GenerateCardNumberRaw(InfixOf(n)) == n
  {
    var m := InfixOf(n);
    assert DigitString(m) == n[4..12];
    assert n == n[..4] + n[4..12] + n[12..];
  }

  /** The format check accepts exactly the numbers the generator can produce. */
  lemma FormatAcceptsExactlyGenerated(n: string)
    ensures ValidateCardFormat(n) <==> exists m: Infix :: GenerateCardNumberRaw(m) == n
  {
    if ValidateCardFormat(n) {
      WellFormedNumbersAreGenerated(n);
    }
    if m: Infix :| GenerateCardNumberRaw(m) == n {
      GeneratedNumbersAreWellFormed(m);
    }
  }

  /** Distinct draws give distinct numbers. */
  lemma GenerateCardNumberRawInjective(a: Infix, b: Infix)
    requires GenerateCardNumberRaw(a) == GenerateCardNumberRaw(b)
    ensures a == b
  {
    var na, nb := GenerateCardNumberRaw(a), GenerateCardNumberRaw(b);
    assert na[4..12] == DigitString(a);
    assert nb[4..12] == DigitString(b);
    forall i | 0 <= i < 8 ensures a[i] == b[i] {
      assert DigitChar(a[i]) == DigitString(a)[i];
    }
  }

  // ---------------------------------------------------------------------
  // Luhn check digit

  function Sum(xs: seq<int>): int {
    if xs == [] then 0 else xs[0] + Sum(xs[1..])
  }

  /** `sum(digits_of(d * 2))`: the digit sum of a doubled digit. */
  function DoubledDigitSum(d: Digit): Digit {
    if 2 * d >= 10 then 2 * d - 9 else 2 * d
  }

  /** `digits[-1::-2]`: the last digit, then every second one going left. */
  function EveryOtherFromRight(ds: seq<Digit>): (r: seq<Digit>)
    ensures |r| == (|ds| + 1) / 2
    decreases |ds|
  {
    if ds == [] then []
    else [ds[|ds| - 1]] + EveryOtherFromRight(if |ds| >= 2 then ds[..|ds| - 2] else [])
  }

  /** `digits[-2::-2]`. */
  function SecondEveryOtherFromRight(ds: seq<Digit>): seq<Digit> {
    if ds == [] then [] else EveryOtherFromRight(ds[..|ds| - 1])
  }

  function SumDoubled(ds: seq<Digit>): int {
    if ds == [] then 0 else DoubledDigitSum(ds[0]) + SumDoubled(ds[1..])
  }

  /** The `checksum` that `calculate_luhn_check_digit` accumulates. */
  function Checksum(ds: seq<Digit>): int {
    Sum(EveryOtherFromRight(ds)) + SumDoubled(SecondEveryOtherFromRight(ds))
  }

  /**
   * The Luhn sum as ISO/IEC 7812-1 Annex B defines it, walking from the
   * rightmost digit and doubling every second one; `doubleThis` says
   * whether the rightmost digit of `ds` is one of the doubled ones.
   */
  function LuhnSum(ds: seq<Digit>, doubleThis: bool): nat {
    if ds == [] then 0
    else
      (if doubleThis then DoubledDigitSum(ds[|ds| - 1]) else ds[|ds| - 1])
        + LuhnSum(ds[..|ds| - 1], !doubleThis)
  }

  /** A complete number (check digit last) is Luhn-valid. */
  predicate LuhnValid(ds: seq<Digit>) {
    LuhnSum(ds, false) % 10 == 0
  }

  /**
   * `calculate_luhn_check_digit` as written: the digit that brings the
   * checksum of its input, rightmost digit undoubled, to a multiple of ten.
   */
  function CalculateLuhnCheckDigit(ds: seq<Digit>): (r: Digit)
    ensures (Checksum(ds) + r) % 10 == 0
  {
    (10 - Checksum(ds) % 10) % 10
  }

  /** The code's split into odd and even positions is the Luhn sum with the rightmost digit undoubled. */
  lemma {:induction false} ChecksumIsLuhnSum(ds: seq<Digit>)
    ensures Checksum(ds) == LuhnSum(ds, false)
  {
    var n := |ds|;
    if n == 1 {
      assert ds[..0] == [];
      assert EveryOtherFromRight(ds) == [ds[0]];
      assert SecondEveryOtherFromRight(ds) == [];
      assert Sum([ds[0]]) == ds[0] + Sum([]);
    } else if n >= 2 {
      var rest := ds[..n - 2];
      assert ds[..n - 1][..n - 2] == rest;
      ChecksumIsLuhnSum(rest);
      assert EveryOtherFromRight(ds) == [ds[n - 1]] + EveryOtherFromRight(rest);
      assert SecondEveryOtherFromRight(ds) == [ds[n - 2]] + SecondEveryOtherFromRight(rest) by {
        if n == 2 {
          assert ds[..n - 1] == [ds[0]];
        } else {
          assert ds[..n - 1][..n - 3] == rest[..n - 3];
        }
      }
    }
  }

  /** The digit the code returns completes its input under the Luhn sum with the input's last digit undoubled. */
  lemma CheckDigitCompletesUndoubledSum(ds: seq<Digit>)
    ensures (LuhnSum(ds, false) + CalculateLuhnCheckDigit(ds)) % 10 == 0
  {
    ChecksumIsLuhnSum(ds);
  }

  /**
   * The check digit of ISO/IEC 7812-1 Annex B for a payload: the rightmost
   * payload digit is doubled, because the check digit will stand right of it.
   */
  function IsoLuhnCheckDigit(payload: seq<Digit>): (r: Digit)
    ensures (LuhnSum(payload, true) + r) % 10 == 0
  {
    (10 - LuhnSum(payload, true) % 10) % 10
  }

  /** Appending a digit on the right shifts every earlier digit's doubling. */
  lemma LuhnSumAppend(ds: seq<Digit>, d: Digit)
    ensures LuhnSum(ds + [d], false) == d + LuhnSum(ds, true)
    ensures LuhnSum(ds + [d], true) == DoubledDigitSum(d) + LuhnSum(ds, false)
  {
    assert (ds + [d])[..|ds|] == ds;
  }

  /** Appending the ISO check digit gives a Luhn-valid number. */
  lemma IsoCheckDigitCompletesNumber(payload: seq<Digit>)
    ensures LuhnValid(payload + [IsoLuhnCheckDigit(payload)])
  {
    var d := IsoLuhnCheckDigit(payload);
    LuhnSumAppend(payload, d);
    var total := LuhnSum(payload, true);
    var r := total % 10;
    assert total == 10 * (total / 10) + r;
    if r == 0 {
      assert d + total == 10 * (total / 10);
    } else {
      assert d + total == 10 * (total / 10 + 1);
    }
  }

  /** The ISO digit is what the code computes on the payload shifted one place left. */
  lemma IsoCheckDigitIsShiftedCodeDigit(payload: seq<Digit>)
    ensures IsoLuhnCheckDigit(payload) == CalculateLuhnCheckDigit(payload + [0])
  {
    ChecksumIsLuhnSum(payload + [0]);
    LuhnSumAppend(payload, 0);
  }

  lemma PayloadHeadSums()
    ensures LuhnSum([7, 9, 9, 2, 7], false) == 36
    ensures LuhnSum([7, 9, 9, 2, 7], true) == 30
  {
    // the payload built digit by digit, with its two Luhn sums after each step
    var p: seq<Digit> := [];
    LuhnSumAppend(p, 7); p := p + [7];
    assert LuhnSum(p, false) == 7 && LuhnSum(p, true) == 5;
    LuhnSumAppend(p, 9); p := p + [9];
    assert LuhnSum(p, false) == 14 && LuhnSum(p, true) == 16;
    LuhnSumAppend(p, 9); p := p + [9];
    assert LuhnSum(p, false) == 25 && LuhnSum(p, true) == 23;
    LuhnSumAppend(p, 2); p := p + [2];
    assert LuhnSum(p, false) == 25 && LuhnSum(p, true) == 29;
    LuhnSumAppend(p, 7); p := p + [7];
    assert LuhnSum(p, false) == 36 && LuhnSum(p, true) == 30;
    assert p == [7, 9, 9, 2, 7];
  }

  /** The ten-digit payload of the counterexample below. */
  const SamplePayload: seq<Digit> := [7, 9, 9, 2, 7, 3, 9, 8, 7, 1]

  lemma PayloadSums()
    ensures LuhnSum(SamplePayload, false) == 56
    ensures LuhnSum(SamplePayload, true) == 67
  {
    PayloadHeadSums();
    var p: seq<Digit> := [7, 9, 9, 2, 7];
    LuhnSumAppend(p, 3); p := p + [3];
    assert LuhnSum(p, false) == 33 && LuhnSum(p, true) == 42;
    LuhnSumAppend(p, 9); p := p + [9];
    assert LuhnSum(p, false) == 51 && LuhnSum(p, true) == 42;
    LuhnSumAppend(p, 8); p := p + [8];
    assert LuhnSum(p, false) == 50 && LuhnSum(p, true) == 58;
    LuhnSumAppend(p, 7); p := p + [7];
    assert LuhnSum(p, false) == 65 && LuhnSum(p, true) == 55;
    LuhnSumAppend(p, 1); p := p + [1];
    assert LuhnSum(p, false) == 56 && LuhnSum(p, true) == 67;
    assert p == SamplePayload;
  }

  /**
   * For the payload 7992739871 the code returns 4, but 79927398714 fails
   * the Luhn check; the ISO digit is 3.
   */
  lemma CodeCheckDigitIsNotIsoDigit()
    ensures CalculateLuhnCheckDigit(SamplePayload) == 4
    ensures !LuhnValid(SamplePayload + [4])
    ensures IsoLuhnCheckDigit(SamplePayload) == 3
  {
    PayloadSums();
    ChecksumIsLuhnSum(SamplePayload);
    LuhnSumAppend(SamplePayload, 4);
  }
}
