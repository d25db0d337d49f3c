/**
 * What a profile's bit mask stands for: a text is parsed, a number is taken as it is in Python,
 * and passes through a 64-bit float in Go.
 */
module Masks {
  import opened Prelude
  import opened Bits

  /** The two forms the profile schema admits. */
  datatype Mask = TextMask(text: string) | NumberMask(n: int)

  const WORD_LIMIT := 0x1_0000_0000_0000_0000

  type Word = w: int | 0 <= w < WORD_LIMIT

  // ------------------------------------------------------------------ integer literals

  // Python's int() refuses to convert a decimal text of more digits.
  const DIGIT_LIMIT := 4300

  // 36 for a character that is no digit in any base.
  function DigitOf(c: char): (d: nat)
    ensures d <= 36
  {
    if '0' <= c <= '9' then (c - '0') as int
    else if 'a' <= c <= 'z' then (c - 'a') as int + 10
    else if 'A' <= c <= 'Z' then (c - 'A') as int + 10
    else 36
  }

  /** The text without its last digit, and without the underscore that may stand before it. */
  function Shorter(s: string): (r: string)
    requires s != ""
    ensures |r| < |s| && r <= s
  {
    if |s| >= 2 && s[|s| - 2] == '_' then s[..|s| - 2] else s[..|s| - 1]
  }

  /** One or more digits with single underscores between them. */
  function Digits(s: string, base: nat): Option<nat>
    decreases |s|
  {
    if s == "" || DigitOf(s[|s| - 1]) >= base then None
    else if |s| == 1 then Some(DigitOf(s[0]))
    else
      var before := Digits(Shorter(s), base);
      if before.None? then None else Some(base * before.value + DigitOf(s[|s| - 1]))
  }

  function DigitCount(s: string): nat {
    if s == "" then 0 else DigitCount(s[..|s| - 1]) + if s[|s| - 1] == '_' then 0 else 1
  }

  function PrefixBase(s: string): Option<nat> {
    if |s| < 3 || s[0] != '0' then None
    else match s[1]
      case 'x' | 'X' => Some(16)
      case 'o' | 'O' => Some(8)
      case 'b' | 'B' => Some(2)
      case _ => None
  }

  // One underscore may follow the prefix.
  function Prefixed(s: string, base: nat): Option<nat>
    requires |s| >= 3
  {
    Digits(if s[2] == '_' then s[3..] else s[2..], base)
  }

  /** A zero in front of other digits. */
  predicate ZeroLed(s: string) {
    s != "" && s[0] == '0' && PrefixBase(s).None?
  }

  // strconv.ParseUint(s, 0, 64): a leading zero means base 8.
  function GoText(s: string): (r: Option<nat>)
    ensures r.Some? ==> r.value < WORD_LIMIT
  {
    var parsed :=
      if PrefixBase(s).Some? then Prefixed(s, PrefixBase(s).value)
      else if ZeroLed(s) then Digits(s, 8)
      else Digits(s, 10);
    if parsed.Some? && parsed.value < WORD_LIMIT then parsed else None
  }

  predicate IsSpace(c: char) {
    c == ' ' || '\t' <= c <= '\r'
  }

  function Stripped(s: string): (r: string)
    ensures r != "" ==> !IsSpace(r[0]) && !IsSpace(r[|r| - 1])
    ensures |r| <= |s| && (|r| == |s| ==> r == s)
    decreases |s|
  {
    if s == "" then ""
    else if IsSpace(s[0]) then Stripped(s[1..])
    else if IsSpace(s[|s| - 1]) then Stripped(s[..|s| - 1])
    else s
  }

  // A leading zero is allowed before zeros only.
  function PythonUnsigned(s: string): Option<nat> {
    if PrefixBase(s).Some? then Prefixed(s, PrefixBase(s).value)
    else
      var parsed := Digits(s, 10);
      if parsed.None? || DigitCount(s) > DIGIT_LIMIT || (ZeroLed(s) && parsed.value != 0) then None else parsed
  }

  // int(s, 0), of a text of ASCII characters.
  function PythonText(s: string): Option<int> {
    var bare := Stripped(s);
    if bare == "" then None
    else if bare[0] == '+' || bare[0] == '-' then
      var magnitude := PythonUnsigned(bare[1..]);
      if magnitude.None? then None
      else
        var n: int := magnitude.value;
        Some(if bare[0] == '-' then -n else n)
    else PythonUnsigned(bare)
  }

  // ------------------------------------------------------------------ where the two parsers agree

  /** No space around it and no sign. */
  predicate Bare(s: string) {
    s != "" && !IsSpace(s[0]) && !IsSpace(s[|s| - 1]) && s[0] != '+' && s[0] != '-'
  }

  lemma DigitsAreDigits(s: string, base: nat)
    requires Digits(s, base).Some? && base <= 36
    ensures s != "" && DigitOf(s[0]) < base && DigitOf(s[|s| - 1]) < base
    decreases |s|
  {
    if |s| > 1 { DigitsAreDigits(Shorter(s), base); }
  }

  lemma PrefixedEndsInDigit(s: string, base: nat)
    requires |s| >= 3 && base <= 36 && Prefixed(s, base).Some?
    ensures DigitOf(s[|s| - 1]) < base
  {
    DigitsAreDigits(if s[2] == '_' then s[3..] else s[2..], base);
  }

  lemma UnsignedIsBare(s: string)
    requires PythonUnsigned(s).Some? || GoText(s).Some?
    ensures Bare(s)
  {
    if PrefixBase(s).Some? {
      PrefixedEndsInDigit(s, PrefixBase(s).value);
    } else if Digits(s, 10).Some? {
      DigitsAreDigits(s, 10);
    } else {
      DigitsAreDigits(s, 8);
    }
  }

  lemma BareIsUnsigned(s: string)
    requires Bare(s)
    ensures PythonText(s) == PythonUnsigned(s)
  {
    assert Stripped(s) == s;
  }

  lemma NoTermIsPositive(b: nat, x: nat, d: nat)
    requires b > 0 && b * x + d == 0
    ensures x == 0 && d == 0
  {
    assert b * x >= x;
  }

  /** In whichever base digits are zero, they are zero in all. */
  lemma {:induction false} ZeroInEveryBase(s: string, b: nat, c: nat)
    requires 0 < b <= 36 && 0 < c <= 36 && Digits(s, b) == Some(0)
    ensures Digits(s, c) == Some(0)
    decreases |s|
  {
    if |s| > 1 {
      NoTermIsPositive(b, Digits(Shorter(s), b).value, DigitOf(s[|s| - 1]));
      ZeroInEveryBase(Shorter(s), b, c);
    }
  }

  function Pow10(k: nat): (p: nat)
    ensures p >= 1
  {
    if k == 0 then 1 else 10 * Pow10(k - 1)
  }

  lemma CountOfShorter(s: string)
    requires |s| >= 2 && s[|s| - 1] != '_'
    ensures DigitCount(s) == DigitCount(Shorter(s)) + 1
  {
    if s[|s| - 2] == '_' {
      assert s[..|s| - 1][..|s| - 2] == Shorter(s);
    }
  }

  /** A number with no leading zero is at least ten to the number of further digits. */
  lemma {:induction false} ManyDigitsAreLarge(s: string)
    requires Digits(s, 10).Some? && s[0] != '0'
    ensures DigitCount(s) >= 1 && Digits(s, 10).value >= Pow10(DigitCount(s) - 1)
    decreases |s|
  {
    if |s| == 1 {
      assert s[..0] == "" && DigitCount(s) == 1;
    } else {
      DigitsAreDigits(Shorter(s), 10);
      ManyDigitsAreLarge(Shorter(s));
      CountOfShorter(s);
    }
  }

  lemma FourMoreDigits(k: nat)
    ensures Pow10(k + 4) == 10000 * Pow10(k)
  {
    assert Pow10(k + 4) == 10 * Pow10(k + 3) == 100 * Pow10(k + 2) == 1000 * Pow10(k + 1);
  }

  lemma {:induction false} TwentyDigitsFillAWord(k: nat)
    requires k >= 20
    ensures Pow10(k) >= WORD_LIMIT
    decreases k
  {
    if k == 20 {
      FourMoreDigits(16);
      FourMoreDigits(12);
      FourMoreDigits(8);
      FourMoreDigits(4);
      FourMoreDigits(0);
    } else {
      TwentyDigitsFillAWord(k - 1);
    }
  }

  lemma SmallNumbersAreShort(s: string)
    requires Digits(s, 10).Some? && s[0] != '0' && Digits(s, 10).value < WORD_LIMIT
    ensures DigitCount(s) <= 20
  {
    ManyDigitsAreLarge(s);
    if DigitCount(s) > 20 { TwentyDigitsFillAWord(DigitCount(s) - 1); }
  }

  /**
   * Of the texts Go accepts, Python reads differently exactly those with a zero in front of a
   * number, and very long zeros.
   */
  lemma AcceptedTextsReadAlike(s: string)
    requires GoText(s).Some?
    ensures PythonText(s) == GoText(s) <==> (ZeroLed(s) ==> GoText(s) == Some(0) && DigitCount(s) <= DIGIT_LIMIT)
  {
    UnsignedIsBare(s);
    BareIsUnsigned(s);
    if ZeroLed(s) {
      if Digits(s, 8) == Some(0) { ZeroInEveryBase(s, 8, 10); }
      if Digits(s, 10) == Some(0) { ZeroInEveryBase(s, 10, 8); }
    } else if PrefixBase(s).None? {
      SmallNumbersAreShort(s);
    }
  }

  /** Of the texts Python accepts, Go refuses exactly those with a sign, with space around them, or over 64 bits. */
  lemma RefusedTexts(s: string)
    requires PythonText(s).Some?
    ensures GoText(s) == PythonText(s) <==> Bare(s) && PythonText(s).value < WORD_LIMIT
    ensures GoText(s).None? || GoText(s) == PythonText(s)
  {
    if Bare(s) {
      BareIsUnsigned(s);
      if ZeroLed(s) { ZeroInEveryBase(s, 10, 8); }
    } else if GoText(s).Some? {
      UnsignedIsBare(s);
    }
  }

  // ------------------------------------------------------------------ numbers as 64-bit floats

  const SIGNIFICANT := 0x20_0000_0000_0000

  /** How many low bits a 64-bit float has no room for. */
  function Excess(m: nat): nat {
    if m < SIGNIFICANT then 0 else 1 + Excess(m / 2)
  }

  // To the nearest float, of two equally near ones to the even one.
  function Rounded(m: nat): (r: int) {
    var e := Excess(m);
    var kept, rest := Shr(m, e), Low(m, e);
    if 2 * rest > Pow2(e) || (2 * rest == Pow2(e) && kept % 2 == 1) then (kept + 1) * Pow2(e) else kept * Pow2(e)
  }

  function AsFloat(n: int): int {
    if n < 0 then -Rounded(-n) else Rounded(n)
  }

  const FLOAT_BITS: nat := 1024

  // json.Unmarshal refuses a number that no float is near to.
  predicate Overflows(n: int) {
    AsFloat(n) >= Pow2(FLOAT_BITS) || -AsFloat(n) >= Pow2(FLOAT_BITS)
  }

  /**
   * The word the Go decoder masks with. What a float outside the word's range converts to is left
   * to the machine.
   */
  function GoMask(mask: Mask, beyond: int -> Word): (r: Option<int>)
    ensures r.Some? ==> 0 <= r.value < WORD_LIMIT
  {
    match mask
    case TextMask(text) => GoText(text)
    case NumberMask(n) =>
      var f := AsFloat(n);
      if Overflows(n) then None else if 0 <= f < WORD_LIMIT then Some(f) else Some(beyond(f))
  }

  function PythonMask(mask: Mask): Option<int> {
    match mask
    case TextMask(text) => PythonText(text)
    case NumberMask(n) => Some(n)
  }

  lemma {:induction false} ExcessLeaves53Bits(m: nat)
    ensures 0 <= Shr(m, Excess(m)) < SIGNIFICANT
    ensures Excess(m) > 0 ==> 2 * Shr(m, Excess(m)) >= SIGNIFICANT
    decreases m
  {
    if m >= SIGNIFICANT { ExcessLeaves53Bits(m / 2); }
  }

  predicate Scaled(m: nat, q: nat, e: nat) {
    q <= SIGNIFICANT && m == q * Pow2(e)
  }

  /** A number of at most 53 significant bits. */
  ghost predicate IsFloat(m: nat) {
    exists q, e :: Scaled(m, q, e)
  }

  /** Rounded to `q` places of size `p`, up or down. */
  lemma RoundingStep(m: nat, kept: nat, rest: nat, p: nat)
    requires m == kept * p + rest && rest < p
    ensures 0 <= kept * p <= m < (kept + 1) * p && (kept + 1) * p - m == p - rest
  {}

  /** Rounding gives a float, off by at most half of its last place. */
  lemma RoundedIsNearest(m: nat)
    ensures var r := Rounded(m);
      && r >= 0 && IsFloat(r) && 2 * (r - m) <= Pow2(Excess(m)) && 2 * (m - r) <= Pow2(Excess(m))
  {
    var e := Excess(m);
    ExcessLeaves53Bits(m);
    LowAndShr(m, e);
    RoundingStep(m, Shr(m, e), Low(m, e), Pow2(e));
    assert Scaled(Rounded(m), Shr(m, e), e) || Scaled(Rounded(m), Shr(m, e) + 1, e);
  }

  lemma {:induction false} NothingInExcess(q: nat, e: nat)
    requires q <= SIGNIFICANT
    ensures q * Pow2(e) >= 0 && Low(q * Pow2(e), Excess(q * Pow2(e))) == 0
    decreases e
  {
    if e > 0 {
      DoubleProduct(q, Pow2(e - 1));
      NothingInExcess(q, e - 1);
      assert (q * Pow2(e)) / 2 == q * Pow2(e - 1);
    } else if q == SIGNIFICANT {
      assert Excess(q) == 1 + Excess(q / 2) == 1;
      assert Low(q, 1) == 2 * Low(q / 2, 0) + q % 2;
    }
  }

  /** Halfway between two floats it is the one whose last place is even. */
  lemma TiesGoToEven(m: nat)
    requires 2 * Low(m, Excess(m)) == Pow2(Excess(m))
    ensures exists half :: Rounded(m) == 2 * half * Pow2(Excess(m))
  {
    var e := Excess(m);
    var kept := Shr(m, e);
    var even := if kept % 2 == 1 then kept + 1 else kept;
    assert Rounded(m) == even * Pow2(e) && even == 2 * (even / 2);
  }

  /** What has at most 53 significant bits is kept, and nothing else is. */
  lemma KeptExactly(m: nat)
    ensures Rounded(m) == m <==> IsFloat(m)
  {
    RoundedIsNearest(m);
    if IsFloat(m) {
      var q, e :| Scaled(m, q, e);
      NothingInExcess(q, e);
      LowAndShr(m, Excess(m));
    }
  }

  // ------------------------------------------------------------------ the largest float

  lemma {:induction false} ExcessOfLarge(m: nat, i: nat)
    ensures Excess(m) > i <==> m >= SIGNIFICANT * Pow2(i)
    decreases i
  {
    if i > 0 {
      DoubleProduct(SIGNIFICANT, Pow2(i - 1));
      if m >= SIGNIFICANT { ExcessOfLarge(m / 2, i - 1); }
      assert SIGNIFICANT * Pow2(i) >= SIGNIFICANT;
    }
  }

  lemma MulOrder(a: nat, b: nat, c: nat)
    requires a <= b
    ensures a * c <= b * c
  {}

  lemma LargeStaysLarge(top: nat, kept: nat, p: nat, q: nat)
    requires 2 * kept >= top && p >= 2 * q
    ensures kept * p >= top * q
  {
    MulOrder(2 * q, p, kept);
    MulOrder(top, 2 * kept, q);
    assert kept * p >= kept * (2 * q) == (2 * kept) * q;
  }

  lemma SmallStaysSmall(top: nat, kept: nat, p: nat, q: nat)
    requires kept < top && p <= q
    ensures (kept + 1) * p <= top * q
  {
    MulOrder(kept + 1, top, p);
    MulOrder(p, q, top);
  }

  lemma LastPlace(top: nat, kept: nat, rest: nat, h: nat)
    requires kept < top && rest < 2 * h
    ensures kept * (2 * h) + rest >= top * (2 * h) - h <==> kept == top - 1 && rest >= h
    ensures (kept + 1) * (2 * h) >= top * (2 * h) <==> kept == top - 1
    ensures kept * (2 * h) < top * (2 * h)
  {
    var p := 2 * h;
    if kept == top - 1 {
      assert kept * p == top * p - p;
    } else {
      MulOrder(kept + 2, top, p);
      assert (kept + 2) * p == kept * p + p + p == (kept + 1) * p + p;
    }
  }

  lemma BelowTheTop(top: nat, m: nat, h: nat)
    requires m < top * h && top > 0
    ensures m < top * (2 * h) - h && top * h < top * (2 * h)
  {
    assert top * (2 * h) == top * h + top * h;
    MulOrder(1, top, h);
    assert h > 0;
  }

  /** Rounding reaches 2^(53 + i) from half a last place below it. */
  lemma RoundedReaches(m: nat, i: nat)
    requires i > 0
    ensures Rounded(m) >= SIGNIFICANT * Pow2(i) <==> m >= SIGNIFICANT * Pow2(i) - Pow2(i - 1)
  {
    var e := Excess(m);
    ExcessOfLarge(m, i);
    ExcessOfLarge(m, i - 1);
    ExcessLeaves53Bits(m);
    LowAndShr(m, e);
    RoundedFrom(SIGNIFICANT, m, i, e, Shr(m, e), Low(m, e));
  }

  /** The same for any even number of places. */
  lemma RoundedFrom(top: nat, m: nat, i: nat, e: nat, kept: nat, rest: nat)
    requires i > 0 && top > 0 && top % 2 == 0 && kept < top && (e > 0 ==> 2 * kept >= top)
    requires m == kept * Pow2(e) + rest && rest < Pow2(e)
    requires e > i <==> m >= top * Pow2(i)
    requires e > i - 1 <==> m >= top * Pow2(i - 1)
    ensures var up := 2 * rest > Pow2(e) || (2 * rest == Pow2(e) && kept % 2 == 1);
      (if up then (kept + 1) * Pow2(e) else kept * Pow2(e)) >= top * Pow2(i) <==> m >= top * Pow2(i) - Pow2(i - 1)
  {
    RoundingStep(m, kept, rest, Pow2(e));
    if e > i {
      PowMonotone(i + 1, e);
      LargeStaysLarge(top, kept, Pow2(e), Pow2(i));
    } else if e == i {
      LastPlace(top, kept, rest, Pow2(i - 1));
    } else {
      PowMonotone(e, i - 1);
      SmallStaysSmall(top, kept, Pow2(e), Pow2(i - 1));
      BelowTheTop(top, m, Pow2(i - 1));
    }
  }

  lemma SignificantIsPower(i: nat)
    ensures SIGNIFICANT * Pow2(i) == Pow2(53 + i)
  {
    PowSum(53, i);
    PowerOfByte(0);
    PowerOfByte(8);
    PowerOfByte(16);
    PowerOfByte(24);
    PowerOfByte(32);
    PowerOfByte(40);
    assert Pow2(53) == 2 * Pow2(52) == 4 * Pow2(51) == 8 * Pow2(50) == 16 * Pow2(49) == 32 * Pow2(48);
  }

  lemma LargestAt(n: int, bits: nat)
    requires bits > 53
    ensures AsFloat(n) >= Pow2(bits) || -AsFloat(n) >= Pow2(bits)
      <==> n >= Pow2(bits) - Pow2(bits - 54) || -n >= Pow2(bits) - Pow2(bits - 54)
  {
    SignificantIsPower(bits - 53);
    var m: nat := if n < 0 then -n else n;
    RoundedIsNearest(m);
    RoundedReaches(m, bits - 53);
    PowMonotone(bits - 54, bits);
  }

  /** The agent's JSON reader refuses the integers from half a last place below 2^1024 on, of either sign. */
  lemma RefusedNumbers(n: int, beyond: int -> Word)
    ensures GoMask(NumberMask(n), beyond).None?
      <==> n >= Pow2(FLOAT_BITS) - Pow2(FLOAT_BITS - 54) || -n >= Pow2(FLOAT_BITS) - Pow2(FLOAT_BITS - 54)
  {
    LargestAt(n, FLOAT_BITS);
  }

  /** A number means the same to both, whatever the machine does, exactly when a word and a float both hold it. */
  lemma NumbersReadAlike(n: int)
    ensures (forall beyond :: GoMask(NumberMask(n), beyond) == PythonMask(NumberMask(n)))
       <==> 0 <= n < WORD_LIMIT && IsFloat(n)
  {
    var other: Word := if n == 0 then 1 else 0;
    var beyond := (x: int) => other;
    if GoMask(NumberMask(n), beyond) == Some(n) { KeptExactly(n); }
    if 0 <= n < WORD_LIMIT && IsFloat(n) {
      KeptExactly(n);
      WordsAreSmall(n);
    }
  }

  lemma WordsAreSmall(n: nat)
    requires n < WORD_LIMIT
    ensures n < Pow2(FLOAT_BITS)
  {
    SignificantIsPower(11);
    PowerOfByte(3);
    PowMonotone(64, FLOAT_BITS);
  }

  /** A text that Go accepts and Python reads the same, or a number that a word and a float both hold. */
  ghost predicate PlainMask(mask: Mask) {
    match mask
    case TextMask(text) =>
      GoText(text).Some? && (ZeroLed(text) ==> GoText(text) == Some(0) && DigitCount(text) <= DIGIT_LIMIT)
    case NumberMask(n) => 0 <= n < WORD_LIMIT && IsFloat(n)
  }

  /** Both take a mask, and take it to be the same, exactly when it is plain. */
  lemma MasksReadAlike(mask: Mask)
    ensures (forall beyond :: GoMask(mask, beyond).Some? && GoMask(mask, beyond) == PythonMask(mask))
      <==> PlainMask(mask)
  {
    match mask
    case TextMask(text) =>
      if GoText(text).Some? { AcceptedTextsReadAlike(text); }
      assert GoMask(mask, x => 0) == GoText(text);
    case NumberMask(n) =>
      NumbersReadAlike(n);
  }
}
