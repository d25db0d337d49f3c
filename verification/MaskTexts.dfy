/** What the texts of a bit mask mean, from the digits they are written with. */
module MaskTexts {
  import opened Prelude
  import opened Masks

  predicate SpellsDigit(c: char, digit: nat) {
    if digit < 10 then c as int == 48 + digit
    else digit < 36 && (c as int == 97 + (digit - 10) || c as int == 65 + (digit - 10))
  }

  /** Digits of either case, the highest first, two of them next to each other or around one underscore. */
  predicate Spells(s: string, digits: seq<nat>)
    decreases |digits|
  {
    && s != "" && digits != [] && SpellsDigit(s[|s| - 1], digits[|digits| - 1])
    && if |digits| == 1 then |s| == 1
       else
         || Spells(s[..|s| - 1], digits[..|digits| - 1])
         || (|s| >= 2 && s[|s| - 2] == '_' && Spells(s[..|s| - 2], digits[..|digits| - 1]))
  }

  function Positional(digits: seq<nat>, base: nat): nat
    decreases |digits|
  {
    if digits == [] then 0 else base * Positional(digits[..|digits| - 1], base) + digits[|digits| - 1]
  }

  predicate AllBelow(digits: seq<nat>, base: nat) {
    forall i :: 0 <= i < |digits| ==> digits[i] < base
  }

  lemma DigitIsSpelled(c: char, digit: nat)
    ensures SpellsDigit(c, digit) ==> DigitOf(c) == digit && c != '_' && c != '+' && c != '-' && !IsSpace(c)
    ensures digit < 36 && DigitOf(c) == digit ==> SpellsDigit(c, digit)
  {}

  lemma SpellsSplits(s: string, digits: seq<nat>) returns (front: string, gap: string)
    requires Spells(s, digits) && |digits| > 1
    ensures Spells(front, digits[..|digits| - 1]) && (gap == "" || gap == "_")
    ensures s == front + gap + [s[|s| - 1]] && front[|front| - 1] != '_'
  {
    gap := if Spells(s[..|s| - 1], digits[..|digits| - 1]) then "" else "_";
    front := s[..|s| - 1 - |gap|];
    DigitIsSpelled(front[|front| - 1], digits[|digits| - 2]);
  }

  lemma WithoutLast(s: string, front: string, gap: string)
    requires front != "" && front[|front| - 1] != '_' && (gap == "" || gap == "_")
    requires s != "" && s == front + gap + [s[|s| - 1]]
    ensures |s| >= 2 && Shorter(s) == front
  {
    if gap == "" {
      assert s[..|s| - 1] == front && s[|s| - 2] == front[|front| - 1];
    } else {
      assert s[..|s| - 2] == front && s[|s| - 2] == '_';
    }
  }

  /** The last digit counts once and all before it base times. */
  lemma LastDigit(s: string, digit: nat, base: nat)
    requires |s| >= 2 && SpellsDigit(s[|s| - 1], digit) && digit < base <= 36 && Digits(Shorter(s), base).Some?
    ensures Digits(s, base) == Some(base * Digits(Shorter(s), base).value + digit)
    ensures DigitCount(s) == DigitCount(Shorter(s)) + 1
  {
    DigitIsSpelled(s[|s| - 1], digit);
    CountOfShorter(s);
  }

  lemma {:induction false} SpelledDigits(s: string, digits: seq<nat>, base: nat)
    requires Spells(s, digits) && AllBelow(digits, base) && base <= 36
    ensures Digits(s, base) == Some(Positional(digits, base)) && DigitCount(s) == |digits|
    ensures SpellsDigit(s[0], digits[0])
    decreases |digits|
  {
    if |digits| == 1 {
      OneDigit(s, digits, base);
    } else {
      var front, gap := SpellsSplits(s, digits);
      SpelledDigits(front, digits[..|digits| - 1], base);
      WithoutLast(s, front, gap);
      LastDigit(s, digits[|digits| - 1], base);
    }
  }

  lemma OneDigit(s: string, digits: seq<nat>, base: nat)
    requires |s| == 1 && |digits| == 1 && SpellsDigit(s[0], digits[0]) && digits[0] < base <= 36
    ensures Digits(s, base) == Some(Positional(digits, base)) && DigitCount(s) == 1
  {
    DigitIsSpelled(s[0], digits[0]);
    assert s[..0] == "" && digits[..0] == [];
  }

  /** And whatever is read as digits is so spelled. */
  lemma {:induction false} ReadDigitsAreSpelled(s: string, base: nat) returns (digits: seq<nat>)
    requires Digits(s, base).Some? && base <= 36
    ensures Spells(s, digits) && AllBelow(digits, base)
    decreases |s|
  {
    DigitIsSpelled(s[|s| - 1], DigitOf(s[|s| - 1]));
    digits := [DigitOf(s[|s| - 1])];
    if |s| > 1 {
      var before := ReadDigitsAreSpelled(Shorter(s), base);
      digits := before + digits;
      assert digits[..|digits| - 1] == before;
    }
  }

  /** The prefixes and their bases, of either case. */
  predicate IsPrefix(prefix: string, base: nat) {
    || (base == 16 && (prefix == "0x" || prefix == "0X"))
    || (base == 8 && (prefix == "0o" || prefix == "0O"))
    || (base == 2 && (prefix == "0b" || prefix == "0B"))
  }

  function WithinWord(n: nat): Option<nat> {
    if n < 18446744073709551616 then Some(n) else None
  }

  lemma PrefixIsSeen(prefix: string, rest: string, base: nat)
    requires IsPrefix(prefix, base) && rest != ""
    ensures PrefixBase(prefix + rest) == Some(base) && (prefix + rest)[0] == '0' && (prefix + rest)[2..] == rest
  {
    assert |prefix| == 2 && prefix[0] == '0';
    assert (prefix + rest)[0] == prefix[0] && (prefix + rest)[1] == prefix[1];
  }

  lemma PrefixedDigits(prefix: string, gap: string, s: string, base: nat)
    requires IsPrefix(prefix, base) && (gap == "" || gap == "_") && s != "" && s[0] != '_'
    ensures var text := prefix + (gap + s);
      PrefixBase(text) == Some(base) && Prefixed(text, base) == Digits(s, base)
  {
    PrefixIsSeen(prefix, gap + s, base);
    var text := prefix + (gap + s);
    assert text[2] == (gap + s)[0];
    if gap == "_" {
      assert text[3..] == s;
    } else {
      assert gap + s == s;
    }
  }

  /** A prefixed text, an underscore after the prefix or none, is the number that its digits spell in that base. */
  lemma PrefixedTextsMean(prefix: string, gap: string, s: string, digits: seq<nat>, base: nat)
    requires IsPrefix(prefix, base) && (gap == "" || gap == "_")
    requires Spells(s, digits) && AllBelow(digits, base)
    ensures GoText(prefix + (gap + s)) == WithinWord(Positional(digits, base))
    ensures PythonText(prefix + (gap + s)) == Some(Positional(digits, base))
  {
    SpelledDigits(s, digits, base);
    DigitIsSpelled(s[0], digits[0]);
    PrefixedDigits(prefix, gap, s, base);
    UnsignedIsBare(prefix + (gap + s));
    BareIsUnsigned(prefix + (gap + s));
  }

  /** A text of decimal digits that does not begin with zero is that number, in Python up to 4300 digits. */
  lemma DecimalTextsMean(s: string, digits: seq<nat>)
    requires Spells(s, digits) && AllBelow(digits, 10) && digits[0] != 0
    ensures GoText(s) == WithinWord(Positional(digits, 10))
    ensures PythonText(s) == if |digits| <= 4300 then Some(Positional(digits, 10)) else None
  {
    SpelledDigits(s, digits, 10);
    DigitIsSpelled(s[0], digits[0]);
    DigitIsSpelled(s[|s| - 1], digits[|digits| - 1]);
    BareIsUnsigned(s);
  }

  /** After a leading zero Go reads octal digits, and Python only zeros. */
  lemma ZeroLedTextsMean(s: string, digits: seq<nat>)
    requires Spells(s, digits) && AllBelow(digits, 10) && digits[0] == 0
    requires PrefixBase(s).None?
    ensures AllBelow(digits, 8) ==> GoText(s) == WithinWord(Positional(digits, 8))
    ensures GoText(s).Some? ==> AllBelow(digits, 8)
    ensures PythonText(s) == if |digits| <= 4300 && Positional(digits, 10) == 0 then Some(0) else None
  {
    SpelledDigits(s, digits, 10);
    DigitIsSpelled(s[0], digits[0]);
    DigitIsSpelled(s[|s| - 1], digits[|digits| - 1]);
    BareIsUnsigned(s);
    if AllBelow(digits, 8) { SpelledDigits(s, digits, 8); }
    if GoText(s).Some? {
      var others := ReadDigitsAreSpelled(s, 8);
      SameSpelling(s, digits, others);
    }
  }

  lemma {:induction false} SameSpelling(s: string, a: seq<nat>, b: seq<nat>)
    requires Spells(s, a) && Spells(s, b)
    ensures a == b
    decreases |a|
  {
    DigitIsSpelled(s[|s| - 1], a[|a| - 1]);
    DigitIsSpelled(s[|s| - 1], b[|b| - 1]);
    if |a| > 1 && |b| > 1 {
      var before := s[..|s| - 1];
      if Spells(before, a[..|a| - 1]) { DigitIsSpelled(before[|before| - 1], a[|a| - 2]); }
      if Spells(before, b[..|b| - 1]) { DigitIsSpelled(before[|before| - 1], b[|b| - 2]); }
      SameSpelling(Shorter(s), a[..|a| - 1], b[..|b| - 1]);
      assert a == a[..|a| - 1] + [a[|a| - 1]] && b == b[..|b| - 1] + [b[|b| - 1]];
    }
  }

  predicate AllSpace(s: string) {
    forall i :: 0 <= i < |s| ==> s[i] == ' ' || '\t' <= s[i] <= '\r'
  }

  lemma {:induction false} SpaceIsStripped(before: string, s: string, after: string)
    requires AllSpace(before) && AllSpace(after) && s != "" && !IsSpace(s[0]) && !IsSpace(s[|s| - 1])
    ensures Stripped(before + s + after) == s
    decreases |before| + |after|
  {
    var padded := before + s + after;
    if before != "" {
      assert padded[0] == before[0] && padded[1..] == before[1..] + s + after;
      SpaceIsStripped(before[1..], s, after);
    } else if after != "" {
      var last := |padded| - 1;
      assert padded[0] == s[0] && padded[last] == after[|after| - 1];
      assert padded[..last] == "" + s + after[..|after| - 1];
      SpaceIsStripped("", s, after[..|after| - 1]);
    } else {
      assert padded == s;
    }
  }

  lemma PaddedIsNotBare(s: string, before: string, after: string)
    requires AllSpace(before) && AllSpace(after) && before + after != ""
    ensures !Bare(before + s + after)
  {
    var padded := before + s + after;
    if before != "" {
      assert padded[0] == before[0];
    } else {
      assert padded[|padded| - 1] == after[|after| - 1];
    }
  }

  lemma StrippedAlike(padded: string, s: string)
    requires s != "" && !IsSpace(s[0]) && !IsSpace(s[|s| - 1]) && Stripped(padded) == s
    ensures PythonText(padded) == PythonText(s)
  {
    assert Stripped(s) == s;
  }

  lemma OnlyBareIsGo(s: string)
    ensures GoText(s).Some? ==> Bare(s)
  {
    if GoText(s).Some? { UnsignedIsBare(s); }
  }

  /** Python takes spaces around a number, and Go does not. */
  lemma PaddedTextsMean(s: string, before: string, after: string)
    requires s != "" && !IsSpace(s[0]) && !IsSpace(s[|s| - 1]) && AllSpace(before) && AllSpace(after)
    ensures PythonText(before + s + after) == PythonText(s)
    ensures before + after != "" ==> GoText(before + s + after).None?
  {
    SpaceIsStripped(before, s, after);
    StrippedAlike(before + s + after, s);
    OnlyBareIsGo(before + s + after);
    if before + after != "" { PaddedIsNotBare(s, before, after); }
  }

  /** Python takes a sign in front of a number, and Go does not. */
  lemma SignedTextsMean(sign: char, s: string)
    requires Bare(s) && PythonText(s).Some? && (sign == '+' || sign == '-')
    ensures PythonText([sign] + s) == Some(if sign == '-' then -PythonText(s).value else PythonText(s).value)
    ensures GoText([sign] + s).None?
  {
    var signed := [sign] + s;
    BareIsUnsigned(s);
    OnlyBareIsGo(signed);
    assert signed[0] == sign && signed[1..] == s && signed[|signed| - 1] == s[|s| - 1];
    assert Stripped(signed) == signed;
  }
}
