/** What stands in a capture file and on an adapter's line, character by character. */
module FrameTexts {
  import opened Prelude
  import opened CanText
  import MaskTexts

  function Upper(n: nat): (c: char)
    requires n < 16
  {
    if n < 10 then (48 + n) as char else (65 + (n - 10)) as char
  }

  lemma DigitsAreThese(c: char, n: nat)
    ensures HexDigit(c) == Some(n) <==> n < 16 && MaskTexts.SpellsDigit(c, n)
    ensures n < 16 ==> UpperDigit(n) == Upper(n)
  {}

  lemma SeparatorsAreThese(c: char)
    ensures IsSeparator(c) <==> c == ' ' || c == ':' || 9 <= c as int <= 13
  {}

  // ------------------------------------------------------------------ numbers

  /** A text of hexadecimal digits of either case, the highest first. */
  predicate Spells(s: string, digits: seq<nat>) {
    |s| == |digits| && s != "" && forall i :: 0 <= i < |s| ==> digits[i] < 16 && MaskTexts.SpellsDigit(s[i], digits[i])
  }

  lemma {:induction false} SpelledNumber(s: string, digits: seq<nat>)
    requires Spells(s, digits)
    ensures ParseHex(s) == Some(MaskTexts.Positional(digits, 16))
    decreases |s|
  {
    var last := |s| - 1;
    DigitsAreThese(s[last], digits[last]);
    if last == 0 {
      assert MaskTexts.Positional(digits[..0], 16) == 0;
    } else {
      SpelledNumber(s[..last], digits[..last]);
    }
  }

  lemma {:induction false} OnlyDigitsAreNumbers(s: string) returns (digits: seq<nat>)
    requires ParseHex(s).Some?
    ensures Spells(s, digits)
    decreases |s|
  {
    var last := |s| - 1;
    DigitsAreThese(s[last], HexDigit(s[last]).value);
    digits := [HexDigit(s[last]).value];
    if last > 0 {
      var before := OnlyDigitsAreNumbers(s[..last]);
      digits := before + digits;
    }
  }

  /** Digits of a number, and no zero in front of a text of more than one that is longer than the width. */
  predicate DigitsFor(n: nat, width: nat, digits: seq<nat>) {
    && |digits| >= width && |digits| >= 1 && (|digits| > width && |digits| > 1 ==> digits[0] != 0)
    && MaskTexts.Positional(digits, 16) == n
  }

  predicate InUpperCase(s: string, digits: seq<nat>) {
    |s| == |digits| && forall i :: 0 <= i < |s| ==> digits[i] < 16 && s[i] == Upper(digits[i])
  }

  lemma OneDigitFor(n: nat)
    requires n < 16
    ensures MaskTexts.Positional([n], 16) == n
  {
    assert [n][..0] == [];
  }

  lemma OneDigitMore(n: nat, width: nat, before: seq<nat>)
    requires !(n < 16 && width <= 1) && DigitsFor(n / 16, if width == 0 then 0 else width - 1, before)
    ensures DigitsFor(n, width, before + [n % 16])
  {
    var digits := before + [n % 16];
    assert digits[..|digits| - 1] == before && digits[0] == before[0];
    if |before| == 1 {
      assert before[..0] == [] && MaskTexts.Positional(before, 16) == before[0];
    }
  }

  /** An identifier is printed in upper case, with zeros in front up to the width and none beyond it. */
  lemma {:induction false} PrintedNumber(n: nat, width: nat) returns (digits: seq<nat>)
    ensures DigitsFor(n, width, digits) && InUpperCase(PrintHex(n, width), digits)
    decreases n + width
  {
    DigitsAreThese('0', n % 16);
    if n < 16 && width <= 1 {
      OneDigitFor(n);
      digits := [n];
    } else {
      var before := PrintedNumber(n / 16, if width == 0 then 0 else width - 1);
      OneDigitMore(n, width, before);
      digits := before + [n % 16];
    }
  }

  // ------------------------------------------------------------------ bytes

  /** Two digits of either case for each byte, the higher half first. */
  predicate SpellsBytes(s: string, data: seq<Byte>) {
    && |s| == 2 * |data|
    && forall i :: 0 <= i < |data| ==>
         MaskTexts.SpellsDigit(s[2 * i], data[i] / 16) && MaskTexts.SpellsDigit(s[2 * i + 1], data[i] % 16)
  }

  lemma OneByteSpelled(s: string, data: seq<Byte>)
    requires |s| >= 2 && data != []
    ensures SpellsBytes(s, data) <==>
      && MaskTexts.SpellsDigit(s[0], data[0] / 16) && MaskTexts.SpellsDigit(s[1], data[0] % 16)
      && SpellsBytes(s[2..], data[1..])
  {
    if SpellsBytes(s, data) {
      assert s[2 * 0] == s[0];
      forall i | 0 <= i < |data[1..]|
        ensures MaskTexts.SpellsDigit(s[2..][2 * i], data[1..][i] / 16)
        ensures MaskTexts.SpellsDigit(s[2..][2 * i + 1], data[1..][i] % 16)
      {
        assert s[2..][2 * i] == s[2 * (i + 1)] && data[1..][i] == data[i + 1];
      }
    }
    if MaskTexts.SpellsDigit(s[0], data[0] / 16) && MaskTexts.SpellsDigit(s[1], data[0] % 16)
       && SpellsBytes(s[2..], data[1..])
    {
      forall i | 0 <= i < |data|
        ensures MaskTexts.SpellsDigit(s[2 * i], data[i] / 16) && MaskTexts.SpellsDigit(s[2 * i + 1], data[i] % 16)
      {
        if i > 0 {
          assert s[2..][2 * (i - 1)] == s[2 * i] && data[1..][i - 1] == data[i];
        }
      }
    }
  }

  lemma HalvesOfByte(high: nat, low: nat, b: Byte)
    requires high < 16 && low < 16
    ensures DigitPair(high, low) == b <==> high == b / 16 && low == b % 16
  {}

  lemma DigitOrNone(c: char)
    ensures HexDigit(c).Some? ==> HexDigit(c).value < 16
    ensures forall n: nat :: MaskTexts.SpellsDigit(c, n) && n < 16 ==> HexDigit(c) == Some(n)
  {}

  lemma PairIsByte(high: char, low: char, b: Byte)
    ensures HexDigit(high).Some? && HexDigit(low).Some? && DigitPair(HexDigit(high).value, HexDigit(low).value) == b
      <==> MaskTexts.SpellsDigit(high, b / 16) && MaskTexts.SpellsDigit(low, b % 16)
  {
    DigitsAreThese(high, b / 16);
    DigitsAreThese(low, b % 16);
    if HexDigit(high).Some? && HexDigit(low).Some? {
      DigitOrNone(high);
      DigitOrNone(low);
      HalvesOfByte(HexDigit(high).value, HexDigit(low).value, b);
    }
  }

  /** A text is read as some bytes exactly when it spells them. */
  lemma {:induction false} BytesAreSpelled(s: string, data: seq<Byte>)
    ensures DecodeHex(s) == Some(data) <==> SpellsBytes(s, data)
    decreases |s|
  {
    if |s| >= 2 && data != [] {
      PairIsByte(s[0], s[1], data[0]);
      OneByteSpelled(s, data);
      BytesAreSpelled(s[2..], data[1..]);
      if DecodeHex(s[2..]).Some? {
        assert data == [data[0]] + data[1..];
      }
    }
  }

  // ------------------------------------------------------------------ lines of a capture

  /** The first line of a capture names its format and its version. */
  lemma CaptureStartsWithHeader(lines: seq<Line>)
    ensures HeaderLine().format == "vehinode-can-jsonl" && HeaderLine().version == 1
    ensures CaptureOf(lines).Some? ==>
      lines != [] && lines[0].Line? && lines[0].format == "vehinode-can-jsonl" && lines[0].version == 1
  {}

  /** A recorded frame: its time, its identifier in hexadecimal after 0x, and its data, two digits a byte. */
  lemma RecordedLine(frame: Frame)
    ensures var line := FrameLine(frame);
      && line.Line? && line.kind == "frame" && line.timestamp == frame.timestamp
      && "0x" <= line.canId && SpellsBytes(line.data, frame.data)
      && (frame.id >= 0 ==> line.canId[2..] == PrintHex(frame.id, 3))
      && (frame.id < 0 ==> line.canId[2..] == "-" + PrintHex(-frame.id, 2))
  {
    HexTextDecodes(frame.data);
    BytesAreSpelled(HexText(frame.data), frame.data);
    var line := FrameLine(frame);
    assert line.canId[2..] == PrintId(frame.id);
  }

  lemma IdentifierIsRead(prefix: string, digits: string, id: nat)
    requires (prefix == "0x" || prefix == "") && ParseHex(digits) == Some(id)
    ensures ParseInt32(TrimPrefix(prefix + digits, "0x")) == if id <= 2147483647 then Some(id) else None
  {
    var spelled := OnlyDigitsAreNumbers(digits);
    assert digits[0] != '+' && digits[0] != '-' && (|digits| >= 2 ==> digits[1] != 'x');
    if prefix == "0x" {
      assert (prefix + digits)[2..] == digits;
    } else {
      assert prefix + digits == digits;
    }
  }

  /**
   * A line is read as a frame, whoever wrote it, exactly when its data spells at most eight bytes and
   * its identifier, with 0x in front or not, is a 32-bit number.
   */
  lemma LineMeans(line: Line, prefix: string, digits: string, id: nat, data: seq<Byte>)
    requires line.Line? && (prefix == "0x" || prefix == "") && ParseHex(digits) == Some(id)
    requires line.canId == prefix + digits
    ensures FrameOf(line) == Some(Frame(line.timestamp, id, data))
      <==> id <= 2147483647 && |data| <= 8 && SpellsBytes(line.data, data)
    ensures FrameOf(line).Some? ==> FrameOf(line).value.id == id
  {
    BytesAreSpelled(line.data, data);
    IdentifierIsRead(prefix, digits, id);
  }

  predicate IsFrameLine(line: Line) {
    line.Line? && line.kind == "frame"
  }

  /** A line that does not spoil the file: an object, and a valid frame if it says that it is one. */
  predicate Readable(line: Line) {
    line.Line? && (line.kind == "frame" ==> FrameOf(line).Some?)
  }

  lemma LinesMean(lines: seq<Line>)
    ensures FramesOf(lines).Some? <==> forall i :: 0 <= i < |lines| ==> Readable(lines[i])
    ensures FramesOf(lines).Some? ==>
      var kept := Filter(IsFrameLine, lines);
      |FramesOf(lines).value| == |kept|
      && forall k :: 0 <= k < |kept| ==> kept[k].Line? && FrameOf(kept[k]) == Some(FramesOf(lines).value[k])
    decreases |lines|
  {
    if lines != [] {
      var before, last := lines[..|lines| - 1], lines[|lines| - 1];
      LinesMean(before);
      assert before + [last] == lines;
      FilterAppend(IsFrameLine, before, [last]);
      assert Filter(IsFrameLine, [last]) == if IsFrameLine(last) then [last] else [];
    }
  }

  /** A capture is read when its header is right and no line after it is bad; it gives its frame lines, one by one. */
  lemma CaptureMeans(lines: seq<Line>)
    ensures CaptureOf(lines).Some? <==>
      && lines != [] && lines[0].Line? && lines[0].format == "vehinode-can-jsonl" && lines[0].version == 1
      && forall i :: 0 < i < |lines| ==> Readable(lines[i])
    ensures CaptureOf(lines).Some? ==>
      var kept := Filter(IsFrameLine, lines[1..]);
      |CaptureOf(lines).value| == |kept|
      && forall k :: 0 <= k < |kept| ==> kept[k].Line? && FrameOf(kept[k]) == Some(CaptureOf(lines).value[k])
  {
    if lines != [] {
      LinesMean(lines[1..]);
      assert forall i :: 0 < i < |lines| ==> lines[1..][i - 1] == lines[i];
    }
  }
}
