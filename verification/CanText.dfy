/** CAN frames as text: the capture file the agent writes and reads back, and the lines an adapter prints. */
module CanText {
  import opened Prelude

  datatype Frame = Frame(timestamp: real, id: int, data: seq<Byte>)

  // ------------------------------------------------------------------ hexadecimal

  function HexDigit(c: char): Option<nat> {
    if '0' <= c <= '9' then Some(c as int - '0' as int)
    else if 'A' <= c <= 'F' then Some(c as int - 'A' as int + 10)
    else if 'a' <= c <= 'f' then Some(c as int - 'a' as int + 10)
    else None
  }

  function UpperDigit(n: nat): (c: char)
    requires n < 16
    ensures HexDigit(c) == Some(n)
  {
    if n < 10 then ('0' as int + n) as char else ('A' as int + n - 10) as char
  }

  // The digits of strconv.ParseUint in base 16, without the bound.
  function ParseHex(s: string): Option<nat>
    decreases |s|
  {
    if s == [] then None
    else if HexDigit(s[|s| - 1]).None? then None
    else if |s| == 1 then HexDigit(s[0])
    else
      var high := ParseHex(s[..|s| - 1]);
      if high.None? then None else Some(16 * high.value + HexDigit(s[|s| - 1]).value)
  }

  // strconv.ParseInt(s, 16, 32).
  function ParseInt32(s: string): Option<int> {
    var negative := s != [] && s[0] == '-';
    var digits := if s != [] && (s[0] == '+' || s[0] == '-') then s[1..] else s;
    var magnitude := ParseHex(digits);
    if magnitude.None? then None
    else
      var value: int := if negative then 0 - magnitude.value else magnitude.value;
      if -0x8000_0000 <= value < 0x8000_0000 then Some(value) else None
  }

  /** At least `width` upper-case digits, padded with zeros. */
  function PrintHex(n: nat, width: nat): (s: string)
    ensures |s| >= 1 && |s| >= width
    ensures forall i :: 0 <= i < |s| ==> HexDigit(s[i]).Some?
    decreases n + width
  {
    if n < 16 && width <= 1 then [UpperDigit(n)]
    else PrintHex(n / 16, if width == 0 then 0 else width - 1) + [UpperDigit(n % 16)]
  }

  lemma ParseOneDigitMore(s: string, digit: nat)
    requires s != [] && digit < 16
    ensures ParseHex(s + [UpperDigit(digit)])
         == if ParseHex(s).Some? then Some(16 * ParseHex(s).value + digit) else None
  {
    assert (s + [UpperDigit(digit)])[..|s|] == s;
  }

  lemma {:induction false} PrintedHexParses(n: nat, width: nat)
    ensures ParseHex(PrintHex(n, width)) == Some(n)
    decreases n + width
  {
    if n < 16 && width <= 1 {
    } else {
      var shorter := if width == 0 then 0 else width - 1;
      PrintedHexParses(n / 16, shorter);
      ParseOneDigitMore(PrintHex(n / 16, shorter), n % 16);
    }
  }

  // fmt "%03X" of a signed integer.
  function PrintId(id: int): string {
    if id >= 0 then PrintHex(id, 3) else "-" + PrintHex(-id, 2)
  }

  lemma PrintedIdParses(id: int)
    ensures ParseInt32(PrintId(id)) == if -0x8000_0000 <= id < 0x8000_0000 then Some(id) else None
  {
    if id >= 0 {
      PrintedHexParses(id, 3);
      assert HexDigit(PrintId(id)[0]).Some?;
    } else {
      PrintedHexParses(-id, 2);
      assert PrintId(id)[1..] == PrintHex(-id, 2);
    }
  }

  function ByteText(b: Byte): string {
    [UpperDigit(b / 16), UpperDigit(b % 16)]
  }

  function HexText(data: seq<Byte>): string {
    if data == [] then "" else ByteText(data[0]) + HexText(data[1..])
  }

  // hex.DecodeString.
  function DecodeHex(s: string): Option<seq<Byte>> {
    if s == [] then Some([])
    else if |s| == 1 || HexDigit(s[0]).None? || HexDigit(s[1]).None? then None
    else
      var rest := DecodeHex(s[2..]);
      if rest.None? then None else Some([DigitPair(HexDigit(s[0]).value, HexDigit(s[1]).value)] + rest.value)
  }

  function DigitPair(high: nat, low: nat): Byte {
    (16 * high + low) % 256
  }

  lemma PairOfByte(b: Byte)
    ensures DigitPair(b / 16, b % 16) == b
  {}

  lemma DecodeOneByte(b: Byte, rest: string)
    ensures DecodeHex(ByteText(b) + rest)
         == if DecodeHex(rest).Some? then Some([b] + DecodeHex(rest).value) else None
  {
    PairOfByte(b);
    assert (ByteText(b) + rest)[2..] == rest;
  }

  lemma {:induction false} HexTextDecodes(data: seq<Byte>)
    ensures DecodeHex(HexText(data)) == Some(data)
  {
    if data == [] {
    } else {
      HexTextDecodes(data[1..]);
      DecodeOneByte(data[0], HexText(data[1..]));
      assert data == [data[0]] + data[1..];
    }
  }

  lemma {:induction false} OddIsNotHex(s: string, half: nat)
    requires |s| == 2 * half + 1
    ensures DecodeHex(s) == None
    decreases half
  {
    if half > 0 {
      OddIsNotHex(s[2..], half - 1);
    }
  }

  // ------------------------------------------------------------------ the capture file

  const FORMAT := "vehinode-can-jsonl"
  const VERSION := 1

  /** One line of a capture: an object with the fields either side looks at, or not an object at all. */
  datatype Line =
    | Line(kind: string, format: string, version: int, timestamp: real, canId: string, data: string)
    | Garbage

  function HeaderLine(): Line {
    Line("header", FORMAT, VERSION, 0.0, "", "")
  }

  function FrameLine(frame: Frame): Line {
    Line("frame", "", 0, frame.timestamp, "0x" + PrintId(frame.id), HexText(frame.data))
  }

  class Recorder {
    var output: seq<Line>

    constructor ()
      ensures output == [HeaderLine()]
    {
      output := [HeaderLine()];
    }

    method Write(frame: Frame)
      modifies this
      ensures output == old(output) + [FrameLine(frame)]
    {
      output := output + [FrameLine(frame)];
    }
  }

  function TrimPrefix(s: string, prefix: string): string {
    if prefix <= s then s[|prefix|..] else s
  }

  function FrameOf(line: Line): Option<Frame>
    requires line.Line?
  {
    var id := ParseInt32(TrimPrefix(line.canId, "0x"));
    var data := DecodeHex(line.data);
    if id.None? || data.None? || |data.value| > 8 then None
    else Some(Frame(line.timestamp, id.value, data.value))
  }

  /** The frames of the lines after the header, or nothing when one of them is invalid. */
  function FramesOf(lines: seq<Line>): Option<seq<Frame>>
    decreases |lines|
  {
    if lines == [] then Some([])
    else
      var before, last := FramesOf(lines[..|lines| - 1]), lines[|lines| - 1];
      if before.None? || last.Garbage? then None
      else if last.kind != "frame" then before
      else if FrameOf(last).None? then None
      else Some(before.value + [FrameOf(last).value])
  }

  predicate IsHeader(line: Line) {
    line.Line? && line.format == FORMAT && line.version == VERSION
  }

  function CaptureOf(lines: seq<Line>): Option<seq<Frame>> {
    if lines != [] && IsHeader(lines[0]) then FramesOf(lines[1..]) else None
  }

  lemma {:induction false} BadLineSpoilsAll(lines: seq<Line>, k: nat)
    requires k < |lines| && FramesOf(lines[..k + 1]) == None
    ensures FramesOf(lines) == None
    decreases |lines|
  {
    if k + 1 == |lines| {
      assert lines[..k + 1] == lines;
    } else {
      assert lines[..|lines| - 1][..k + 1] == lines[..k + 1];
      BadLineSpoilsAll(lines[..|lines| - 1], k);
    }
  }

  method Read(lines: seq<Line>) returns (frames: Option<seq<Frame>>)
    ensures frames == CaptureOf(lines)
  {
    if lines == [] || !IsHeader(lines[0]) { return None; }
    var rows := lines[1..];
    var result: seq<Frame> := [];
    for i := 0 to |rows|
      invariant FramesOf(rows[..i]) == Some(result)
    {
      assert rows[..i + 1][..i] == rows[..i];
      if rows[i].Garbage? {
        BadLineSpoilsAll(rows, i);
        return None;
      }
      if rows[i].kind != "frame" { continue; }
      var frame := FrameOf(rows[i]);
      if frame.None? {
        BadLineSpoilsAll(rows, i);
        return None;
      }
      result := result + [frame.value];
    }
    assert rows[..|rows|] == rows;
    frames := Some(result);
  }

  predicate Recordable(frame: Frame) {
    -0x8000_0000 <= frame.id < 0x8000_0000 && |frame.data| <= 8
  }

  lemma WrittenLineReads(frame: Frame)
    ensures FrameOf(FrameLine(frame)) == if Recordable(frame) then Some(frame) else None
  {
    PrintedIdParses(frame.id);
    HexTextDecodes(frame.data);
    assert ("0x" + PrintId(frame.id))[2..] == PrintId(frame.id);
  }

  function FrameLines(frames: seq<Frame>): (lines: seq<Line>)
    ensures |lines| == |frames|
    decreases |frames|
  {
    if frames == [] then [] else FrameLines(frames[..|frames| - 1]) + [FrameLine(frames[|frames| - 1])]
  }

  predicate AllRecordable(frames: seq<Frame>) {
    forall i :: 0 <= i < |frames| ==> Recordable(frames[i])
  }

  lemma {:induction false} OneFrameMore(before: seq<Frame>, last: Frame)
    ensures AllRecordable(before + [last]) <==> AllRecordable(before) && Recordable(last)
    ensures FramesOf(FrameLines(before + [last]))
         == if FramesOf(FrameLines(before)).Some? && Recordable(last)
            then Some(FramesOf(FrameLines(before)).value + [last]) else None
  {
    var frames := before + [last];
    assert frames[..|frames| - 1] == before && frames[|frames| - 1] == last;
    assert forall i :: 0 <= i < |before| ==> frames[i] == before[i];
    WrittenLineReads(last);
    var lines := FrameLines(frames);
    assert lines[..|lines| - 1] == FrameLines(before);
  }

  /** Reading back what was recorded gives the same frames when every one is recordable, and otherwise fails. */
  lemma {:induction false} RecordedFramesAreRead(frames: seq<Frame>)
    ensures FramesOf(FrameLines(frames)) == if AllRecordable(frames) then Some(frames) else None
    decreases |frames|
  {
    if frames == [] {
    } else {
      var before, last := frames[..|frames| - 1], frames[|frames| - 1];
      assert before + [last] == frames;
      RecordedFramesAreRead(before);
      OneFrameMore(before, last);
    }
  }

  /** The whole file: what a recorder has output after writing some frames is read back as those frames. */
  lemma {:induction false} CaptureRoundTrip(frames: seq<Frame>)
    ensures CaptureOf([HeaderLine()] + FrameLines(frames)) == if AllRecordable(frames) then Some(frames) else None
  {
    RecordedFramesAreRead(frames);
  }

  // ------------------------------------------------------------------ the lines of an adapter

  predicate IsSpace(c: char) {
    c == ' ' || '\t' <= c <= '\r'
  }

  predicate AllSpace(s: string) {
    forall i :: 0 <= i < |s| ==> IsSpace(s[i])
  }

  predicate NoSpace(s: string) {
    forall i :: 0 <= i < |s| ==> !IsSpace(s[i])
  }

  // strings.ReplaceAll(line, ":", " ").
  function WithoutColons(line: string): (r: string)
    ensures |r| == |line|
  {
    seq(|line|, i requires 0 <= i < |line| => if line[i] == ':' then ' ' else line[i])
  }

  function Trim(s: string): string
    decreases |s|
  {
    if s == [] then s
    else if IsSpace(s[0]) then Trim(s[1..])
    else if IsSpace(s[|s| - 1]) then Trim(s[..|s| - 1])
    else s
  }

  function WordEnd(s: string): (e: nat)
    ensures e <= |s| && NoSpace(s[..e])
    ensures e < |s| ==> IsSpace(s[e])
  {
    if s == [] || IsSpace(s[0]) then 0
    else
      var rest := WordEnd(s[1..]);
      assert s[..1 + rest] == [s[0]] + s[1..][..rest];
      1 + rest
  }

  // strings.Fields, for ASCII.
  function Fields(s: string): seq<string>
    decreases |s|
  {
    if s == [] then []
    else if IsSpace(s[0]) then Fields(s[1..])
    else [s[..WordEnd(s)]] + Fields(s[WordEnd(s)..])
  }

  /** The first split that the expression ^(hex{3}|hex{8})(hex+)$ finds: three digits are tried before eight. */
  function CompactSplit(s: string): Option<nat> {
    if ParseHex(s).None? then None
    else if |s| > 3 then Some(3)
    else if |s| > 8 then Some(8)
    else None
  }

  function ParseCanFrame(line: string, timestamp: real): Option<Frame> {
    var cleaned := Trim(WithoutColons(line));
    var parts := Fields(cleaned);
    if |parts| < 2 then
      var split := CompactSplit(cleaned);
      if split.None? then None else FrameFrom(cleaned[..split.value], cleaned[split.value..], None, timestamp)
    else
      var remaining := parts[1..];
      if IsLength(remaining[0]) then
        FrameFrom(parts[0], Concat(remaining[1..]), HexDigit(remaining[0][0]), timestamp)
      else FrameFrom(parts[0], Concat(remaining), None, timestamp)
  }

  // One decimal digit of at most eight.
  predicate IsLength(s: string) {
    |s| == 1 && '0' <= s[0] <= '8'
  }

  function FrameFrom(idText: string, dataText: string, declared: Option<nat>, timestamp: real): Option<Frame> {
    var payload := DecodeHex(dataText);
    if payload.None? || (declared.Some? && declared.value != |payload.value|) then None
    else
      var id := ParseInt32(idText);
      if id.None? || id.value < 0 || id.value > 0x1fffffff || |payload.value| > 8 then None
      else Some(Frame(timestamp, id.value, payload.value))
  }

  // ------------------------------------------------------------------ words between separators

  predicate IsSeparator(c: char) {
    IsSpace(c) || c == ':'
  }

  predicate AllSeparators(s: string) {
    forall i :: 0 <= i < |s| ==> IsSeparator(s[i])
  }

  predicate IsWord(s: string) {
    s != [] && forall i :: 0 <= i < |s| ==> !IsSeparator(s[i])
  }

  /** Words with a gap before each and one after the last; only the outer gaps may be empty. */
  predicate Weavable(words: seq<string>, gaps: seq<string>) {
    && |gaps| == |words| + 1
    && (forall w :: w in words ==> IsWord(w))
    && (forall g :: g in gaps ==> AllSeparators(g))
    && (forall i :: 0 < i < |words| ==> gaps[i] != [])
  }

  function Woven(words: seq<string>, gaps: seq<string>): string
    requires |gaps| == |words| + 1
  {
    if words == [] then gaps[0] else gaps[0] + words[0] + Woven(words[1..], gaps[1..])
  }

  lemma {:induction false} FieldsSkipGap(gap: string, rest: string)
    requires AllSpace(gap)
    ensures Fields(gap + rest) == Fields(rest)
  {
    if gap == [] {
      assert gap + rest == rest;
    } else {
      assert (gap + rest)[1..] == gap[1..] + rest;
      FieldsSkipGap(gap[1..], rest);
    }
  }

  lemma {:induction false} WordEndsAtSpace(word: string, rest: string)
    requires NoSpace(word) && (rest == [] || IsSpace(rest[0]))
    ensures WordEnd(word + rest) == |word|
  {
    var s := word + rest;
    var e := WordEnd(s);
    assert forall i :: 0 <= i < e ==> s[..e][i] == s[i];
    assert forall i :: 0 <= i < |word| ==> s[i] == word[i];
    assert rest != [] ==> s[|word|] == rest[0];
  }

  lemma {:induction false} FieldsTakeWord(word: string, rest: string)
    requires word != [] && NoSpace(word) && (rest == [] || IsSpace(rest[0]))
    ensures Fields(word + rest) == [word] + Fields(rest)
  {
    WordEndsAtSpace(word, rest);
    assert (word + rest)[..|word|] == word && (word + rest)[|word|..] == rest;
  }

  /** Whatever spaces and colons stand between the words, the words come out. */
  lemma {:induction false} FieldsOfWoven(words: seq<string>, gaps: seq<string>)
    requires Weavable(words, gaps)
    ensures Fields(WithoutColons(Woven(words, gaps))) == words
  {
    var gap := WithoutColons(gaps[0]);
    assert gaps[0] in gaps;
    if words == [] {
      FieldsSkipGap(gap, "");
      assert gap + "" == gap;
    } else {
      var rest := Woven(words[1..], gaps[1..]);
      assert words[0] in words;
      FieldsOfWoven(words[1..], gaps[1..]);
      assert WithoutColons(gaps[0] + words[0] + rest) == gap + (words[0] + WithoutColons(rest));
      FieldsSkipGap(gap, words[0] + WithoutColons(rest));
      WovenStartsWithGap(words[1..], gaps[1..]);
      FieldsTakeWord(words[0], WithoutColons(rest));
    }
  }

  lemma WovenStartsWithGap(words: seq<string>, gaps: seq<string>)
    requires |gaps| == |words| + 1 && AllSeparators(gaps[0]) && (words != [] ==> gaps[0] != [])
    ensures var rest := WithoutColons(Woven(words, gaps)); rest == [] || IsSpace(rest[0])
  {
    if words == [] {
    } else {
      assert Woven(words, gaps)[0] == gaps[0][0];
    }
  }

  lemma {:induction false} FieldsOfTrimmed(s: string)
    ensures Fields(Trim(s)) == Fields(s)
    decreases |s|
  {
    if s == [] {
    } else if IsSpace(s[0]) {
      FieldsOfTrimmed(s[1..]);
    } else if IsSpace(s[|s| - 1]) {
      FieldsOfTrimmed(s[..|s| - 1]);
      FieldsDropSpace(s[..|s| - 1], s[|s| - 1]);
      assert s[..|s| - 1] + [s[|s| - 1]] == s;
    }
  }

  lemma {:induction false} FieldsDropSpace(s: string, c: char)
    requires IsSpace(c)
    ensures Fields(s + [c]) == Fields(s)
    decreases |s|
  {
    if s == [] {
      assert ([] + [c])[1..] == [];
    } else if IsSpace(s[0]) {
      assert (s + [c])[1..] == s[1..] + [c];
      FieldsDropSpace(s[1..], c);
    } else {
      var word, tail := s[..WordEnd(s)], s[WordEnd(s)..];
      FieldsTakeWord(word, tail + [c]);
      FieldsDropSpace(tail, c);
      assert s + [c] == word + (tail + [c]);
    }
  }

  // ------------------------------------------------------------------ what the lines mean

  function ByteWords(data: seq<Byte>): (words: seq<string>)
    ensures |words| == |data|
    ensures data != [] ==> words[0] == ByteText(data[0])
  {
    if data == [] then [] else [ByteText(data[0])] + ByteWords(data[1..])
  }

  lemma {:induction false} ByteWordsJoin(data: seq<Byte>)
    ensures Concat(ByteWords(data)) == HexText(data)
  {
    if data != [] {
      ByteWordsJoin(data[1..]);
    }
  }

  // Printing the length of a classic frame takes one digit.
  function LengthText(data: seq<Byte>): string
    requires |data| <= 8
  {
    [UpperDigit(|data|)]
  }

  predicate Classic(frame: Frame) {
    0 <= frame.id <= 0x1fffffff && |frame.data| <= 8
  }

  function Words(frame: Frame, width: nat, withLength: bool): seq<string>
    requires Classic(frame)
  {
    [PrintHex(frame.id, width)] + (if withLength then [LengthText(frame.data)] else []) + ByteWords(frame.data)
  }

  /**
   * A frame printed with its identifier padded to any width, its length digit or none, its data
   * byte by byte, and any spaces and colons between, is parsed back, whatever its first data
   * byte, except an empty frame without its length digit.
   */
  lemma SpacedFrameParses(frame: Frame, width: nat, withLength: bool, gaps: seq<string>)
    requires Classic(frame) && Weavable(Words(frame, width, withLength), gaps)
    ensures ParseCanFrame(Woven(Words(frame, width, withLength), gaps), frame.timestamp) == Some(frame)
      <==> withLength || frame.data != []
  {
    if withLength || frame.data != [] {
      SpacedFrameParsesBack(frame, width, withLength, gaps);
    } else {
      var line := WithoutColons(Woven(Words(frame, width, withLength), gaps));
      FieldsOfWoven(Words(frame, width, withLength), gaps);
      FieldsOfTrimmed(line);
      var split := CompactSplit(Trim(line));
      assert split.Some? ==> DecodeHex(Trim(line)[split.value..]) != Some([]);
    }
  }

  lemma FrameFromItsTexts(frame: Frame, width: nat, declared: Option<nat>)
    requires Classic(frame) && (declared.Some? ==> declared.value == |frame.data|)
    ensures FrameFrom(PrintHex(frame.id, width), HexText(frame.data), declared, frame.timestamp) == Some(frame)
  {
    PrintedHexParses(frame.id, width);
    HexTextDecodes(frame.data);
    assert HexDigit(PrintHex(frame.id, width)[0]).Some?;
  }

  lemma SpacedFrameParsesBack(frame: Frame, width: nat, withLength: bool, gaps: seq<string>)
    requires Classic(frame) && (withLength || frame.data != [])
    requires Weavable(Words(frame, width, withLength), gaps)
    ensures ParseCanFrame(Woven(Words(frame, width, withLength), gaps), frame.timestamp) == Some(frame)
  {
    var words := Words(frame, width, withLength);
    FieldsOfWoven(words, gaps);
    FieldsOfTrimmed(WithoutColons(Woven(words, gaps)));
    ByteWordsJoin(frame.data);
    FrameFromItsTexts(frame, width, if withLength then Some(|frame.data|) else None);
    if withLength {
      assert words[1..][1..] == ByteWords(frame.data);
    } else {
      assert words[1..] == ByteWords(frame.data);
    }
  }

  /** The condition on gaps can be met: single spaces do. */
  lemma WordsAreWeavable(frame: Frame, width: nat, withLength: bool)
    requires Classic(frame)
    ensures var words := Words(frame, width, withLength);
      Weavable(words, seq(|words| + 1, _ => " "))
  {
    ByteWordsAreWords(frame.data);
    var words := Words(frame, width, withLength);
    forall w | w in words ensures IsWord(w) {
      if w == words[0] { HexIsWord(w); }
    }
  }

  lemma HexIsWord(s: string)
    requires s != [] && forall i :: 0 <= i < |s| ==> HexDigit(s[i]).Some?
    ensures IsWord(s)
  {}

  lemma {:induction false} ByteWordsAreWords(data: seq<Byte>)
    ensures forall w :: w in ByteWords(data) ==> IsWord(w)
  {
    if data != [] {
      ByteWordsAreWords(data[1..]);
      HexIsWord(ByteText(data[0]));
    }
  }

  /** A length digit that disagrees with the data is refused. */
  lemma WrongLengthIsRefused(frame: Frame, width: nat, length: nat, gaps: seq<string>)
    requires Classic(frame) && length <= 8 && length != |frame.data|
    requires Weavable([PrintHex(frame.id, width), [UpperDigit(length)]] + ByteWords(frame.data), gaps)
    ensures
      var words := [PrintHex(frame.id, width), [UpperDigit(length)]] + ByteWords(frame.data);
      ParseCanFrame(Woven(words, gaps), frame.timestamp) == None
  {
    var words := [PrintHex(frame.id, width), [UpperDigit(length)]] + ByteWords(frame.data);
    FieldsOfWoven(words, gaps);
    FieldsOfTrimmed(WithoutColons(Woven(words, gaps)));
    HexTextDecodes(frame.data);
    ByteWordsJoin(frame.data);
    assert words[1..][1..] == ByteWords(frame.data);
  }

  lemma {:induction false} AllHexParses(s: string)
    requires s != [] && forall i :: 0 <= i < |s| ==> HexDigit(s[i]).Some?
    ensures ParseHex(s).Some?
    decreases |s|
  {
    if |s| > 1 {
      AllHexParses(s[..|s| - 1]);
    }
  }

  lemma {:induction false} HexTextIsHex(data: seq<Byte>)
    ensures |HexText(data)| == 2 * |data|
    ensures forall i :: 0 <= i < |HexText(data)| ==> HexDigit(HexText(data)[i]).Some?
  {
    if data != [] {
      HexTextIsHex(data[1..]);
    }
  }

  lemma OneWord(s: string)
    requires IsWord(s)
    ensures Trim(WithoutColons(s)) == s && Fields(s) == [s]
  {
    assert WithoutColons(s) == s;
    FieldsTakeWord(s, "");
    assert s + "" == s;
  }

  /**
   * Without separators the identifier is taken to be three digits: such a line is parsed back
   * exactly when the identifier was printed with three and there is data, so a 29-bit
   * identifier, which takes eight, is always refused.
   */
  lemma CompactFrameParses(frame: Frame, width: nat)
    requires Classic(frame)
    requires var digits := |PrintHex(frame.id, width)|; digits == 3 || digits == 8
    ensures var line := PrintHex(frame.id, width) + HexText(frame.data);
      ParseCanFrame(line, frame.timestamp)
      == if |PrintHex(frame.id, width)| == 3 && frame.data != [] then Some(frame) else None
  {
    var id, data := PrintHex(frame.id, width), HexText(frame.data);
    var line := id + data;
    HexTextIsHex(frame.data);
    CompactIsThreeDigits(line, frame.timestamp);
    if |line| == 3 {
    } else if |id| == 3 {
      assert line[..3] == id && line[3..] == data;
      FrameFromItsTexts(frame, width, None);
    } else {
      OddIsNotHex(line[3..], 2 + |frame.data|);
    }
  }

  lemma CompactIsThreeDigits(line: string, timestamp: real)
    requires |line| >= 3 && forall i :: 0 <= i < |line| ==> HexDigit(line[i]).Some?
    ensures ParseCanFrame(line, timestamp)
         == if |line| == 3 then None else FrameFrom(line[..3], line[3..], None, timestamp)
  {
    AllHexParses(line);
    HexIsWord(line);
    OneWord(line);
  }
}
