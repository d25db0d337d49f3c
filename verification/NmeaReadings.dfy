/**
 * What the position sentences say, field by field: RMC, GGA and GST printed from their fields,
 * with their checksum, and given to an accumulator that has any last fix or none.
 */
module NmeaReadings {
  import opened Prelude
  import opened NmeaStream
  import opened NmeaSentences

  predicate EndsWith(s: Bytes, suffix: Bytes) {
    |s| >= |suffix| && s[|s| - |suffix|..] == suffix
  }

  // N, S, E and W, and what else of "NSEW" a substring search finds: the empty text too.
  predicate IsLetter(letter: Bytes) {
    letter in {
      [], [0x4E], [0x53], [0x45], [0x57], [0x4E, 0x53], [0x53, 0x45], [0x45, 0x57],
      [0x4E, 0x53, 0x45], [0x53, 0x45, 0x57], [0x4E, 0x53, 0x45, 0x57]}
  }

  // Three digits of degrees east and west, two otherwise.
  function DegreeDigits(letter: Bytes): nat {
    if letter == [0x45] || letter == [0x57] then 3 else 2
  }

  /** Whole degrees, then minutes. */
  predicate IsAngle(lib: Library, value: Bytes, letter: Bytes) {
    var n := DegreeDigits(letter);
    IsLetter(letter) && |value| > n && lib.parseInt(value[..n]).Some? && lib.parseFloat(value[n..]).Some?
  }

  /** Degrees and sixtieths of a degree, negative in the south and the west. */
  function Angle(lib: Library, value: Bytes, letter: Bytes): real
    requires IsAngle(lib, value, letter)
  {
    var n := DegreeDigits(letter);
    var degrees := lib.parseInt(value[..n]).value as real + lib.parseFloat(value[n..]).value / 60.0;
    if letter == [0x53] || letter == [0x57] then -degrees else degrees
  }

  predicate NumberOrEmpty<T>(parse: Bytes -> Option<T>, field: Bytes) {
    field == [] || parse(field).Some?
  }

  function NumberIn<T>(parse: Bytes -> Option<T>, field: Bytes): Option<T> {
    if field == [] then None else parse(field)
  }

  predicate CloseTo(a: real, b: real) {
    -0.001 < a - b < 0.001
  }

  function Kept<T>(said: Option<T>, before: Option<T>): Option<T> {
    match said
    case Some(_) => said
    case None => before
  }

  /**
   * The fix after one that was said: it alone, or, within a thousandth of a degree of the last one,
   * with the last one's value of each field it leaves out.
   */
  predicate Follows(last: Option<Fix>, said: Fix, next: Option<Fix>) {
    next.Some? &&
    if last.Some? && CloseTo(said.latitude, last.value.latitude) && CloseTo(said.longitude, last.value.longitude) then
      && next.value.latitude == said.latitude && next.value.longitude == said.longitude
      && next.value.altitude == Kept(said.altitude, last.value.altitude)
      && next.value.speed == Kept(said.speed, last.value.speed)
      && next.value.heading == Kept(said.heading, last.value.heading)
      && next.value.accuracy == Kept(said.accuracy, last.value.accuracy)
      && next.value.recordedAt == Kept(said.recordedAt, last.value.recordedAt)
      && next.value.quality == Kept(said.quality, last.value.quality)
      && next.value.satellites == Kept(said.satellites, last.value.satellites)
    else next.value == said
  }

  // ------------------------------------------------------------------ from the print to the fields

  lemma TypeIsSuffix(fields: seq<Bytes>, kind: Bytes)
    requires AreFields(fields) && |kind| == 3 && DOLLAR !in kind
    ensures TypeOf(Marked(fields)) == kind <==> EndsWith(fields[0], kind)
  {
    var marked := [DOLLAR] + fields[0];
    if |fields[0]| >= 3 {
      assert marked[|marked| - 3..] == fields[0][|fields[0]| - 3..];
    } else if |fields[0]| == 2 {
      assert marked[|marked| - 3..][0] == DOLLAR;
      assert kind[0] in kind;
    }
  }

  lemma KindsDiffer()
    ensures RMC == [0x52, 0x4D, 0x43] && GGA == [0x47, 0x47, 0x41] && GST == [0x47, 0x53, 0x54]
    ensures RMC != GGA && RMC != GST && GGA != GST
    ensures DOLLAR !in RMC && DOLLAR !in GGA && DOLLAR !in GST
  {
    assert RMC[0] != GGA[0] && RMC[0] != GST[0] && GGA[1] != GST[1];
  }

  lemma LettersAreHemispheres(letter: Bytes)
    ensures IsHemisphere(letter) <==> IsLetter(letter)
  {
    var letters := [NORTH, SOUTH, EAST, WEST];
    assert letters[0..0] == [] && letters[0..1] == [0x4E] && letters[1..2] == [0x53];
    assert letters[2..3] == [0x45] && letters[3..4] == [0x57] && letters[0..2] == [0x4E, 0x53];
    assert letters[1..3] == [0x53, 0x45] && letters[2..4] == [0x45, 0x57] && letters[0..3] == [0x4E, 0x53, 0x45];
    assert letters[1..4] == [0x53, 0x45, 0x57] && letters[0..4] == [0x4E, 0x53, 0x45, 0x57];
    if IsHemisphere(letter) {
      var i, j :| 0 <= i <= j <= 4 && letter == letters[i..j];
      SliceIsLetter(i, j);
    }
  }

  lemma SliceIsLetter(i: int, j: int)
    requires 0 <= i <= j <= 4
    ensures IsLetter([NORTH, SOUTH, EAST, WEST][i..j])
  {
    var letters := [NORTH, SOUTH, EAST, WEST];
    if i == j { assert letters[i..j] == []; }
    else if j == i + 1 { assert letters[i..j] == [letters[i]]; }
    else if j == i + 2 { assert letters[i..j] == [letters[i], letters[i + 1]]; }
    else if j == i + 3 { assert letters[i..j] == [letters[i], letters[i + 1], letters[i + 2]]; }
    else { assert letters[i..j] == letters; }
  }

  lemma CoordinateIsAngle(lib: Library, value: Bytes, letter: Bytes)
    ensures Coordinate(lib, value, letter)
         == if IsAngle(lib, value, letter) then Some(Angle(lib, value, letter)) else None
  {
    LettersAreHemispheres(letter);
  }

  lemma FixFollows(lib: Library, last: Option<Fix>, sentence: Bytes, fix: Fix)
    requires ParseGstAccuracy(lib, sentence) == None && ParseNmea(lib, sentence) == Position(fix)
    ensures Follows(last, fix, LastFixAfter(lib, last, sentence))
  {}

  function Marked(fields: seq<Bytes>): (marked: seq<Bytes>)
    requires fields != []
    ensures |marked| == |fields| && forall i :: 1 <= i < |fields| ==> marked[i] == fields[i]
  {
    [[DOLLAR] + fields[0]] + fields[1..]
  }

  /** A printed sentence passes the check, and its type is what its first field ends with. */
  lemma PrintedComesApart(fields: seq<Bytes>)
    requires AreFields(fields)
    ensures Trim(PrintedSentence(fields)) == PrintedSentence(fields) && ValidChecksum(PrintedSentence(fields))
    ensures FieldsOf(PrintedSentence(fields)) == Marked(fields)
    ensures TypeOf(Marked(fields)) == RMC <==> EndsWith(fields[0], [0x52, 0x4D, 0x43])
    ensures TypeOf(Marked(fields)) == GGA <==> EndsWith(fields[0], [0x47, 0x47, 0x41])
    ensures TypeOf(Marked(fields)) == GST <==> EndsWith(fields[0], [0x47, 0x53, 0x54])
  {
    KindsDiffer();
    PrintedFieldsComeBack(fields);
    TypeIsSuffix(fields, RMC);
    TypeIsSuffix(fields, GGA);
    TypeIsSuffix(fields, GST);
  }

  /** Only the type decides which reader a printed sentence meets. */
  lemma PrintedIsParsed(lib: Library, fields: seq<Bytes>)
    requires AreFields(fields)
    ensures ParseNmea(lib, PrintedSentence(fields)) ==
      if EndsWith(fields[0], [0x52, 0x4D, 0x43]) then ParseRmc(lib, Marked(fields))
      else if EndsWith(fields[0], [0x47, 0x47, 0x41]) then ParseGga(lib, Marked(fields))
      else Nothing
    ensures ParseGstAccuracy(lib, PrintedSentence(fields)) ==
      if EndsWith(fields[0], [0x47, 0x53, 0x54]) then GstRead(lib, fields) else None
  {
    PrintedComesApart(fields);
  }

  lemma TypesExclude(field: Bytes)
    ensures EndsWith(field, [0x52, 0x4D, 0x43]) ==> !EndsWith(field, [0x47, 0x53, 0x54])
    ensures EndsWith(field, [0x47, 0x47, 0x41]) ==> !EndsWith(field, [0x47, 0x53, 0x54])
    ensures EndsWith(field, [0x47, 0x47, 0x41]) ==> !EndsWith(field, [0x52, 0x4D, 0x43])
    ensures EndsWith(field, [0x47, 0x53, 0x54]) ==> !EndsWith(field, [0x52, 0x4D, 0x43])
  {
    KindsDiffer();
  }

  predicate GstSpeaks(lib: Library, fields: seq<Bytes>) {
    && |fields| >= 8 && fields[6] != [] && fields[7] != []
    && lib.parseFloat(fields[6]).Some? && lib.parseFloat(fields[7]).Some?
  }

  function GstRead(lib: Library, fields: seq<Bytes>): Option<real> {
    if GstSpeaks(lib, fields) then Some(lib.hypot(lib.parseFloat(fields[6]).value, lib.parseFloat(fields[7]).value))
    else None
  }

  // ------------------------------------------------------------------ RMC

  predicate RmcSpeaks(lib: Library, fields: seq<Bytes>) {
    && |fields| >= 10 && fields[2] == [0x41]
    && IsAngle(lib, fields[3], fields[4]) && IsAngle(lib, fields[5], fields[6])
    && NumberOrEmpty(lib.parseFloat, fields[7]) && NumberOrEmpty(lib.parseFloat, fields[8])
  }

  function RmcFix(lib: Library, fields: seq<Bytes>): Fix
    requires RmcSpeaks(lib, fields)
  {
    var knots := NumberIn(lib.parseFloat, fields[7]);
    Fix(Angle(lib, fields[3], fields[4]), Angle(lib, fields[5], fields[6]), None,
        if knots.Some? then Some(knots.value * 1.852) else None,
        NumberIn(lib.parseFloat, fields[8]), None, lib.clock(fields[1], fields[9]), None, None)
  }

  lemma RmcIsRead(lib: Library, fields: seq<Bytes>)
    requires fields != []
    ensures RmcSpeaks(lib, fields) ==> ParseRmc(lib, Marked(fields)) == Position(RmcFix(lib, fields))
    ensures !RmcSpeaks(lib, fields) ==> !ParseRmc(lib, Marked(fields)).Position?
  {
    if |fields| >= 10 {
      CoordinateIsAngle(lib, fields[3], fields[4]);
      CoordinateIsAngle(lib, fields[5], fields[6]);
    }
  }

  /**
   * An RMC sentence of at least ten fields and status A is at the latitude of fields 3 and 4 and the
   * longitude of fields 5 and 6, with the speed of field 7 in km/h, the heading of field 8 and the
   * time of fields 1 and 9. One that is incomplete, void or unreadable says nothing.
   */
  lemma RmcSays(lib: Library, last: Option<Fix>, fields: seq<Bytes>)
    requires AreFields(fields) && EndsWith(fields[0], [0x52, 0x4D, 0x43])
    ensures var next := LastFixAfter(lib, last, PrintedSentence(fields));
      if RmcSpeaks(lib, fields) then Follows(last, RmcFix(lib, fields), next) else next == last
  {
    PrintedIsParsed(lib, fields);
    TypesExclude(fields[0]);
    RmcIsRead(lib, fields);
    if RmcSpeaks(lib, fields) {
      FixFollows(lib, last, PrintedSentence(fields), RmcFix(lib, fields));
    }
  }

  // ------------------------------------------------------------------ GGA

  // An empty quality counts as zero.
  function QualityIn(lib: Library, field: Bytes): Option<int> {
    lib.parseInt(if field == [] then [0x30] else field)
  }

  predicate GgaSpeaks(lib: Library, fields: seq<Bytes>) {
    && |fields| >= 10 && QualityIn(lib, fields[6]).Some? && QualityIn(lib, fields[6]).value > 0
    && IsAngle(lib, fields[2], fields[3]) && IsAngle(lib, fields[4], fields[5])
    && NumberOrEmpty(lib.parseInt, fields[7]) && NumberOrEmpty(lib.parseFloat, fields[9])
  }

  function GgaFix(lib: Library, fields: seq<Bytes>): Fix
    requires GgaSpeaks(lib, fields)
  {
    Fix(Angle(lib, fields[2], fields[3]), Angle(lib, fields[4], fields[5]), NumberIn(lib.parseFloat, fields[9]),
        None, None, None, None, QualityIn(lib, fields[6]), NumberIn(lib.parseInt, fields[7]))
  }

  lemma GgaIsRead(lib: Library, fields: seq<Bytes>)
    requires fields != []
    ensures GgaSpeaks(lib, fields) ==> ParseGga(lib, Marked(fields)) == Position(GgaFix(lib, fields))
    ensures !GgaSpeaks(lib, fields) ==> !ParseGga(lib, Marked(fields)).Position?
  {
    if |fields| >= 10 {
      CoordinateIsAngle(lib, fields[2], fields[3]);
      CoordinateIsAngle(lib, fields[4], fields[5]);
    }
  }

  /**
   * A GGA sentence of at least ten fields and a positive quality in field 6 is at the latitude of
   * fields 2 and 3 and the longitude of fields 4 and 5, with the satellites of field 7 and the
   * altitude of field 9. One without a fix, incomplete or unreadable says nothing.
   */
  lemma GgaSays(lib: Library, last: Option<Fix>, fields: seq<Bytes>)
    requires AreFields(fields) && EndsWith(fields[0], [0x47, 0x47, 0x41])
    ensures var next := LastFixAfter(lib, last, PrintedSentence(fields));
      if GgaSpeaks(lib, fields) then Follows(last, GgaFix(lib, fields), next) else next == last
  {
    PrintedIsParsed(lib, fields);
    TypesExclude(fields[0]);
    GgaIsRead(lib, fields);
    if GgaSpeaks(lib, fields) {
      FixFollows(lib, last, PrintedSentence(fields), GgaFix(lib, fields));
    }
  }

  // ------------------------------------------------------------------ GST and the rest

  /**
   * A GST sentence gives the last fix the hypotenuse of fields 6 and 7 as its accuracy; before a fix
   * it says nothing.
   */
  lemma GstSays(lib: Library, last: Option<Fix>, fields: seq<Bytes>)
    requires AreFields(fields) && EndsWith(fields[0], [0x47, 0x53, 0x54])
    ensures LastFixAfter(lib, last, PrintedSentence(fields)) ==
      if last.Some? && GstSpeaks(lib, fields) then
        var meters := lib.hypot(lib.parseFloat(fields[6]).value, lib.parseFloat(fields[7]).value);
        Some(last.value.(accuracy := Some(meters)))
      else last
  {
    PrintedIsParsed(lib, fields);
    TypesExclude(fields[0]);
  }

  /** A sentence of another type says nothing. */
  lemma OthersSayNothing(lib: Library, last: Option<Fix>, fields: seq<Bytes>)
    requires AreFields(fields)
    requires !EndsWith(fields[0], [0x52, 0x4D, 0x43]) && !EndsWith(fields[0], [0x47, 0x47, 0x41])
    requires !EndsWith(fields[0], [0x47, 0x53, 0x54])
    ensures LastFixAfter(lib, last, PrintedSentence(fields)) == last
  {
    PrintedIsParsed(lib, fields);
  }

  // ------------------------------------------------------------------ what is printed, byte by byte

  /** The fields with a comma between every two. */
  function WithCommas(fields: seq<Bytes>): Bytes
    requires fields != []
  {
    if |fields| == 1 then fields[0] else fields[0] + [0x2C] + WithCommas(fields[1..])
  }

  /** The dollar, the fields, the star and two digits; the fields are any bytes but comma and star. */
  lemma {:induction false} PrintedInBytes(fields: seq<Bytes>)
    requires fields != []
    ensures JoinedFields(fields) == WithCommas(fields)
    ensures AreFields(fields) <==> forall i :: 0 <= i < |fields| ==> 0x2C !in fields[i] && 0x2A !in fields[i]
    ensures |PrintedSentence(fields)| == |WithCommas(fields)| + 4
    ensures [0x24] + WithCommas(fields) + [0x2A] <= PrintedSentence(fields)
  {
    if |fields| > 1 { PrintedInBytes(fields[1..]); }
    assert AreFields(fields) <==> forall i :: 0 <= i < |fields| ==> IsField(fields[i]);
    var line := [0x24] + WithCommas(fields) + [0x2A];
    assert PrintedSentence(fields)[..|line|] == line;
  }

  predicate AllSpace(s: Bytes) {
    forall i :: 0 <= i < |s| ==> s[i] == 0x20 || 0x09 <= s[i] <= 0x0D
  }

  lemma {:induction false} SpaceIsTrimmed(before: Bytes, line: Bytes, after: Bytes)
    requires AllSpace(before) && AllSpace(after) && line != []
    requires !IsSpace(line[0]) && !IsSpace(line[|line| - 1])
    ensures Trim(before + line + after) == line
    decreases |before| + |after|
  {
    var padded := before + line + after;
    if before != [] {
      SpaceIsTrimmed(before[1..], line, after);
      assert padded[1..] == before[1..] + line + after;
    } else if after != [] {
      SpaceIsTrimmed([], line, after[..|after| - 1]);
      assert padded[..|padded| - 1] == [] + line + after[..|after| - 1];
      assert padded[0] == line[0];
    } else {
      assert padded == line;
    }
  }

  lemma TrimmedSayTheSame(lib: Library, last: Option<Fix>, a: Bytes, b: Bytes)
    requires Trim(a) == Trim(b)
    ensures LastFixAfter(lib, last, a) == LastFixAfter(lib, last, b)
  {}

  lemma PrintedHasNoSpaceAround(fields: seq<Bytes>)
    requires fields != []
    ensures var line := PrintedSentence(fields); line != [] && !IsSpace(line[0]) && !IsSpace(line[|line| - 1])
  {
    PrintedHasNoSpace(Xor(JoinedFields(fields)));
  }

  /** Spaces around a sentence change nothing of what it says. */
  lemma PaddingSaysNothing(lib: Library, last: Option<Fix>, fields: seq<Bytes>, before: Bytes, after: Bytes)
    requires AreFields(fields) && AllSpace(before) && AllSpace(after)
    ensures LastFixAfter(lib, last, before + PrintedSentence(fields) + after)
         == LastFixAfter(lib, last, PrintedSentence(fields))
  {
    PrintedFieldsComeBack(fields);
    PrintedHasNoSpaceAround(fields);
    SpaceIsTrimmed(before, PrintedSentence(fields), after);
    TrimmedSayTheSame(lib, last, before + PrintedSentence(fields) + after, PrintedSentence(fields));
  }

  // ------------------------------------------------------------------ the checksum, bit by bit

  /** How many of the bytes have a bit set. */
  function BytesWith(s: Bytes, bit: bv8): nat
    decreases |s|
  {
    if s == [] then 0 else BytesWith(s[..|s| - 1], bit) + if s[|s| - 1] & bit != 0 then 1 else 0
  }

  predicate IsBit(bit: bv8) {
    bit in {0x01, 0x02, 0x04, 0x08, 0x10, 0x20, 0x40, 0x80}
  }

  lemma OneMoreByte(x: bv8, b: bv8, bit: bv8)
    requires IsBit(bit)
    ensures (x ^ b) & bit != 0 <==> (x & bit != 0) != (b & bit != 0)
  {}

  lemma {:induction false} ChecksumBit(s: Bytes, bit: bv8)
    requires IsBit(bit)
    ensures Xor(s) & bit != 0 <==> BytesWith(s, bit) % 2 == 1
    decreases |s|
  {
    if s != [] {
      ChecksumBit(s[..|s| - 1], bit);
      OneMoreByte(Xor(s[..|s| - 1]), s[|s| - 1], bit);
    }
  }

  lemma BitsDecide(x: bv8, y: bv8)
    requires forall bit :: IsBit(bit) ==> (x & bit != 0 <==> y & bit != 0)
    ensures x == y
  {
    assert IsBit(0x01) && IsBit(0x02) && IsBit(0x04) && IsBit(0x08);
    assert IsBit(0x10) && IsBit(0x20) && IsBit(0x40) && IsBit(0x80);
    EightBits(x, y);
  }

  lemma EightBits(x: bv8, y: bv8)
    requires (x & 0x01 != 0 <==> y & 0x01 != 0) && (x & 0x02 != 0 <==> y & 0x02 != 0)
    requires (x & 0x04 != 0 <==> y & 0x04 != 0) && (x & 0x08 != 0 <==> y & 0x08 != 0)
    requires (x & 0x10 != 0 <==> y & 0x10 != 0) && (x & 0x20 != 0 <==> y & 0x20 != 0)
    requires (x & 0x40 != 0 <==> y & 0x40 != 0) && (x & 0x80 != 0 <==> y & 0x80 != 0)
    ensures x == y
  {}

  /** A character that is a hexadecimal digit of either case. */
  predicate SpellsDigit(c: bv8, digit: bv8) {
    if digit < 10 then c == 0x30 + digit
    else digit < 16 && (c == 0x41 + (digit - 10) || c == 0x61 + (digit - 10))
  }

  /** A dollar, a body without a star, a star, and two digits that spell its bits' parities. */
  ghost predicate Checked(sentence: Bytes, body: Bytes, high: bv8, low: bv8, rest: Bytes) {
    && 0x2A !in body && high < 16 && low < 16
    && |sentence| == |body| + 4 + |rest|
    && sentence == [0x24] + body + [0x2A] + sentence[|body| + 2..|body| + 4] + rest
    && SpellsDigit(sentence[|body| + 2], high) && SpellsDigit(sentence[|body| + 3], low)
    && forall bit :: IsBit(bit) ==> (((high << 4) | low) & bit != 0 <==> BytesWith(body, bit) % 2 == 1)
  }

  lemma DigitIsRead(c: bv8, digit: bv8)
    ensures HexDigit(c) == Some(digit) <==> SpellsDigit(c, digit)
    ensures SpellsDigit(c, digit) ==> digit < 16
  {}

  lemma CheckedIsFramed(sentence: Bytes, body: Bytes, high: bv8, low: bv8, rest: Bytes)
    requires Checked(sentence, body, high, low, rest)
    ensures Framed(sentence, body, sentence[|body| + 2..])
  {
    var tail := sentence[|body| + 2..];
    assert tail[0] == sentence[|body| + 2] && tail[1] == sentence[|body| + 3];
    DigitIsRead(tail[0], high);
    DigitIsRead(tail[1], low);
    forall bit | IsBit(bit) ensures ((high << 4) | low) & bit != 0 <==> Xor(body) & bit != 0 {
      ChecksumBit(body, bit);
    }
    BitsDecide((high << 4) | low, Xor(body));
  }

  lemma FramedIsChecked(sentence: Bytes, body: Bytes, tail: Bytes)
    requires Framed(sentence, body, tail)
    ensures Checked(sentence, body, HexDigit(tail[0]).value, HexDigit(tail[1]).value, tail[2..])
  {
    var high, low := HexDigit(tail[0]).value, HexDigit(tail[1]).value;
    DigitIsRead(tail[0], high);
    DigitIsRead(tail[1], low);
    assert sentence[|body| + 2..] == tail;
    forall bit | IsBit(bit) ensures ((high << 4) | low) & bit != 0 <==> BytesWith(body, bit) % 2 == 1 {
      ChecksumBit(body, bit);
    }
  }

  /**
   * The check accepts exactly the sentences whose two digits spell the number that has those bits
   * set which oddly many bytes of the body have.
   */
  lemma ChecksumIsParity(sentence: Bytes)
    ensures ValidChecksum(sentence)
      <==> exists body, high, low, rest :: Checked(sentence, body, high, low, rest)
  {
    ChecksumMeansFramed(sentence);
    if body, tail :| Framed(sentence, body, tail) {
      FramedIsChecked(sentence, body, tail);
    }
    if body, high, low, rest :| Checked(sentence, body, high, low, rest) {
      CheckedIsFramed(sentence, body, high, low, rest);
    }
  }
}
