/** One NMEA 0183 sentence: its checksum, its fields, and what it says about the position. */
module NmeaSentences {
  import opened Prelude
  import opened NmeaStream

  const DOLLAR: bv8 := 0x24
  const STAR: bv8 := 0x2A
  const COMMA: bv8 := 0x2C
  const SPACE: bv8 := 0x20

  // ------------------------------------------------------------------ checksum

  function IndexOf(s: Bytes, b: bv8): (i: nat)
    ensures i <= |s|
    ensures b !in s[..i]
    ensures i < |s| ==> s[i] == b
  {
    if s == [] || s[0] == b then 0
    else
      var rest := IndexOf(s[1..], b);
      assert s[..1 + rest] == [s[0]] + s[1..][..rest];
      1 + rest
  }

  lemma IndexOfIsFirst(s: Bytes, b: bv8, i: nat)
    requires i < |s| && s[i] == b && b !in s[..i]
    ensures IndexOf(s, b) == i
  {
    var j := IndexOf(s, b);
    assert forall k :: 0 <= k < i ==> s[..i][k] == s[k];
    assert forall k :: 0 <= k < j ==> s[..j][k] == s[k];
    assert forall k :: 0 <= k < i ==> s[..i][k] in s[..i];
    assert forall k :: 0 <= k < j ==> s[..j][k] in s[..j];
  }

  function Xor(s: Bytes): bv8
    decreases |s|
  {
    if s == [] then 0 else Xor(s[..|s| - 1]) ^ s[|s| - 1]
  }

  function HexDigit(b: bv8): Option<bv8> {
    if 0x30 <= b <= 0x39 then Some(b - 0x30)
    else if 0x41 <= b <= 0x46 then Some(b - 0x37)
    else if 0x61 <= b <= 0x66 then Some(b - 0x57)
    else None
  }

  // strconv.ParseUint of two characters, base 16, 8 bits.
  function HexPair(high: bv8, low: bv8): Option<bv8> {
    if HexDigit(high).Some? && HexDigit(low).Some? then Some((HexDigit(high).value << 4) | HexDigit(low).value)
    else None
  }

  function UpperHex(nibble: bv8): bv8 {
    if nibble < 10 then nibble + 0x30 else nibble + 0x37
  }

  // fmt %02X of one byte.
  function Printed(b: bv8): Bytes {
    [UpperHex(b >> 4), UpperHex(b & 0x0F)]
  }

  lemma PrintedParsesBack(b: bv8)
    ensures HexPair(Printed(b)[0], Printed(b)[1]) == Some(b)
  {
    var high, low := b >> 4, b & 0x0F;
    assert high < 16 && low < 16;
    assert HexDigit(UpperHex(high)) == Some(high);
    assert HexDigit(UpperHex(low)) == Some(low);
    assert (high << 4) | low == b;
  }

  /** The reference: a dollar, a body without a star, a star, and two hex digits that spell its XOR. */
  ghost predicate Framed(sentence: Bytes, body: Bytes, rest: Bytes) {
    && STAR !in body && |rest| >= 2
    && sentence == [DOLLAR] + body + [STAR] + rest
    && HexPair(rest[0], rest[1]) == Some(Xor(body))
  }

  function BodyOf(sentence: Bytes): Bytes
    requires sentence != []
  {
    sentence[1..][..IndexOf(sentence[1..], STAR)]
  }

  predicate ValidChecksum(sentence: Bytes) {
    && sentence != [] && sentence[0] == DOLLAR && STAR in sentence
    && var star := IndexOf(sentence[1..], STAR);
       var rest := sentence[1..][if star < |sentence[1..]| then star + 1 else star..];
       |rest| >= 2 && HexPair(rest[0], rest[1]) == Some(Xor(BodyOf(sentence)))
  }

  method CheckSentence(sentence: Bytes) returns (valid: bool)
    ensures valid <==> ValidChecksum(sentence)
  {
    if sentence == [] || sentence[0] != DOLLAR || STAR !in sentence { return false; }
    var trimmed := sentence[1..];
    StarSurvivesTrim(sentence);
    var star := IndexOf(trimmed, STAR);
    var body, rest := trimmed[..star], trimmed[star + 1..];
    if |rest| < 2 { return false; }
    var value: bv8 := 0;
    for index := 0 to |body|
      invariant value == Xor(body[..index])
    {
      value := value ^ body[index];
      assert body[..index + 1][..index] == body[..index];
    }
    assert body[..|body|] == body;
    valid := HexPair(rest[0], rest[1]) == Some(value);
  }

  lemma StarSurvivesTrim(sentence: Bytes)
    requires sentence != [] && sentence[0] == DOLLAR && STAR in sentence
    ensures IndexOf(sentence[1..], STAR) < |sentence[1..]|
  {
    var k :| 0 <= k < |sentence| && sentence[k] == STAR;
    assert sentence[1..][k - 1] == STAR;
    assert sentence[1..][..|sentence[1..]|] == sentence[1..];
  }

  /** The check accepts exactly the framed sentences whose two digits are the XOR of their body. */
  lemma ChecksumMeansFramed(sentence: Bytes)
    ensures ValidChecksum(sentence) <==> exists body, rest :: Framed(sentence, body, rest)
  {
    if ValidChecksum(sentence) {
      StarSurvivesTrim(sentence);
      var star := IndexOf(sentence[1..], STAR);
      var body, rest := BodyOf(sentence), sentence[1..][star + 1..];
      assert sentence == [DOLLAR] + body + [STAR] + rest;
      assert Framed(sentence, body, rest);
    }
    if body, rest :| Framed(sentence, body, rest) {
      FramedIsValid(sentence, body, rest);
    }
  }

  lemma FramedParts(body: Bytes, rest: Bytes)
    requires STAR !in body
    ensures var sentence := [DOLLAR] + body + [STAR] + rest;
      && STAR in sentence && IndexOf(sentence[1..], STAR) == |body|
      && BodyOf(sentence) == body && sentence[1..][|body| + 1..] == rest
  {
    var sentence := [DOLLAR] + body + [STAR] + rest;
    assert sentence[1..] == body + [STAR] + rest;
    assert sentence[1..][..|body|] == body && sentence[1..][|body|] == STAR;
    assert sentence[|body| + 1] == STAR;
    IndexOfIsFirst(sentence[1..], STAR, |body|);
  }

  lemma FramedIsValid(sentence: Bytes, body: Bytes, rest: Bytes)
    requires Framed(sentence, body, rest)
    ensures ValidChecksum(sentence) && BodyOf(sentence) == body
  {
    FramedParts(body, rest);
  }

  /** Every body without a star, of any length, printed with its checksum is accepted. */
  lemma PrintedSentenceIsAccepted(body: Bytes, suffix: Bytes)
    requires STAR !in body
    ensures ValidChecksum([DOLLAR] + body + [STAR] + Printed(Xor(body)) + suffix)
  {
    var rest := Printed(Xor(body)) + suffix;
    PrintedParsesBack(Xor(body));
    assert [DOLLAR] + body + [STAR] + Printed(Xor(body)) + suffix == [DOLLAR] + body + [STAR] + rest;
    FramedIsValid([DOLLAR] + body + [STAR] + rest, body, rest);
  }

  lemma {:induction false} XorOfChange(body: Bytes, i: nat, b: bv8)
    requires i < |body|
    ensures Xor(body[i := b]) == Xor(body) ^ body[i] ^ b
    decreases |body|
  {
    var last := |body| - 1;
    if i == last {
      assert body[i := b][..last] == body[..last];
    } else {
      assert body[i := b][..last] == body[..last][i := b];
      XorOfChange(body[..last], i, b);
    }
  }

  /** Changing exactly one byte of an accepted body to another byte that is not a star is always caught. */
  lemma OneByteChangeIsRejected(body: Bytes, rest: Bytes, i: nat, b: bv8)
    requires Framed([DOLLAR] + body + [STAR] + rest, body, rest)
    requires i < |body| && b != body[i] && b != STAR
    ensures !ValidChecksum([DOLLAR] + body[i := b] + [STAR] + rest)
  {
    var changed := body[i := b];
    XorOfChange(body, i, b);
    XorDiffers(Xor(body), body[i], b);
    FramedParts(changed, rest);
  }

  lemma XorDiffers(x: bv8, old_: bv8, new_: bv8)
    requires old_ != new_
    ensures x ^ old_ ^ new_ != x
  {}

  // ------------------------------------------------------------------ fields

  function Split(s: Bytes, separator: bv8): (parts: seq<Bytes>)
    ensures |parts| >= 1
  {
    var i := IndexOf(s, separator);
    if i == |s| then [s] else [s[..i]] + Split(s[i + 1..], separator)
  }

  predicate IsSpace(b: bv8) {
    b == SPACE || 0x09 <= b <= 0x0D
  }

  // strings.TrimSpace, for ASCII.
  function Trim(s: Bytes): Bytes
    decreases |s|
  {
    if s == [] then s
    else if IsSpace(s[0]) then Trim(s[1..])
    else if IsSpace(s[|s| - 1]) then Trim(s[..|s| - 1])
    else s
  }

  function FieldsOf(line: Bytes): seq<Bytes> {
    Split(line[..IndexOf(line, STAR)], COMMA)
  }

  /** Number and date parsing, and the hypotenuse, are the library's; nothing is assumed of them. */
  datatype Library = Library(
    parseFloat: Bytes -> Option<real>,
    parseInt: Bytes -> Option<int>,
    hypot: (real, real) -> real,
    clock: (Bytes, Bytes) -> Option<int>)

  datatype Fix = Fix(
    latitude: real, longitude: real,
    altitude: Option<real>, speed: Option<real>, heading: Option<real>, accuracy: Option<real>,
    recordedAt: Option<int>, quality: Option<int>, satellites: Option<int>)

  datatype Parsed = Invalid | Nothing | Position(fix: Fix)

  const KNOTS_TO_KMH := 1.852

  const NORTH: bv8 := 0x4E
  const SOUTH: bv8 := 0x53
  const EAST: bv8 := 0x45
  const WEST: bv8 := 0x57

  // strings.Contains("NSEW", hemisphere): any run of those letters, the empty one included.
  predicate IsHemisphere(h: Bytes) {
    var letters := [NORTH, SOUTH, EAST, WEST];
    exists i, j :: 0 <= i <= j <= 4 && h == letters[i..j]
  }

  function Coordinate(lib: Library, value: Bytes, hemisphere: Bytes): Option<real> {
    if value == [] || !IsHemisphere(hemisphere) then None
    else
      var degreeDigits := if hemisphere == [EAST] || hemisphere == [WEST] then 3 else 2;
      if |value| <= degreeDigits then None
      else
        var degrees := lib.parseInt(value[..degreeDigits]);
        var minutes := lib.parseFloat(value[degreeDigits..]);
        if degrees.None? || minutes.None? then None
        else
          var result := degrees.value as real + minutes.value / 60.0;
          Some(if hemisphere == [SOUTH] || hemisphere == [WEST] then -result else result)
  }

  /** An optional number: absent when the field is empty, an error when it does not parse. */
  function OptionalField<T>(parse: Bytes -> Option<T>, field: Bytes): Option<Option<T>> {
    if field == [] then Some(None)
    else if parse(field).None? then None
    else Some(parse(field))
  }

  const RMC: Bytes := [0x52, 0x4D, 0x43]
  const GGA: Bytes := [0x47, 0x47, 0x41]
  const GST: Bytes := [0x47, 0x53, 0x54]
  const ACTIVE: Bytes := [0x41]
  const ZERO: Bytes := [0x30]

  function ParseRmc(lib: Library, fields: seq<Bytes>): Parsed {
    if |fields| < 10 || fields[2] != ACTIVE then Nothing
    else
      var latitude := Coordinate(lib, fields[3], fields[4]);
      var longitude := Coordinate(lib, fields[5], fields[6]);
      var speed := OptionalField(lib.parseFloat, fields[7]);
      var heading := OptionalField(lib.parseFloat, fields[8]);
      if latitude.None? || longitude.None? || speed.None? || heading.None? then Invalid
      else
        Position(Fix(latitude.value, longitude.value, None,
          if speed.value.Some? then Some(speed.value.value * KNOTS_TO_KMH) else None,
          heading.value, None, lib.clock(fields[1], fields[9]), None, None))
  }

  function ParseGga(lib: Library, fields: seq<Bytes>): Parsed {
    if |fields| < 10 then Invalid
    else
      var quality := lib.parseInt(if fields[6] == [] then ZERO else fields[6]);
      if quality.None? then Invalid
      else if quality.value <= 0 then Nothing
      else
        var latitude := Coordinate(lib, fields[2], fields[3]);
        var longitude := Coordinate(lib, fields[4], fields[5]);
        var satellites := OptionalField(lib.parseInt, fields[7]);
        var altitude := OptionalField(lib.parseFloat, fields[9]);
        if latitude.None? || longitude.None? || satellites.None? || altitude.None? then Invalid
        else
          Position(Fix(latitude.value, longitude.value, altitude.value, None, None, None, None, quality,
                       satellites.value))
  }

  function TypeOf(fields: seq<Bytes>): Bytes
    requires |fields| >= 1
  {
    if |fields[0]| < 3 then [] else fields[0][|fields[0]| - 3..]
  }

  function ParseNmea(lib: Library, sentence: Bytes): Parsed {
    var line := Trim(sentence);
    if !ValidChecksum(line) then Invalid
    else
      var fields := FieldsOf(line);
      if TypeOf(fields) == RMC then ParseRmc(lib, fields)
      else if TypeOf(fields) == GGA then ParseGga(lib, fields)
      else Nothing
  }

  function ParseGstAccuracy(lib: Library, sentence: Bytes): Option<real> {
    var line := Trim(sentence);
    if !ValidChecksum(line) then None
    else
      var fields := FieldsOf(line);
      if TypeOf(fields) != GST || |fields| < 8 || fields[6] == [] || fields[7] == [] then None
      else
        var latitude, longitude := lib.parseFloat(fields[6]), lib.parseFloat(fields[7]);
        if latitude.None? || longitude.None? then None else Some(lib.hypot(latitude.value, longitude.value))
  }

  // ------------------------------------------------------------------ what is printed is read

  function JoinedFields(fields: seq<Bytes>): Bytes
    requires fields != []
  {
    if |fields| == 1 then fields[0] else fields[0] + [COMMA] + JoinedFields(fields[1..])
  }

  predicate IsField(f: Bytes) {
    COMMA !in f && STAR !in f
  }

  predicate AreFields(fields: seq<Bytes>) {
    fields != [] && forall i :: 0 <= i < |fields| ==> IsField(fields[i])
  }

  lemma SplitOff(first: Bytes, rest: Bytes)
    requires COMMA !in first
    ensures Split(first + [COMMA] + rest, COMMA) == [first] + Split(rest, COMMA)
  {
    var s := first + [COMMA] + rest;
    assert s[..|first|] == first && s[|first| + 1..] == rest;
    IndexOfIsFirst(s, COMMA, |first|);
  }

  lemma NoSeparatorLeft(s: Bytes, b: bv8)
    requires b !in s
    ensures IndexOf(s, b) == |s| && Split(s, b) == [s]
  {
    assert forall k :: 0 <= k < |s| ==> s[k] in s;
  }

  lemma {:induction false} JoinedFieldsSplit(fields: seq<Bytes>)
    requires AreFields(fields)
    ensures Split(JoinedFields(fields), COMMA) == fields && STAR !in JoinedFields(fields)
    decreases |fields|
  {
    assert IsField(fields[0]);
    if |fields| == 1 {
      NoSeparatorLeft(fields[0], COMMA);
    } else {
      JoinedFieldsSplit(fields[1..]);
      SplitOff(fields[0], JoinedFields(fields[1..]));
    }
  }

  function PrintedSentence(fields: seq<Bytes>): Bytes
    requires fields != []
  {
    [DOLLAR] + JoinedFields(fields) + [STAR] + Printed(Xor(JoinedFields(fields)))
  }

  lemma PrintedHasNoSpace(b: bv8)
    ensures !IsSpace(Printed(b)[1])
  {
    var low := b & 0x0F;
    assert low < 16;
    assert low < 10 ==> 0x30 <= UpperHex(low) <= 0x39;
    assert low >= 10 ==> 0x41 <= UpperHex(low) <= 0x46;
  }

  lemma WithDollar(fields: seq<Bytes>)
    requires fields != []
    ensures [DOLLAR] + JoinedFields(fields) == JoinedFields([[DOLLAR] + fields[0]] + fields[1..])
  {
    var marked := [[DOLLAR] + fields[0]] + fields[1..];
    assert marked[1..] == fields[1..];
    if |fields| > 1 {
      var rest := [COMMA] + JoinedFields(fields[1..]);
      assert [DOLLAR] + (fields[0] + rest) == ([DOLLAR] + fields[0]) + rest;
    }
  }

  lemma PrintedIsTrimmed(body: Bytes, b: bv8)
    ensures var line := [DOLLAR] + body + [STAR] + Printed(b); Trim(line) == line
  {
    var line := [DOLLAR] + body + [STAR] + Printed(b);
    PrintedHasNoSpace(b);
    assert line[0] == DOLLAR && line[|line| - 1] == Printed(b)[1];
  }

  lemma PrintedIsCut(body: Bytes, b: bv8)
    requires STAR !in body
    ensures var line := [DOLLAR] + body + [STAR] + Printed(b); line[..IndexOf(line, STAR)] == [DOLLAR] + body
  {
    var line := [DOLLAR] + body + [STAR] + Printed(b);
    assert line[..|body| + 1] == [DOLLAR] + body && line[|body| + 1] == STAR;
    IndexOfIsFirst(line, STAR, |body| + 1);
  }

  lemma MarkedAreFields(fields: seq<Bytes>)
    requires AreFields(fields)
    ensures AreFields([[DOLLAR] + fields[0]] + fields[1..])
  {
    var marked := [[DOLLAR] + fields[0]] + fields[1..];
    forall i | 0 <= i < |marked| ensures IsField(marked[i]) {
      assert IsField(fields[i]);
    }
  }

  /**
   * A sentence printed from fields without commas and stars, with its checksum, passes the check
   * and comes apart into the same fields, the dollar in front of the first.
   */
  lemma PrintedFieldsComeBack(fields: seq<Bytes>)
    requires AreFields(fields)
    ensures Trim(PrintedSentence(fields)) == PrintedSentence(fields)
    ensures ValidChecksum(PrintedSentence(fields))
    ensures FieldsOf(PrintedSentence(fields)) == [[DOLLAR] + fields[0]] + fields[1..]
  {
    var body := JoinedFields(fields);
    JoinedFieldsSplit(fields);
    PrintedIsTrimmed(body, Xor(body));
    PrintedSentenceIsAccepted(body, []);
    assert PrintedSentence(fields) + [] == PrintedSentence(fields);
    PrintedIsCut(body, Xor(body));
    MarkedAreFields(fields);
    WithDollar(fields);
    JoinedFieldsSplit([[DOLLAR] + fields[0]] + fields[1..]);
  }

  function Negated(value: Option<real>): Option<real> {
    if value.Some? then Some(-value.value) else None
  }

  /** South is the mirror of north and west of east, errors included. */
  lemma HemispheresMirror(lib: Library, value: Bytes)
    ensures Coordinate(lib, value, [SOUTH]) == Negated(Coordinate(lib, value, [NORTH]))
    ensures Coordinate(lib, value, [WEST]) == Negated(Coordinate(lib, value, [EAST]))
  {
    var letters := [NORTH, SOUTH, EAST, WEST];
    assert [NORTH] == letters[0..1] && [SOUTH] == letters[1..2] && [EAST] == letters[2..3] && [WEST] == letters[3..4];
    assert IsHemisphere([NORTH]) && IsHemisphere([SOUTH]) && IsHemisphere([EAST]) && IsHemisphere([WEST]);
    assert [NORTH][0] != [SOUTH][0] && [EAST][0] != [WEST][0] && [SOUTH][0] != [WEST][0] && [SOUTH][0] != [EAST][0];
    assert [NORTH][0] != [WEST][0] && [NORTH][0] != [EAST][0];
  }

  // ------------------------------------------------------------------ the accumulator

  function Abs(x: real): real { if x < 0.0 then -x else x }

  predicate Near(a: Fix, b: Fix) {
    Abs(a.latitude - b.latitude) < 0.001 && Abs(a.longitude - b.longitude) < 0.001
  }

  function Or<T>(first: Option<T>, second: Option<T>): Option<T> {
    if first.Some? then first else second
  }

  function Merged(previous: Fix, fix: Fix): Fix {
    Fix(fix.latitude, fix.longitude, Or(fix.altitude, previous.altitude), Or(fix.speed, previous.speed),
        Or(fix.heading, previous.heading), Or(fix.accuracy, previous.accuracy),
        Or(fix.recordedAt, previous.recordedAt), Or(fix.quality, previous.quality),
        Or(fix.satellites, previous.satellites))
  }

  function LastFixAfter(lib: Library, last: Option<Fix>, sentence: Bytes): Option<Fix> {
    var accuracy := ParseGstAccuracy(lib, sentence);
    if accuracy.Some? && last.Some? then Some(last.value.(accuracy := accuracy))
    else
      match ParseNmea(lib, sentence)
      case Position(fix) => Some(if last.Some? && Near(last.value, fix) then Merged(last.value, fix) else fix)
      case _ => last
  }

  class NmeaAccumulator {
    const lib: Library
    var lastFix: Option<Fix>

    constructor (lib: Library)
      ensures this.lib == lib && lastFix == None
    {
      this.lib := lib;
      lastFix := None;
    }

    method Consume(sentence: Bytes) returns (fix: Option<Fix>)
      modifies this
      ensures lastFix == LastFixAfter(lib, old(lastFix), sentence)
      ensures fix.Some? ==> lastFix == fix
      ensures fix.None? ==> lastFix == old(lastFix)
    {
      var accuracy := ParseGstAccuracy(lib, sentence);
      if accuracy.Some? && lastFix.Some? {
        lastFix := Some(lastFix.value.(accuracy := accuracy));
        return lastFix;
      }
      var parsed := ParseNmea(lib, sentence);
      if !parsed.Position? { return None; }
      var next := parsed.fix;
      if lastFix.Some? && Near(lastFix.value, next) {
        var previous := lastFix.value;
        if next.recordedAt.None? { next := next.(recordedAt := previous.recordedAt); }
        if next.altitude.None? { next := next.(altitude := previous.altitude); }
        if next.speed.None? { next := next.(speed := previous.speed); }
        if next.heading.None? { next := next.(heading := previous.heading); }
        if next.accuracy.None? { next := next.(accuracy := previous.accuracy); }
        if next.quality.None? { next := next.(quality := previous.quality); }
        if next.satellites.None? { next := next.(satellites := previous.satellites); }
      }
      lastFix := Some(next);
      fix := lastFix;
    }
  }

  // ------------------------------------------------------------------ what the last fix means

  /** What a sentence says on its own. */
  datatype Report = Silent | Accuracy(meters: real) | At(fix: Fix)

  function ReportOf(lib: Library, sentence: Bytes): Report {
    if ParseGstAccuracy(lib, sentence).Some? then Accuracy(ParseGstAccuracy(lib, sentence).value)
    else
      match ParseNmea(lib, sentence)
      case Position(fix) => At(fix)
      case _ => Silent
  }

  function Reports(lib: Library, sentences: seq<Bytes>): (reports: seq<Report>)
    ensures |reports| == |sentences|
  {
    seq(|sentences|, i requires 0 <= i < |sentences| => ReportOf(lib, sentences[i]))
  }

  function LastFixOf(lib: Library, sentences: seq<Bytes>): Option<Fix> {
    ParsedAll((last, sentence) => LastFixAfter(lib, last, sentence), None, sentences)
  }

  /** Report `i` is the latest position sentence. */
  predicate LatestPosition(reports: seq<Report>, i: int) {
    0 <= i < |reports| && reports[i].At? && forall j :: i < j < |reports| ==> !reports[j].At?
  }

  /** Position report `i` starts afresh: it is the first one, or far from the one before it. */
  ghost predicate Jump(reports: seq<Report>, i: int) {
    && 0 <= i < |reports| && reports[i].At?
    && forall p :: LatestPosition(reports[..i], p) ==> !Near(reports[p].fix, reports[i].fix)
  }

  ghost predicate LastJump(reports: seq<Report>, i: int) {
    Jump(reports, i) && forall j :: i < j < |reports| ==> !Jump(reports, j)
  }

  /** `value` is what the most recent report since `from` that has the field says, or nothing if none has it. */
  ghost predicate MostRecent<T>(reports: seq<Report>, from: int, field: Report -> Option<T>, value: Option<T>)
    requires 0 <= from
  {
    match value
    case Some(v) =>
      exists i :: from <= i < |reports| && field(reports[i]) == Some(v)
        && forall j :: i < j < |reports| ==> field(reports[j]) == None
    case None => forall i :: from <= i < |reports| ==> field(reports[i]) == None
  }

  function AltitudeOf(r: Report): Option<real> { if r.At? then r.fix.altitude else None }
  function SpeedOf(r: Report): Option<real> { if r.At? then r.fix.speed else None }
  function HeadingOf(r: Report): Option<real> { if r.At? then r.fix.heading else None }
  function TimeOf(r: Report): Option<int> { if r.At? then r.fix.recordedAt else None }
  function QualityOf(r: Report): Option<int> { if r.At? then r.fix.quality else None }
  function SatellitesOf(r: Report): Option<int> { if r.At? then r.fix.satellites else None }
  function AccuracyOf(r: Report): Option<real> {
    match r
    case At(fix) => fix.accuracy
    case Accuracy(meters) => Some(meters)
    case Silent => None
  }

  ghost predicate FieldsSince(reports: seq<Report>, from: int, fix: Fix)
    requires 0 <= from
  {
    && MostRecent(reports, from, AltitudeOf, fix.altitude)
    && MostRecent(reports, from, SpeedOf, fix.speed)
    && MostRecent(reports, from, HeadingOf, fix.heading)
    && MostRecent(reports, from, AccuracyOf, fix.accuracy)
    && MostRecent(reports, from, TimeOf, fix.recordedAt)
    && MostRecent(reports, from, QualityOf, fix.quality)
    && MostRecent(reports, from, SatellitesOf, fix.satellites)
  }

  /** The reference for the last fix after some reports. */
  ghost predicate Describes(last: Option<Fix>, reports: seq<Report>) {
    match last
    case None => forall i :: 0 <= i < |reports| ==> !reports[i].At?
    case Some(fix) =>
      && (exists i :: PlacedBy(reports, i, fix))
      && (exists i :: LastJump(reports, i) && FieldsSince(reports, i, fix))
  }

  predicate PlacedBy(reports: seq<Report>, i: int, fix: Fix) {
    && LatestPosition(reports, i)
    && fix.latitude == reports[i].fix.latitude && fix.longitude == reports[i].fix.longitude
  }

  lemma MostRecentAfter<T>(reports: seq<Report>, from: int, field: Report -> Option<T>, value: Option<T>, r: Report)
    requires 0 <= from <= |reports| && MostRecent(reports, from, field, value)
    ensures MostRecent(reports + [r], from, field, Or(field(r), value))
  {
    var longer := reports + [r];
    assert longer[|reports|] == r;
    if field(r).None? && value.Some? {
      var i :| from <= i < |reports| && field(reports[i]) == Some(value.value)
        && forall j :: i < j < |reports| ==> field(reports[j]) == None;
      assert longer[i] == reports[i];
      assert forall j :: i < j < |longer| ==> field(longer[j]) == None;
    }
  }

  lemma JumpKept(reports: seq<Report>, r: Report, i: int)
    requires 0 <= i < |reports|
    ensures Jump(reports + [r], i) <==> Jump(reports, i)
  {
    assert (reports + [r])[..i] == reports[..i];
  }

  lemma FieldsAfter(reports: seq<Report>, from: int, fix: Fix, r: Report)
    requires 0 <= from <= |reports| && FieldsSince(reports, from, fix)
    ensures var next := match r
        case Silent => fix
        case Accuracy(meters) => fix.(accuracy := Some(meters))
        case At(f) => Merged(fix, f);
      FieldsSince(reports + [r], from, next)
  {
    MostRecentAfter(reports, from, AltitudeOf, fix.altitude, r);
    MostRecentAfter(reports, from, SpeedOf, fix.speed, r);
    MostRecentAfter(reports, from, HeadingOf, fix.heading, r);
    MostRecentAfter(reports, from, AccuracyOf, fix.accuracy, r);
    MostRecentAfter(reports, from, TimeOf, fix.recordedAt, r);
    MostRecentAfter(reports, from, QualityOf, fix.quality, r);
    MostRecentAfter(reports, from, SatellitesOf, fix.satellites, r);
  }

  /** What one report does to the last fix. */
  function AfterReport(last: Option<Fix>, r: Report): Option<Fix> {
    match r
    case Silent => last
    case Accuracy(meters) => if last.Some? then Some(last.value.(accuracy := Some(meters))) else None
    case At(fix) => Some(if last.Some? && Near(last.value, fix) then Merged(last.value, fix) else fix)
  }

  /** A GST sentence is never a position sentence, so before the first fix it says nothing. */
  lemma ConsumeFollowsReport(lib: Library, last: Option<Fix>, sentence: Bytes)
    ensures LastFixAfter(lib, last, sentence) == AfterReport(last, ReportOf(lib, sentence))
  {
    assert GST != RMC && GST != GGA by {
      assert GST[1] != RMC[1] && GST[1] != GGA[1];
    }
  }

  lemma FreshFields(reports: seq<Report>, fix: Fix)
    ensures FieldsSince(reports + [At(fix)], |reports|, fix)
  {
    var longer := reports + [At(fix)];
    assert longer[|reports|] == At(fix);
  }

  lemma SameBefore(reports: seq<Report>, r: Report)
    ensures forall k :: 0 <= k < |reports| ==> (reports + [r])[k] == reports[k]
    ensures (reports + [r])[..|reports|] == reports && (reports + [r])[|reports|] == r
    ensures forall i :: 0 <= i < |reports| ==> (Jump(reports + [r], i) <==> Jump(reports, i))
  {
    forall i | 0 <= i < |reports| ensures Jump(reports + [r], i) <==> Jump(reports, i) {
      JumpKept(reports, r, i);
    }
  }

  lemma FirstFixMeaning(reports: seq<Report>, fix: Fix)
    requires Describes(None, reports)
    ensures Describes(Some(fix), reports + [At(fix)])
  {
    var longer := reports + [At(fix)];
    SameBefore(reports, At(fix));
    FreshFields(reports, fix);
    assert PlacedBy(longer, |reports|, fix) && LastJump(longer, |reports|);
  }

  lemma LatestPositionAfterAt(reports: seq<Report>, fix: Fix, p: int)
    requires LatestPosition(reports, p)
    ensures LatestPosition(reports + [At(fix)], |reports|)
    ensures Jump(reports + [At(fix)], |reports|) <==> !Near(reports[p].fix, fix)
  {
    SameBefore(reports, At(fix));
    assert forall q :: LatestPosition(reports, q) ==> q == p;
  }

  lemma JumpStaysLast(reports: seq<Report>, r: Report, from: int)
    requires LastJump(reports, from) && !Jump(reports + [r], |reports|)
    ensures LastJump(reports + [r], from)
  {
    SameBefore(reports, r);
  }

  lemma PositionStaysLatest(reports: seq<Report>, r: Report, p: int)
    requires LatestPosition(reports, p) && !r.At?
    ensures LatestPosition(reports + [r], p) && (reports + [r])[p] == reports[p]
    ensures !Jump(reports + [r], |reports|)
  {}

  lemma NearFixMeaning(last: Fix, reports: seq<Report>, fix: Fix)
    requires Describes(Some(last), reports) && Near(last, fix)
    ensures Describes(Some(Merged(last, fix)), reports + [At(fix)])
  {
    var p :| PlacedBy(reports, p, last);
    var from :| LastJump(reports, from) && FieldsSince(reports, from, last);
    LatestPositionAfterAt(reports, fix, p);
    FieldsAfter(reports, from, last, At(fix));
    JumpStaysLast(reports, At(fix), from);
    assert PlacedBy(reports + [At(fix)], |reports|, Merged(last, fix));
  }

  lemma FarFixMeaning(last: Fix, reports: seq<Report>, fix: Fix)
    requires Describes(Some(last), reports) && !Near(last, fix)
    ensures Describes(Some(fix), reports + [At(fix)])
  {
    var p :| PlacedBy(reports, p, last);
    LatestPositionAfterAt(reports, fix, p);
    FreshFields(reports, fix);
    SameBefore(reports, At(fix));
    assert PlacedBy(reports + [At(fix)], |reports|, fix);
    assert LastJump(reports + [At(fix)], |reports|);
  }

  lemma OtherReportMeaning(last: Fix, reports: seq<Report>, r: Report)
    requires Describes(Some(last), reports) && !r.At?
    ensures Describes(AfterReport(Some(last), r), reports + [r])
  {
    var p :| PlacedBy(reports, p, last);
    var from :| LastJump(reports, from) && FieldsSince(reports, from, last);
    FieldsAfter(reports, from, last, r);
    PositionStaysLatest(reports, r, p);
    JumpStaysLast(reports, r, from);
    var next := AfterReport(Some(last), r).value;
    assert PlacedBy(reports + [r], p, next) && FieldsSince(reports + [r], from, next);
  }

  lemma ReportKeepsMeaning(last: Option<Fix>, reports: seq<Report>, r: Report)
    requires Describes(last, reports)
    ensures Describes(AfterReport(last, r), reports + [r])
  {
    if r.At? {
      if last.None? { FirstFixMeaning(reports, r.fix); }
      else if Near(last.value, r.fix) { NearFixMeaning(last.value, reports, r.fix); }
      else { FarFixMeaning(last.value, reports, r.fix); }
    } else if last.Some? {
      OtherReportMeaning(last.value, reports, r);
    } else {
      SameBefore(reports, r);
    }
  }

  lemma OneMoreSentence(lib: Library, sentences: seq<Bytes>)
    requires sentences != []
    ensures var before, last := sentences[..|sentences| - 1], sentences[|sentences| - 1];
      && LastFixOf(lib, sentences) == AfterReport(LastFixOf(lib, before), ReportOf(lib, last))
      && Reports(lib, sentences) == Reports(lib, before) + [ReportOf(lib, last)]
  {
    ConsumeFollowsReport(lib, LastFixOf(lib, sentences[..|sentences| - 1]), sentences[|sentences| - 1]);
  }

  /**
   * After any run of sentences the last fix has the coordinates of the latest valid position
   * sentence, and each optional field is what the most recent sentence supplying it since the
   * last jump said, or absent when none supplied it.
   */
  lemma {:induction false} LastFixMeaning(lib: Library, sentences: seq<Bytes>)
    ensures Describes(LastFixOf(lib, sentences), Reports(lib, sentences))
    decreases |sentences|
  {
    if sentences != [] {
      var before, last := sentences[..|sentences| - 1], sentences[|sentences| - 1];
      LastFixMeaning(lib, before);
      OneMoreSentence(lib, sentences);
      ReportKeepsMeaning(LastFixOf(lib, before), Reports(lib, before), ReportOf(lib, last));
    }
  }

  /** The provider and the accumulator together: however the reads cut the stream, the last fix means the same. */
  lemma {:induction false} LastFixAfterAnyReads(lib: Library, chunks: seq<Bytes>)
    requires CutsFit([], chunks)
    ensures
      var provider :=
        ConsumedAll((last, sentence) => LastFixAfter(lib, last, sentence), Provider([], None), chunks);
      Describes(provider.parser, Reports(lib, Sentences(Joined(chunks))))
  {
    ReadsMayCutAnywhere((last, sentence) => LastFixAfter(lib, last, sentence), Provider([], None), chunks);
    assert [] + Joined(chunks) == Joined(chunks);
    LastFixMeaning(lib, Sentences(Joined(chunks)));
  }
}
