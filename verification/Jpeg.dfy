/**
 * Reading the dimensions of a JPEG picture from its marker segments; sections B.1.1 and B.2.2
 * of ITU-T T.81.
 */
module Jpeg {
  import opened Prelude

  type Bytes = seq<Byte>

  const FILL: Byte := 0xFF
  const SOI: Byte := 0xD8
  const EOI: Byte := 0xD9

  datatype Dimensions = Dimensions(width: int, height: int)

  predicate StartsFrame(marker: Byte) {
    0xC0 <= marker <= 0xCF && marker != 0xC4 && marker != 0xC8 && marker != 0xCC
  }

  // SOI and EOI are the markers taken to have no segment.
  predicate StandsAlone(marker: Byte) {
    marker == SOI || marker == EOI
  }

  function BigEndian(high: Byte, low: Byte): (n: int)
    ensures 0 <= n < 0x1_0000
  {
    256 * high + low
  }

  // ------------------------------------------------------------------ the walk

  // Where the fill bytes that start at a position end.
  function FillEnd(data: Bytes, p: nat): (q: nat)
    requires p <= |data|
    ensures p <= q <= |data|
    ensures forall i :: p <= i < q ==> data[i] == FILL
    ensures q < |data| ==> data[q] != FILL
    decreases |data| - p
  {
    if p < |data| && data[p] == FILL then FillEnd(data, p + 1) else p
  }

  /** What follows a marker: nothing readable, a frame header, or a segment to pass over. */
  datatype Next = Stop | Found(dimensions: Dimensions) | Onward(position: nat)

  function AfterMarker(data: Bytes, p: nat, marker: Byte): (next: Next)
    requires p <= |data|
    ensures next.Onward? ==> p <= next.position <= |data|
  {
    if StandsAlone(marker) then Onward(p)
    else if p + 2 > |data| then Stop
    else
      var length := BigEndian(data[p], data[p + 1]);
      if length < 2 || p + length > |data| then Stop
      else if StartsFrame(marker) && length >= 7 then
        Found(Dimensions(BigEndian(data[p + 5], data[p + 6]), BigEndian(data[p + 3], data[p + 4])))
      else Onward(p + length)
  }

  function Walk(data: Bytes, p: nat): Option<Dimensions>
    requires p <= |data|
    decreases |data| - p
  {
    if p + 4 > |data| then None
    else if data[p] != FILL then Walk(data, p + 1)
    else
      var q := FillEnd(data, p);
      if q == |data| then None
      else
        match AfterMarker(data, q + 1, data[q])
        case Stop => None
        case Found(dimensions) => Some(dimensions)
        case Onward(position) => Walk(data, position)
  }

  function DimensionsOf(data: Bytes): Option<Dimensions> {
    if |data| < 4 || !StartsImage(data) then None else Walk(data, 2)
  }

  predicate StartsImage(data: Bytes) {
    |data| >= 3 && data[0] == FILL && data[1] == SOI && data[2] == FILL
  }

  lemma {:induction false} FillEndsAt(data: Bytes, p: nat, q: nat)
    requires p <= q <= |data| && (forall i :: p <= i < q ==> data[i] == FILL)
    requires q < |data| ==> data[q] != FILL
    ensures FillEnd(data, p) == q
    decreases q - p
  {
    if p < q {
      FillEndsAt(data, p + 1, q);
    }
  }

  method JpegDimensions(data: Bytes) returns (dimensions: Option<Dimensions>)
    ensures dimensions == DimensionsOf(data)
  {
    if |data| < 4 || data[0] != FILL || data[1] != SOI || data[2] != FILL { return None; }
    var position := 2;
    while position + 4 <= |data|
      invariant 2 <= position <= |data|
      invariant Walk(data, position) == DimensionsOf(data)
    {
      ghost var start := position;
      if data[position] != FILL {
        position := position + 1;
        continue;
      }
      while position < |data| && data[position] == FILL
        invariant start <= position <= |data|
        invariant FillEnd(data, position) == FillEnd(data, start)
      {
        position := position + 1;
      }
      if position >= |data| { break; }
      var marker := data[position];
      position := position + 1;
      if marker == SOI || marker == EOI { continue; }
      if position + 2 > |data| { break; }
      var segmentLength := BigEndian(data[position], data[position + 1]);
      if segmentLength < 2 || position + segmentLength > |data| { break; }
      if StartsFrame(marker) && segmentLength >= 7 {
        var height := BigEndian(data[position + 3], data[position + 4]);
        var width := BigEndian(data[position + 5], data[position + 6]);
        return Some(Dimensions(width, height));
      }
      position := position + segmentLength;
    }
    dimensions := None;
  }

  // ------------------------------------------------------------------ headers

  /**
   * What may stand before the frame header: a stray byte, a marker without a segment, and a
   * marker segment, each marker after one fill byte or more.
   */
  datatype Item =
    | Stray(b: Byte)
    | Lone(fill: nat, marker: Byte)
    | Segment(fill: nat, marker: Byte, payload: Bytes)

  predicate Proper(item: Item) {
    match item
    case Stray(b) => b != FILL
    case Lone(fill, marker) => StandsAlone(marker)
    case Segment(fill, marker, payload) =>
      && marker != FILL && !StandsAlone(marker)
      && (StartsFrame(marker) ==> |payload| + 2 < 7)
  }

  function Size(item: Item): nat {
    match item
    case Stray(_) => 1
    case Lone(fill, _) => fill + 2
    case Segment(fill, _, payload) => fill + 4 + |payload|
  }

  /** A marker with `fill` bytes of fill besides the one it needs; section B.1.1. */
  predicate MarkerAt(data: Bytes, p: nat, fill: nat, marker: Byte) {
    p + fill + 1 < |data| && data[p + fill + 1] == marker && forall i :: p <= i <= p + fill ==> data[i] == FILL
  }

  predicate ItemAt(data: Bytes, p: nat, item: Item) {
    && p + Size(item) <= |data|
    && match item
       case Stray(b) => data[p] == b
       case Lone(fill, marker) => MarkerAt(data, p, fill, marker)
       case Segment(fill, marker, payload) =>
         && MarkerAt(data, p, fill, marker)
         && BigEndian(data[p + fill + 2], data[p + fill + 3]) == |payload| + 2
         && data[p + fill + 4..p + fill + 4 + |payload|] == payload
  }

  datatype Frame = Frame(fill: nat, marker: Byte, precision: Byte, dimensions: Dimensions, components: Bytes)

  /** A frame header; section B.2.2: length, precision, lines, samples per line, components. */
  predicate FrameAt(data: Bytes, p: nat, frame: Frame) {
    && StartsFrame(frame.marker) && MarkerAt(data, p, frame.fill, frame.marker)
    && var after := p + frame.fill + 2;
       && after + 7 + |frame.components| <= |data|
       && BigEndian(data[after], data[after + 1]) == 7 + |frame.components|
       && data[after + 2] == frame.precision
       && BigEndian(data[after + 3], data[after + 4]) == frame.dimensions.height
       && BigEndian(data[after + 5], data[after + 6]) == frame.dimensions.width
       && data[after + 7..after + 7 + |frame.components|] == frame.components
  }

  /** From a position on stand some items and then a frame header. */
  predicate Spells(data: Bytes, p: nat, items: seq<Item>, frame: Frame)
    decreases |items|
  {
    if items == [] then FrameAt(data, p, frame)
    else Proper(items[0]) && ItemAt(data, p, items[0]) && Spells(data, p + Size(items[0]), items[1..], frame)
  }

  lemma {:induction false} SpellsLeavesRoom(data: Bytes, p: nat, items: seq<Item>, frame: Frame)
    requires Spells(data, p, items, frame)
    ensures p + 9 <= |data|
    decreases |items|
  {
    if items != [] {
      SpellsLeavesRoom(data, p + Size(items[0]), items[1..], frame);
    }
  }

  lemma MarkerIsRead(data: Bytes, p: nat, fill: nat, marker: Byte)
    requires marker != FILL && MarkerAt(data, p, fill, marker)
    ensures data[p] == FILL && FillEnd(data, p) == p + fill + 1
  {
    FillEndsAt(data, p, p + fill + 1);
  }

  lemma ItemIsPassed(data: Bytes, p: nat, item: Item)
    requires Proper(item) && ItemAt(data, p, item) && p + Size(item) + 4 <= |data|
    ensures Walk(data, p) == Walk(data, p + Size(item))
  {
    if !item.Stray? {
      MarkerIsRead(data, p, item.fill, item.marker);
    }
  }

  lemma FrameIsRead(data: Bytes, p: nat, frame: Frame)
    requires FrameAt(data, p, frame)
    ensures Walk(data, p) == Some(frame.dimensions)
  {
    MarkerIsRead(data, p, frame.fill, frame.marker);
  }

  /** Any number of items that are no frame header, then a frame header, whatever follows: its dimensions are found. */
  lemma {:induction false} FrameHeaderIsFound(data: Bytes, p: nat, items: seq<Item>, frame: Frame)
    requires p <= |data| && Spells(data, p, items, frame)
    ensures Walk(data, p) == Some(frame.dimensions)
    decreases |items|
  {
    if items == [] {
      FrameIsRead(data, p, frame);
    } else {
      var next := p + Size(items[0]);
      SpellsLeavesRoom(data, next, items[1..], frame);
      FrameHeaderIsFound(data, next, items[1..], frame);
      ItemIsPassed(data, p, items[0]);
    }
  }

  ghost predicate Spelled(data: Bytes, p: nat, dimensions: Dimensions) {
    exists items, frame :: Spells(data, p, items, frame) && frame.dimensions == dimensions
  }

  lemma ItemInFront(data: Bytes, p: nat, item: Item, dimensions: Dimensions)
    requires Proper(item) && ItemAt(data, p, item) && Spelled(data, p + Size(item), dimensions)
    ensures Spelled(data, p, dimensions)
  {
    var items, frame :| Spells(data, p + Size(item), items, frame) && frame.dimensions == dimensions;
    var more := [item] + items;
    assert more[0] == item && more[1..] == items;
    assert Spells(data, p, more, frame);
  }

  lemma SegmentInFront(data: Bytes, p: nat, q: nat, dimensions: Dimensions)
    requires p < q < |data| && MarkerAt(data, p, q - p - 1, data[q]) && data[q] != FILL
    requires !StandsAlone(data[q]) && AfterMarker(data, q + 1, data[q]).Onward?
    requires Spelled(data, AfterMarker(data, q + 1, data[q]).position, dimensions)
    ensures Spelled(data, p, dimensions)
  {
    var end := AfterMarker(data, q + 1, data[q]).position;
    ItemInFront(data, p, Segment(q - p - 1, data[q], data[q + 3..end]), dimensions);
  }

  lemma FrameInFront(data: Bytes, p: nat, q: nat)
    requires p < q < |data| && MarkerAt(data, p, q - p - 1, data[q])
    requires AfterMarker(data, q + 1, data[q]).Found?
    ensures Spelled(data, p, AfterMarker(data, q + 1, data[q]).dimensions)
  {
    var end := q + 1 + BigEndian(data[q + 1], data[q + 2]);
    var d := AfterMarker(data, q + 1, data[q]).dimensions;
    var frame := Frame(q - p - 1, data[q], data[q + 3], d, data[q + 8..end]);
    assert Spells(data, p, [], frame);
  }

  /** And nothing else is ever found: dimensions come from the first frame header of such a header. */
  lemma {:induction false} FoundIsSpelled(data: Bytes, p: nat)
    requires p <= |data| && Walk(data, p).Some?
    ensures Spelled(data, p, Walk(data, p).value)
    decreases |data| - p, 1
  {
    if data[p] != FILL {
      FoundIsSpelled(data, p + 1);
      ItemInFront(data, p, Stray(data[p]), Walk(data, p).value);
    } else {
      MarkedIsSpelled(data, p, FillEnd(data, p));
    }
  }

  /** What the walk does at a marker. */
  lemma WalkAtMarker(data: Bytes, p: nat, q: nat)
    requires p + 4 <= |data| && data[p] == FILL && q == FillEnd(data, p) && q < |data|
    ensures p < q && Walk(data, p) ==
      match AfterMarker(data, q + 1, data[q])
      case Stop => None
      case Found(dimensions) => Some(dimensions)
      case Onward(position) => Walk(data, position)
  {}

  lemma WalkFinds(data: Bytes, p: nat)
    requires p <= |data| && Walk(data, p).Some?
    ensures p + 4 <= |data| && (data[p] == FILL ==> FillEnd(data, p) < |data|)
  {}

  lemma ItemsInFront(data: Bytes, p: nat, q: nat, dimensions: Dimensions)
    requires p < q < |data| && MarkerAt(data, p, q - p - 1, data[q]) && data[q] != FILL
    requires AfterMarker(data, q + 1, data[q]).Onward?
    requires Spelled(data, AfterMarker(data, q + 1, data[q]).position, dimensions)
    ensures Spelled(data, p, dimensions)
  {
    if StandsAlone(data[q]) {
      ItemInFront(data, p, Lone(q - p - 1, data[q]), dimensions);
    } else {
      SegmentInFront(data, p, q, dimensions);
    }
  }

  lemma MarkedIsSpelled(data: Bytes, p: nat, q: nat)
    requires p < |data| && Walk(data, p).Some? && data[p] == FILL && q == FillEnd(data, p)
    ensures Spelled(data, p, Walk(data, p).value)
    decreases |data| - p, 0
  {
    WalkFinds(data, p);
    WalkAtMarker(data, p, q);
    assert MarkerAt(data, p, q - p - 1, data[q]);
    var next := AfterMarker(data, q + 1, data[q]);
    if next.Found? {
      FrameInFront(data, p, q);
    } else {
      FoundIsSpelled(data, next.position);
      ItemsInFront(data, p, q, Walk(data, p).value);
    }
  }

  /** A JPEG picture is given dimensions exactly when its header reaches a frame header, and then that one's. */
  lemma DimensionsAreTheFrames(data: Bytes, dimensions: Dimensions)
    ensures DimensionsOf(data) == Some(dimensions) <==> StartsImage(data) && Spelled(data, 2, dimensions)
  {
    if DimensionsOf(data) == Some(dimensions) {
      FoundIsSpelled(data, 2);
    }
    if StartsImage(data) && Spelled(data, 2, dimensions) {
      var items, frame :| Spells(data, 2, items, frame) && frame.dimensions == dimensions;
      SpellsLeavesRoom(data, 2, items, frame);
      FrameHeaderIsFound(data, 2, items, frame);
    }
  }

  // ------------------------------------------------------------------ in bytes

  /** SOF0 to SOF15 without the three markers among them that begin no frame: DHT, JPG and DAC. */
  predicate IsFrameMarker(marker: Byte) {
    marker in {0xC0, 0xC1, 0xC2, 0xC3, 0xC5, 0xC6, 0xC7, 0xC9, 0xCA, 0xCB, 0xCD, 0xCE, 0xCF}
  }

  /** A frame header in numbers: two bytes of each, the higher first, the height before the width. */
  lemma FrameInNumbers(data: Bytes, p: nat, frame: Frame)
    ensures FrameAt(data, p, frame) <==>
      && var a := p + frame.fill + 2;
         && a + 7 + |frame.components| <= |data|
         && (forall i :: p <= i < a - 1 ==> data[i] == 0xFF)
         && data[a - 1] == frame.marker && IsFrameMarker(frame.marker)
         && 256 * (data[a] as int) + data[a + 1] == 7 + |frame.components|
         && data[a + 2] == frame.precision
         && 256 * (data[a + 3] as int) + data[a + 4] == frame.dimensions.height
         && 256 * (data[a + 5] as int) + data[a + 6] == frame.dimensions.width
         && data[a + 7..a + 7 + |frame.components|] == frame.components
  {}

  function Fills(n: nat): Bytes {
    seq(n, _ => 0xFF)
  }

  function TwoBytes(n: nat): (s: Bytes)
    requires n < 65536
    ensures |s| == 2
  {
    [n / 256, n % 256]
  }

  /** What can be written before a frame header. */
  predicate Writable(item: Item) {
    match item
    case Stray(b) => b != 0xFF
    case Lone(fill, marker) => marker == 0xD8 || marker == 0xD9
    case Segment(fill, marker, payload) =>
      && marker !in {0xFF, 0xD8, 0xD9} && |payload| <= 65533
      && (IsFrameMarker(marker) ==> |payload| < 5)
  }

  function ItemBytes(item: Item): Bytes
    requires Writable(item)
  {
    match item
    case Stray(b) => [b]
    case Lone(fill, marker) => Fills(fill + 1) + [marker]
    case Segment(fill, marker, payload) => Fills(fill + 1) + [marker] + TwoBytes(|payload| + 2) + payload
  }

  predicate WritableFrame(frame: Frame) {
    && IsFrameMarker(frame.marker) && |frame.components| <= 65528
    && 0 <= frame.dimensions.width < 65536 && 0 <= frame.dimensions.height < 65536
  }

  function FrameBytes(frame: Frame): Bytes
    requires WritableFrame(frame)
  {
    Fills(frame.fill + 1) + [frame.marker] + TwoBytes(7 + |frame.components|) + [frame.precision]
    + TwoBytes(frame.dimensions.height) + TwoBytes(frame.dimensions.width) + frame.components
  }

  ghost predicate AllWritable(items: seq<Item>) {
    forall i :: 0 <= i < |items| ==> Writable(items[i])
  }

  function HeaderBytes(items: seq<Item>, frame: Frame): Bytes
    requires AllWritable(items) && WritableFrame(frame)
  {
    if items == [] then FrameBytes(frame) else ItemBytes(items[0]) + HeaderBytes(items[1..], frame)
  }

  lemma TwoBytesBack(n: nat)
    requires n < 65536
    ensures BigEndian(TwoBytes(n)[0], TwoBytes(n)[1]) == n
  {}

  lemma SegmentIsAt(before: Bytes, item: Item, after: Bytes)
    requires Writable(item) && item.Segment?
    ensures |ItemBytes(item)| == Size(item) && ItemAt(before + ItemBytes(item) + after, |before|, item)
  {
    var data, p := before + ItemBytes(item) + after, |before| + item.fill + 2;
    TwoBytesBack(|item.payload| + 2);
    assert data[p] == TwoBytes(|item.payload| + 2)[0] && data[p + 1] == TwoBytes(|item.payload| + 2)[1];
    assert data[p + 2..p + 2 + |item.payload|] == item.payload;
  }

  lemma WrittenItemIsAt(before: Bytes, item: Item, after: Bytes)
    requires Writable(item)
    ensures Proper(item) && |ItemBytes(item)| == Size(item)
    ensures ItemAt(before + ItemBytes(item) + after, |before|, item)
  {
    if item.Segment? { SegmentIsAt(before, item, after); }
  }

  lemma FrameIsAt(before: Bytes, frame: Frame, after: Bytes)
    requires WritableFrame(frame)
    ensures FrameAt(before + FrameBytes(frame) + after, |before|, frame)
  {
    var data, a := before + FrameBytes(frame) + after, |before| + frame.fill + 2;
    var length, height, width :=
      TwoBytes(7 + |frame.components|), TwoBytes(frame.dimensions.height), TwoBytes(frame.dimensions.width);
    TwoBytesBack(7 + |frame.components|);
    TwoBytesBack(frame.dimensions.height);
    TwoBytesBack(frame.dimensions.width);
    assert data[a] == length[0] && data[a + 1] == length[1];
    assert data[a + 3] == height[0] && data[a + 4] == height[1];
    assert data[a + 5] == width[0] && data[a + 6] == width[1];
    assert data[a + 7..a + 7 + |frame.components|] == frame.components;
  }

  lemma Regroup(a: Bytes, b: Bytes, c: Bytes, d: Bytes)
    ensures a + (b + c) + d == (a + b) + c + d
    ensures a + (b + c) + d == a + b + (c + d)
  {}

  lemma OneItemWritten(before: Bytes, items: seq<Item>, rest: Bytes, frame: Frame, after: Bytes)
    requires items != [] && Writable(items[0])
    requires Spells(before + ItemBytes(items[0]) + rest + after, |before| + Size(items[0]), items[1..], frame)
    ensures Spells(before + (ItemBytes(items[0]) + rest) + after, |before|, items, frame)
  {
    WrittenItemIsAt(before, items[0], rest + after);
    Regroup(before, ItemBytes(items[0]), rest, after);
  }

  lemma {:induction false} WrittenHeaderSpells(before: Bytes, items: seq<Item>, frame: Frame, after: Bytes)
    requires AllWritable(items) && WritableFrame(frame)
    ensures Spells(before + HeaderBytes(items, frame) + after, |before|, items, frame)
    decreases |items|
  {
    if items == [] {
      FrameIsAt(before, frame, after);
    } else {
      WrittenItemIsAt([], items[0], []);
      WrittenHeaderSpells(before + ItemBytes(items[0]), items[1..], frame, after);
      OneItemWritten(before, items, HeaderBytes(items[1..], frame), frame, after);
    }
  }

  lemma HeaderStartsWithFill(items: seq<Item>, frame: Frame)
    requires AllWritable(items) && WritableFrame(frame) && (items != [] ==> !items[0].Stray?)
    ensures HeaderBytes(items, frame) != [] && HeaderBytes(items, frame)[0] == 0xFF
  {
    if items == [] {
      assert Fills(frame.fill + 1)[0] == 0xFF;
    } else {
      assert Fills(items[0].fill + 1)[0] == 0xFF;
    }
  }

  /**
   * A picture written in bytes, with any fill, application segments and markers before its frame
   * header and anything after it, has the width and the height written there.
   */
  lemma WrittenPictureIsMeasured(items: seq<Item>, frame: Frame, after: Bytes)
    requires AllWritable(items) && WritableFrame(frame) && (items != [] ==> !items[0].Stray?)
    ensures DimensionsOf([0xFF, 0xD8] + HeaderBytes(items, frame) + after) == Some(frame.dimensions)
  {
    var start: Bytes := [0xFF, 0xD8];
    var data := start + HeaderBytes(items, frame) + after;
    WrittenHeaderSpells(start, items, frame, after);
    HeaderStartsWithFill(items, frame);
    MeasuredFrom(data, items, frame);
  }

  lemma MeasuredFrom(data: Bytes, items: seq<Item>, frame: Frame)
    requires StartsImage(data) && Spells(data, 2, items, frame)
    ensures DimensionsOf(data) == Some(frame.dimensions)
  {
    assert Spelled(data, 2, frame.dimensions);
    DimensionsAreTheFrames(data, frame.dimensions);
  }
}
