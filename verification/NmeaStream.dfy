/**
 * Reassembly of a serial stream into sentences: reads may cut the stream anywhere, and the
 * unterminated tail is bounded.
 */
module NmeaStream {
  type Bytes = seq<bv8>

  const CR: bv8 := 0x0D
  const LF: bv8 := 0x0A
  const MAX_PENDING := 4096

  predicate IsTerminator(b: bv8) {
    b == CR || b == LF
  }

  predicate Unterminated(s: Bytes) {
    forall i :: 0 <= i < |s| ==> !IsTerminator(s[i])
  }

  // ------------------------------------------------------------------ reference

  /** The non-empty lines a stream completes, in order. */
  function Sentences(stream: Bytes): seq<Bytes> {
    var cut := Terminator(stream);
    if cut == |stream| then []
    else if cut == 0 then Sentences(stream[1..])
    else [stream[..cut]] + Sentences(stream[cut + 1..])
  }

  /** What follows the last terminator. */
  function Tail(stream: Bytes): Bytes {
    var cut := Terminator(stream);
    if cut == |stream| then stream else Tail(stream[cut + 1..])
  }

  // strings.IndexAny(stream, "\r\n"), or the length when there is none.
  function Terminator(stream: Bytes): (i: nat)
    ensures i <= |stream|
    ensures Unterminated(stream[..i])
    ensures i < |stream| ==> IsTerminator(stream[i])
  {
    if stream == [] then 0
    else if IsTerminator(stream[0]) then 0
    else
      var rest := Terminator(stream[1..]);
      assert stream[..1 + rest] == [stream[0]] + stream[1..][..rest];
      1 + rest
  }

  lemma {:induction false} TerminatorIsFirst(stream: Bytes, i: nat)
    requires i < |stream| && IsTerminator(stream[i]) && Unterminated(stream[..i])
    ensures Terminator(stream) == i
  {
    var j := Terminator(stream);
    assert forall k :: 0 <= k < i ==> stream[..i][k] == stream[k];
    assert forall k :: 0 <= k < j ==> stream[..j][k] == stream[k];
  }

  lemma {:induction false} NoTerminator(stream: Bytes)
    requires Unterminated(stream)
    ensures Terminator(stream) == |stream| && Sentences(stream) == [] && Tail(stream) == stream
  {}

  // ------------------------------------------------------------------ the provider

  /**
   * What survives between reads. `P` is the state of the sentence parser; only the fold over
   * sentences matters here.
   */
  function ParsedAll<P>(parse: (P, Bytes) -> P, parser: P, sentences: seq<Bytes>): P
    decreases |sentences|
  {
    if sentences == [] then parser
    else parse(ParsedAll(parse, parser, sentences[..|sentences| - 1]), sentences[|sentences| - 1])
  }

  lemma {:induction false} ParsedAppend<P>(parse: (P, Bytes) -> P, parser: P, a: seq<Bytes>, b: seq<Bytes>)
    ensures ParsedAll(parse, parser, a + b) == ParsedAll(parse, ParsedAll(parse, parser, a), b)
    decreases |b|
  {
    if b == [] {
      assert a + b == a;
    } else {
      assert (a + b)[..|a + b| - 1] == a + b[..|b| - 1];
      ParsedAppend(parse, parser, a, b[..|b| - 1]);
    }
  }

  function Bounded(tail: Bytes): Bytes {
    if |tail| > MAX_PENDING then [] else tail
  }

  datatype Provider<P> = Provider(pending: Bytes, parser: P)

  function Consumed<P>(parse: (P, Bytes) -> P, provider: Provider<P>, chunk: Bytes): Provider<P> {
    var stream := provider.pending + chunk;
    Provider(Bounded(Tail(stream)), ParsedAll(parse, provider.parser, Sentences(stream)))
  }

  /** Where the loop over a read stands: what it has consumed, and what is pending, make the whole. */
  ghost predicate Underway(stream: Bytes, pending: Bytes, done: seq<Bytes>) {
    done + Sentences(pending) == Sentences(stream) && Tail(pending) == Tail(stream)
  }

  lemma OneLineFurther(stream: Bytes, pending: Bytes, done: seq<Bytes>)
    requires Underway(stream, pending, done)
    ensures var index := Terminator(pending);
      if index == |pending| then done == Sentences(stream) && pending == Tail(stream)
      else if index == 0 then Underway(stream, pending[1..], done)
      else Underway(stream, pending[index + 1..], done + [pending[..index]])
  {
    var index := Terminator(pending);
    if 0 < index < |pending| {
      Regroup(done, [pending[..index]], Sentences(pending[index + 1..]));
    }
  }

  lemma Regroup<T>(a: seq<T>, b: seq<T>, c: seq<T>)
    ensures a + (b + c) == (a + b) + c
  {}

  class NmeaProvider<P> {
    const parse: (P, Bytes) -> P
    var pending: Bytes
    var parser: P

    constructor (parse: (P, Bytes) -> P, initial: P)
      ensures this.parse == parse && pending == [] && parser == initial
    {
      this.parse := parse;
      pending, parser := [], initial;
    }

    ghost function Value(): Provider<P>
      reads this
    {
      Provider(pending, parser)
    }

    method Consume(chunk: Bytes)
      modifies this
      ensures Value() == Consumed(parse, old(Value()), chunk)
      ensures |pending| <= MAX_PENDING
    {
      pending := pending + chunk;
      ghost var stream := pending;
      ghost var done: seq<Bytes> := [];
      while true
        invariant Underway(stream, pending, done)
        invariant parser == ParsedAll(parse, old(parser), done)
        decreases |pending|
      {
        OneLineFurther(stream, pending, done);
        var index := Terminator(pending);
        if index == |pending| { break; }
        var line := pending[..index];
        pending := pending[index + 1..];
        if line == [] { continue; }
        parser := parse(parser, line);
        assert (done + [line])[..|done|] == done;
        done := done + [line];
      }
      if |pending| > MAX_PENDING {
        pending := [];
      }
    }
  }

  // ------------------------------------------------------------------ cutting the stream anywhere

  /** Consuming a prefix and then the rest, carrying the tail over, completes the same sentences. */
  lemma {:induction false} CutAnywhere(first: Bytes, second: Bytes)
    ensures Sentences(first + second) == Sentences(first) + Sentences(Tail(first) + second)
    ensures Tail(first + second) == Tail(Tail(first) + second)
    decreases |first|
  {
    var cut := Terminator(first);
    if cut == |first| {
      assert [] + Sentences(first + second) == Sentences(first + second);
    } else {
      var all := first + second;
      assert all[..cut] == first[..cut] && all[cut] == first[cut];
      TerminatorIsFirst(all, cut);
      assert all[cut + 1..] == first[cut + 1..] + second;
      var rest := first[cut + 1..];
      CutAnywhere(rest, second);
      if cut > 0 {
        Regroup([first[..cut]], Sentences(rest), Sentences(Tail(rest) + second));
      }
    }
  }

  function ConsumedAll<P>(parse: (P, Bytes) -> P, provider: Provider<P>, chunks: seq<Bytes>): Provider<P>
    decreases |chunks|
  {
    if chunks == [] then provider
    else Consumed(parse, ConsumedAll(parse, provider, chunks[..|chunks| - 1]), chunks[|chunks| - 1])
  }

  function Joined(chunks: seq<Bytes>): Bytes
    decreases |chunks|
  {
    if chunks == [] then [] else Joined(chunks[..|chunks| - 1]) + chunks[|chunks| - 1]
  }

  /** No cut between two reads leaves more unterminated bytes than the buffer keeps. */
  ghost predicate CutsFit(pending: Bytes, chunks: seq<Bytes>) {
    forall k :: 0 <= k < |chunks| ==> |Tail(pending + Joined(chunks[..k]))| <= MAX_PENDING
  }

  /** Two reads are one, when the tail between them fits in the buffer. */
  lemma TwoReadsAreOne<P>(parse: (P, Bytes) -> P, provider: Provider<P>, first: Bytes, second: Bytes)
    requires |Tail(provider.pending + first)| <= MAX_PENDING
    ensures Consumed(parse, Consumed(parse, provider, first), second) == Consumed(parse, provider, first + second)
  {
    var stream := provider.pending + first;
    CutAnywhere(stream, second);
    ParsedAppend(parse, provider.parser, Sentences(stream), Sentences(Tail(stream) + second));
    Regroup(provider.pending, first, second);
  }

  /**
   * However a stream is cut into reads, provided no cut leaves more than 4096 unterminated
   * bytes, the parser ends up as after one read of the whole, and so does the pending tail.
   */
  lemma {:induction false} ReadsMayCutAnywhere<P>(parse: (P, Bytes) -> P, provider: Provider<P>, chunks: seq<Bytes>)
    requires Unterminated(provider.pending) && |provider.pending| <= MAX_PENDING
    requires CutsFit(provider.pending, chunks)
    ensures ConsumedAll(parse, provider, chunks) == Consumed(parse, provider, Joined(chunks))
    decreases |chunks|
  {
    if chunks == [] {
      assert provider.pending + [] == provider.pending;
      NoTerminator(provider.pending);
    } else {
      var before, last := chunks[..|chunks| - 1], chunks[|chunks| - 1];
      CutsFitPrefix(provider.pending, chunks);
      ReadsMayCutAnywhere(parse, provider, before);
      TwoReadsAreOne(parse, provider, Joined(before), last);
    }
  }

  lemma CutsFitPrefix(pending: Bytes, chunks: seq<Bytes>)
    requires chunks != [] && CutsFit(pending, chunks)
    ensures CutsFit(pending, chunks[..|chunks| - 1])
    ensures |Tail(pending + Joined(chunks[..|chunks| - 1]))| <= MAX_PENDING
  {
    var before := chunks[..|chunks| - 1];
    forall k | 0 <= k < |before| ensures |Tail(pending + Joined(before[..k]))| <= MAX_PENDING {
      assert before[..k] == chunks[..k];
    }
  }

  /** The provider always leaves such a state behind, so the lemma applies again at the next read. */
  lemma {:induction false} TailIsUnterminated(stream: Bytes)
    ensures Unterminated(Tail(stream))
    decreases |stream|
  {
    var cut := Terminator(stream);
    if cut < |stream| {
      TailIsUnterminated(stream[cut + 1..]);
    } else {
      assert stream[..cut] == stream;
    }
  }

  lemma ProviderStaysReady<P>(parse: (P, Bytes) -> P, provider: Provider<P>, chunk: Bytes)
    ensures Unterminated(Consumed(parse, provider, chunk).pending)
    ensures |Consumed(parse, provider, chunk).pending| <= MAX_PENDING
  {
    TailIsUnterminated(provider.pending + chunk);
  }

  /** A parser that only remembers the sentences it was given. */
  const RECORD: (seq<Bytes>, Bytes) -> seq<Bytes> := (seen, line) => seen + [line]

  lemma {:induction false} RecordKeepsAll(seen: seq<Bytes>, sentences: seq<Bytes>)
    ensures ParsedAll(RECORD, seen, sentences) == seen + sentences
    decreases |sentences|
  {
    if sentences == [] {
      assert seen + sentences == seen;
    } else {
      var last := |sentences| - 1;
      RecordKeepsAll(seen, sentences[..last]);
      Regroup(seen, sentences[..last], [sentences[last]]);
      assert sentences[..last] + [sentences[last]] == sentences;
    }
  }

  lemma FirstLine(line: Bytes, end: bv8, rest: Bytes, whole: Bytes)
    requires line != [] && Unterminated(line) && IsTerminator(end) && whole == line + [end] + rest
    ensures Sentences(whole) == [line] + Sentences(rest) && Tail(whole) == Tail(rest)
  {
    assert whole[..|line|] == line && whole[|line|] == end && whole[|line| + 1..] == rest;
    TerminatorIsFirst(whole, |line|);
  }

  lemma TailAndLine(tail: Bytes, second: Bytes, cut: nat)
    requires Unterminated(tail) && cut < |second| && Unterminated(second[..cut])
    ensures tail + second == tail + second[..cut] + [second[cut]] + second[cut + 1..]
    ensures Unterminated(tail + second[..cut])
  {}

  /** A tail carried over becomes the front of the next sentence. */
  lemma TailBeginsSentence(tail: Bytes, second: Bytes)
    requires Unterminated(tail) && tail != [] && Terminator(second) < |second|
    ensures var cut := Terminator(second);
      Sentences(tail + second) == [tail + second[..cut]] + Sentences(second[cut + 1..])
  {
    var cut := Terminator(second);
    TailAndLine(tail, second, cut);
    FirstLine(tail + second[..cut], second[cut], second[cut + 1..], tail + second);
  }

  /** When a long tail is dropped, the sentence it would have begun is never seen whole. */
  lemma DroppedTailShows(tail: Bytes, second: Bytes)
    requires Unterminated(tail) && tail != []
    ensures Sentences(tail + second) == Sentences(second) <==> Unterminated(second)
    ensures Unterminated(second) ==> Unterminated(tail + second)
  {
    if Unterminated(second) {
      NoTerminator(second);
      NoTerminator(tail + second);
    } else {
      var cut := Terminator(second);
      assert second[..|second|] == second;
      TailBeginsSentence(tail, second);
      if cut == 0 {
        assert |Sentences(tail + second)| == |Sentences(second)| + 1;
      } else {
        assert |Sentences(tail + second)[0]| > |Sentences(second)[0]|;
      }
    }
  }

  /**
   * Exactly when the bound on a cut matters: a tail that does not fit changes the outcome unless
   * the next read completes nothing and leaves nothing pending either way.
   */
  lemma CutMatters(pending: Bytes, first: Bytes, second: Bytes)
    ensures var start := Provider(pending, []);
      Consumed(RECORD, Consumed(RECORD, start, first), second) == Consumed(RECORD, start, first + second)
      <==>
      || |Tail(pending + first)| <= MAX_PENDING
      || (Unterminated(second) && (second == [] || |second| > MAX_PENDING))
  {
    var start := Provider(pending, []);
    var tail := Tail(pending + first);
    if |tail| <= MAX_PENDING {
      TwoReadsAreOne(RECORD, start, first, second);
    } else {
      var done := Sentences(pending + first);
      assert [] + second == second;
      RecordKeepsAll([], done);
      RecordKeepsAll(done, Sentences(second));
      Regroup(pending, first, second);
      CutAnywhere(pending + first, second);
      RecordKeepsAll([], done + Sentences(tail + second));
      TailIsUnterminated(pending + first);
      DroppedTailShows(tail, second);
      SamePrefix(done, Sentences(second), Sentences(tail + second));
      if Unterminated(second) {
        NoTerminator(second);
        NoTerminator(tail + second);
      }
    }
  }

  lemma SamePrefix<T>(a: seq<T>, b: seq<T>, c: seq<T>)
    ensures [] + a == a
    ensures a + b == a + c <==> b == c
  {
    assert (a + b)[|a|..] == b && (a + c)[|a|..] == c;
  }

  // ------------------------------------------------------------------ lines as they are written

  /** A line and the carriage returns and line feeds that end it. */
  datatype Line = Line(text: Bytes, ends: Bytes)

  predicate NoEnd(s: Bytes) {
    forall i :: 0 <= i < |s| ==> s[i] != 0x0D && s[i] != 0x0A
  }

  predicate OnlyEnds(s: Bytes) {
    forall i :: 0 <= i < |s| ==> s[i] == 0x0D || s[i] == 0x0A
  }

  predicate IsLine(line: Line) {
    line.ends != [] && NoEnd(line.text) && OnlyEnds(line.ends)
  }

  function Written(lines: seq<Line>, rest: Bytes): Bytes {
    if lines == [] then rest else lines[0].text + lines[0].ends + Written(lines[1..], rest)
  }

  /** The lines that are not empty. */
  function Texts(lines: seq<Line>): seq<Bytes> {
    if lines == [] then [] else (if lines[0].text == [] then [] else [lines[0].text]) + Texts(lines[1..])
  }

  lemma {:induction false} EndsArePassed(ends: Bytes, rest: Bytes)
    requires OnlyEnds(ends)
    ensures Sentences(ends + rest) == Sentences(rest) && Tail(ends + rest) == Tail(rest)
    decreases |ends|
  {
    if ends == [] {
      assert ends + rest == rest;
    } else {
      assert (ends + rest)[1..] == ends[1..] + rest;
      EndsArePassed(ends[1..], rest);
    }
  }

  lemma EndsSplit(text: Bytes, ends: Bytes, rest: Bytes)
    requires ends != []
    ensures text + ends + rest == text + [ends[0]] + (ends[1..] + rest)
    ensures text == [] ==> text + ends + rest == ends + rest
  {}

  lemma LineComesBack(text: Bytes, ends: Bytes, rest: Bytes, stream: Bytes)
    requires ends != [] && NoEnd(text) && OnlyEnds(ends) && stream == text + ends + rest
    ensures Sentences(stream) == (if text == [] then [] else [text]) + Sentences(rest)
    ensures Tail(stream) == Tail(rest)
  {
    EndsSplit(text, ends, rest);
    if text == [] {
      EndsArePassed(ends, rest);
    } else {
      EndsArePassed(ends[1..], rest);
      FirstLine(text, ends[0], ends[1..] + rest, stream);
    }
  }

  /**
   * Any lines, each with any ends of line after it, come out one by one, the empty ones left out,
   * and what follows them stays as the tail.
   */
  lemma {:induction false} WrittenLinesComeBack(lines: seq<Line>, rest: Bytes)
    requires NoEnd(rest) && forall i :: 0 <= i < |lines| ==> IsLine(lines[i])
    ensures Sentences(Written(lines, rest)) == Texts(lines) && Tail(Written(lines, rest)) == rest
    decreases |lines|
  {
    if lines == [] {
      NoTerminator(rest);
    } else {
      WrittenLinesComeBack(lines[1..], rest);
      LineComesBack(lines[0].text, lines[0].ends, Written(lines[1..], rest), Written(lines, rest));
    }
  }

  /** A provider that reads them keeps that tail for the next read, or drops it when it is longer than 4096 bytes. */
  lemma LinesAreConsumed(lines: seq<Line>, rest: Bytes, seen: seq<Bytes>)
    requires NoEnd(rest) && forall i :: 0 <= i < |lines| ==> IsLine(lines[i])
    ensures Consumed(RECORD, Provider([], seen), Written(lines, rest))
         == Provider(if |rest| <= 4096 then rest else [], seen + Texts(lines))
  {
    WrittenLinesComeBack(lines, rest);
    assert [] + Written(lines, rest) == Written(lines, rest);
    RecordKeepsAll(seen, Texts(lines));
  }
}
