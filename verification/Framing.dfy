/**
 The receive loop's line framing (src/dump1090.cpp, lines 455-511) and what it amounts to: splitting
 the whole stream at CR and LF, however the stream was cut into chunks by recv.
 */
module Framing {
  import opened Text

  const BUFFER_LENGTH := 2048
  const CRLF := "\r\n"

  /** The bytes one recv returned, and the stamp taken when it did. */
  datatype Chunk = Chunk(bytes: string, stamp: nat)

  /** A line handed to processMessage. */
  datatype Line = Line(text: string, stamp: nat)

  function Stream(chunks: seq<Chunk>): string {
    if chunks == [] then "" else Stream(chunks[..|chunks| - 1]) + chunks[|chunks| - 1].bytes
  }

  /** The segments of a stream that are terminated, and what follows the last terminator. */
  function Terminated(s: string): seq<string> {
    var pieces := Split(s, CRLF);
    pieces[..|pieces| - 1]
  }

  function Unterminated(s: string): string {
    var pieces := Split(s, CRLF);
    pieces[|pieces| - 1]
  }

  function NonEmpty(pieces: seq<string>): seq<string> {
    if pieces == [] then []
    else NonEmpty(pieces[..|pieces| - 1]) + if pieces[|pieces| - 1] == "" then [] else [pieces[|pieces| - 1]]
  }

  function Stamp(texts: seq<string>, stamp: nat): seq<Line> {
    seq(|texts|, i requires 0 <= i < |texts| => Line(texts[i], stamp))
  }

  function Texts(lines: seq<Line>): seq<string> {
    seq(|lines|, i requires 0 <= i < |lines| => lines[i].text)
  }

  /** What the accumulator retains of a chunk: the unterminated rest, unless it is too long to keep. */
  function Retain(rest: string): string {
    if |rest| > BUFFER_LENGTH then "" else rest
  }

  /** The accumulator after these chunks. */
  function Accumulator(chunks: seq<Chunk>): string {
    if chunks == [] then ""
    else Retain(Unterminated(Accumulator(chunks[..|chunks| - 1]) + chunks[|chunks| - 1].bytes))
  }

  /** The lines delivered for these chunks. */
  function Lines(chunks: seq<Chunk>): seq<Line> {
    if chunks == [] then []
    else
      var front, last := chunks[..|chunks| - 1], chunks[|chunks| - 1];
      Lines(front) + Stamp(NonEmpty(Terminated(Accumulator(front) + last.bytes)), last.stamp)
  }

  // ---------------------------------------------------------------- against the whole stream

  predicate IsSuffix(s: string, t: string) {
    |s| <= |t| && s == t[|t| - |s|..]
  }

  /** What may be delivered for a segment: a suffix of it, and all of it if it fits the buffer. */
  predicate MayDeliver(segment: string, line: string) {
    line != "" && IsSuffix(line, segment) && (|segment| <= BUFFER_LENGTH ==> line == segment)
  }

  /** Only an empty segment, or one longer than the buffer, may be passed over. */
  predicate MaySkip(segment: string) {
    segment == "" || |segment| > BUFFER_LENGTH
  }

  /** The lines account for the segments in order, at most one line each. */
  predicate Delivers(segments: seq<string>, lines: seq<string>)
    decreases |segments|
  {
    if segments == [] then lines == []
    else
      var front, last := segments[..|segments| - 1], segments[|segments| - 1];
      || (lines != [] && MayDeliver(last, lines[|lines| - 1]) && Delivers(front, lines[..|lines| - 1]))
      || (MaySkip(last) && Delivers(front, lines))
  }

  /** A possibly truncated version of a list of segments, as the accumulator leads to: only the first is affected. */
  predicate FirstCut(cut: seq<string>, segments: seq<string>) {
    && |cut| == |segments|
    && (segments != [] ==> IsSuffix(cut[0], segments[0]) && (|segments[0]| <= BUFFER_LENGTH ==> cut[0] == segments[0]))
    && forall i | 1 <= i < |segments| :: cut[i] == segments[i]
  }

  lemma {:induction false} CutDelivers(cut: seq<string>, segments: seq<string>)
    requires FirstCut(cut, segments)
    ensures Delivers(segments, NonEmpty(cut))
    decreases |segments|
  {
    if segments != [] {
      CutDelivers(cut[..|cut| - 1], segments[..|segments| - 1]);
      var last := cut[|cut| - 1];
      if last == "" {
        assert NonEmpty(cut) == NonEmpty(cut[..|cut| - 1]);
      } else {
        assert NonEmpty(cut)[..|NonEmpty(cut)| - 1] == NonEmpty(cut[..|cut| - 1]);
      }
    }
  }

  lemma {:induction false} DeliversConcat(s1: seq<string>, l1: seq<string>, s2: seq<string>, l2: seq<string>)
    requires Delivers(s1, l1) && Delivers(s2, l2)
    ensures Delivers(s1 + s2, l1 + l2)
    decreases |s2|
  {
    if s2 == [] {
      assert s1 + s2 == s1 && l1 + l2 == l1;
    } else {
      var front, last := s2[..|s2| - 1], s2[|s2| - 1];
      assert (s1 + s2)[..|s1 + s2| - 1] == s1 + front;
      if l2 != [] && MayDeliver(last, l2[|l2| - 1]) && Delivers(front, l2[..|l2| - 1]) {
        DeliversConcat(s1, l1, front, l2[..|l2| - 1]);
        assert (l1 + l2)[..|l1 + l2| - 1] == l1 + l2[..|l2| - 1];
      } else {
        DeliversConcat(s1, l1, front, l2);
      }
    }
  }

  /** The accumulator stands for the unterminated end of the stream: all of it, or a suffix of too long a one. */
  predicate Stands(acc: string, rest: string) {
    && |acc| <= BUFFER_LENGTH && Free(acc, CRLF)
    && IsSuffix(acc, rest) && (|rest| <= BUFFER_LENGTH ==> acc == rest)
  }

  /** The pieces of a chunk with a prefix put before the first. */
  function Prefixed(prefix: string, pieces: seq<string>): seq<string>
    requires pieces != []
  {
    [prefix + pieces[0]] + pieces[1..]
  }

  lemma PrefixedCut(acc: string, rest: string, pieces: seq<string>)
    requires pieces != [] && Stands(acc, rest)
    ensures var cut, segments, n := Prefixed(acc, pieces), Prefixed(rest, pieces), |pieces| - 1;
            FirstCut(cut[..n], segments[..n]) && IsSuffix(cut[n], segments[n])
            && (|segments[n]| <= BUFFER_LENGTH ==> cut[n] == segments[n])
  {
    assert IsSuffix(acc + pieces[0], rest + pieces[0]);
  }

  lemma RetainStands(cut: string, segment: string)
    requires IsSuffix(cut, segment) && (|segment| <= BUFFER_LENGTH ==> cut == segment)
    requires Free(cut, CRLF)
    ensures Stands(Retain(cut), segment)
  {
  }

  /** One chunk, after an accumulator that stands for the rest so far. */
  lemma ChunkFrames(acc: string, rest: string, bytes: string)
    requires Stands(acc, rest) && Free(rest, CRLF)
    ensures Delivers(Terminated(rest + bytes), NonEmpty(Terminated(acc + bytes)))
    ensures Stands(Retain(Unterminated(acc + bytes)), Unterminated(rest + bytes))
  {
    hide Split, FindFirstOf, Free, FirstCut, Delivers, Retain, NonEmpty;
    var pieces := Split(bytes, CRLF);
    SplitAfterPrefix(acc, bytes, CRLF);
    SplitAfterPrefix(rest, bytes, CRLF);
    PrefixedCut(acc, rest, pieces);
    CutDelivers(Terminated(acc + bytes), Terminated(rest + bytes));
    PiecesAreFree(acc + bytes, CRLF, |pieces| - 1);
    RetainStands(Unterminated(acc + bytes), Unterminated(rest + bytes));
  }

  lemma StreamSplits(chunks: seq<Chunk>)
    requires chunks != []
    ensures var front, last := chunks[..|chunks| - 1], chunks[|chunks| - 1];
            && Terminated(Stream(chunks))
            == Terminated(Stream(front)) + Terminated(Unterminated(Stream(front)) + last.bytes)
            && Unterminated(Stream(chunks)) == Unterminated(Unterminated(Stream(front)) + last.bytes)
  {
    hide Split, FindFirstOf;
    SplitConcat(Stream(chunks[..|chunks| - 1]), chunks[|chunks| - 1].bytes, CRLF);
  }

  lemma StampSnoc(texts: seq<string>, text: string, stamp: nat)
    ensures Stamp(texts + [text], stamp) == Stamp(texts, stamp) + [Line(text, stamp)]
  {
  }

  lemma StampTexts(texts: seq<string>, stamp: nat)
    ensures Texts(Stamp(texts, stamp)) == texts
  {
  }

  lemma TextsConcat(a: seq<Line>, b: seq<Line>)
    ensures Texts(a + b) == Texts(a) + Texts(b)
  {
  }

  /**
   Framing refines whole-stream splitting. However the stream was cut into chunks, each terminated
   segment yields at most one line, in order, which is a non-empty suffix of the segment, and a
   non-empty segment of at most 2048 bytes is delivered whole. What is retained has no terminator,
   at most 2048 bytes, and is the whole unterminated rest when that is no longer.
   */
  lemma {:induction false} FramingRefinesSplitting(chunks: seq<Chunk>)
    ensures Delivers(Terminated(Stream(chunks)), Texts(Lines(chunks)))
    ensures Stands(Accumulator(chunks), Unterminated(Stream(chunks)))
  {
    if chunks != [] {
      var front, last := chunks[..|chunks| - 1], chunks[|chunks| - 1];
      FramingRefinesSplitting(front);
      var rest, acc := Unterminated(Stream(front)), Accumulator(front);
      PiecesAreFree(Stream(front), CRLF, |Split(Stream(front), CRLF)| - 1);
      ChunkFrames(acc, rest, last.bytes);
      StreamSplits(chunks);
      var found := NonEmpty(Terminated(acc + last.bytes));
      StampTexts(found, last.stamp);
      TextsConcat(Lines(front), Stamp(found, last.stamp));
      DeliversConcat(Terminated(Stream(front)), Texts(Lines(front)), Terminated(rest + last.bytes), found);
    }
  }

  // ---------------------------------------------------------------- chunking does not matter

  predicate AllShort(segments: seq<string>) {
    forall i | 0 <= i < |segments| :: |segments[i]| <= 2048
  }

  lemma {:induction false} ShortDelivers(segments: seq<string>, lines: seq<string>)
    requires Delivers(segments, lines) && AllShort(segments)
    ensures lines == NonEmpty(segments)
    decreases |segments|
  {
    if segments != [] {
      var front := segments[..|segments| - 1];
      if segments[|segments| - 1] == "" {
        ShortDelivers(front, lines);
      } else {
        ShortDelivers(front, lines[..|lines| - 1]);
        assert lines == lines[..|lines| - 1] + [lines[|lines| - 1]];
      }
    }
  }

  /** When no segment is longer than the buffer, the lines are exactly the non-empty segments. */
  lemma ShortSegmentsAreLines(chunks: seq<Chunk>)
    requires AllShort(Terminated(Stream(chunks)))
    ensures Texts(Lines(chunks)) == NonEmpty(Terminated(Stream(chunks)))
  {
    FramingRefinesSplitting(chunks);
    ShortDelivers(Terminated(Stream(chunks)), Texts(Lines(chunks)));
  }

  /** So two ways of receiving the same stream deliver the same lines. */
  lemma ChunkingIsInvisible(chunks1: seq<Chunk>, chunks2: seq<Chunk>)
    requires Stream(chunks1) == Stream(chunks2) && AllShort(Terminated(Stream(chunks1)))
    ensures Texts(Lines(chunks1)) == Texts(Lines(chunks2))
  {
    ShortSegmentsAreLines(chunks1);
    ShortSegmentsAreLines(chunks2);
  }

  // ---------------------------------------------------------------- when nothing is lost

  /** No part of the stream received so far ever left more than a buffer's length without a terminator. */
  predicate Keeps(chunks: seq<Chunk>) {
    chunks == [] || (Keeps(chunks[..|chunks| - 1]) && |Unterminated(Stream(chunks))| <= 2048)
  }

  /** Every non-empty segment was delivered whole, and the rest so far is retained in full. */
  predicate NothingLost(chunks: seq<Chunk>) {
    && Texts(Lines(chunks)) == NonEmpty(Terminated(Stream(chunks)))
    && Accumulator(chunks) == Unterminated(Stream(chunks))
  }

  lemma {:induction false} NonEmptyConcat(a: seq<string>, b: seq<string>)
    ensures NonEmpty(a + b) == NonEmpty(a) + NonEmpty(b)
  {
    if b == [] {
      assert a + b == a;
    } else {
      NonEmptyConcat(a, b[..|b| - 1]);
      assert (a + b)[..|a + b| - 1] == a + b[..|b| - 1];
    }
  }

  lemma NonEmptyOne(s: string)
    ensures NonEmpty([s]) == if s == "" then [] else [s]
  {
    assert [s][..0] == [];
  }

  lemma LinesSnoc(chunks: seq<Chunk>)
    requires chunks != []
    ensures var front, last := chunks[..|chunks| - 1], chunks[|chunks| - 1];
            && Texts(Lines(chunks)) == Texts(Lines(front)) + NonEmpty(Terminated(Accumulator(front) + last.bytes))
            && Accumulator(chunks) == Retain(Unterminated(Accumulator(front) + last.bytes))
  {
    hide Terminated, Unterminated, NonEmpty, Texts, Stamp, Retain;
    var front, last := chunks[..|chunks| - 1], chunks[|chunks| - 1];
    var found := NonEmpty(Terminated(Accumulator(front) + last.bytes));
    StampTexts(found, last.stamp);
    TextsConcat(Lines(front), Stamp(found, last.stamp));
  }

  lemma {:induction false} KeptIsNotLost(chunks: seq<Chunk>)
    requires Keeps(chunks)
    ensures NothingLost(chunks)
  {
    if chunks == [] {
      SplitFree("", CRLF);
    } else {
      hide Terminated, Unterminated, NonEmpty, Texts, Lines, Accumulator, Stream;
      var front, last := chunks[..|chunks| - 1], chunks[|chunks| - 1];
      KeptIsNotLost(front);
      LinesSnoc(chunks);
      StreamSplits(chunks);
      NonEmptyConcat(Terminated(Stream(front)), Terminated(Accumulator(front) + last.bytes));
    }
  }

  /** The bytes in a list of segments. */
  function Weight(pieces: seq<string>): nat {
    if pieces == [] then 0 else Weight(pieces[..|pieces| - 1]) + |pieces[|pieces| - 1]|
  }

  lemma WeightSnoc(pieces: seq<string>, last: string)
    ensures Weight(pieces + [last]) == Weight(pieces) + |last|
  {
    assert (pieces + [last])[..|pieces|] == pieces;
  }

  lemma {:induction false} WeightConcat(a: seq<string>, b: seq<string>)
    ensures Weight(a + b) == Weight(a) + Weight(b)
  {
    if b == [] {
      assert a + b == a;
    } else {
      WeightConcat(a, b[..|b| - 1]);
      assert (a + b)[..|a + b| - 1] == a + b[..|b| - 1];
    }
  }

  lemma {:induction false} WeightNonEmpty(pieces: seq<string>)
    ensures Weight(NonEmpty(pieces)) == Weight(pieces)
  {
    if pieces != [] {
      var front, last := pieces[..|pieces| - 1], pieces[|pieces| - 1];
      WeightNonEmpty(front);
      WeightSnoc(NonEmpty(front), last);
      assert NonEmpty(front) + [] == NonEmpty(front);
    }
  }

  /** What a prefix adds to the bytes of the segments after it is its own length. */
  lemma PrefixWeight(p: string, s: string)
    requires Free(p, CRLF)
    ensures Weight(Terminated(p + s)) + |Unterminated(p + s)| == |p| + Weight(Split(s, CRLF))
  {
    hide FindFirstOf, Free, Split;
    var pieces := Split(s, CRLF);
    SplitAfterPrefix(p, s, CRLF);
    assert Split(p + s, CRLF) == [p + pieces[0]] + pieces[1..];
    WeightSnoc(Terminated(p + s), Unterminated(p + s));
    assert Split(p + s, CRLF) == Terminated(p + s) + [Unterminated(p + s)];
    WeightConcat([p + pieces[0]], pieces[1..]);
    WeightConcat([pieces[0]], pieces[1..]);
    WeightOne(p + pieces[0]);
    WeightOne(pieces[0]);
    assert pieces == [pieces[0]] + pieces[1..];
  }

  lemma WeightOne(piece: string)
    ensures Weight([piece]) == |piece|
  {
    assert [piece][..0] == [];
  }

  /** The bytes delivered or retained, and the bytes there were to deliver or retain. */
  function Kept(chunks: seq<Chunk>): nat {
    Weight(Texts(Lines(chunks))) + |Accumulator(chunks)|
  }

  function Given(chunks: seq<Chunk>): nat {
    Weight(Terminated(Stream(chunks))) + |Unterminated(Stream(chunks))|
  }

  lemma KeptSnoc(chunks: seq<Chunk>)
    requires chunks != []
    ensures var front, last := chunks[..|chunks| - 1], chunks[|chunks| - 1];
            var rest := Unterminated(Accumulator(front) + last.bytes);
            Kept(chunks) == Kept(front) + Weight(Split(last.bytes, CRLF)) - if |rest| > BUFFER_LENGTH then |rest| else 0
  {
    hide Terminated, Unterminated, NonEmpty, Texts, Lines, Accumulator, Split, FindFirstOf;
    var front, last := chunks[..|chunks| - 1], chunks[|chunks| - 1];
    LinesSnoc(chunks);
    FramingRefinesSplitting(front);
    PrefixWeight(Accumulator(front), last.bytes);
    WeightConcat(Texts(Lines(front)), NonEmpty(Terminated(Accumulator(front) + last.bytes)));
    WeightNonEmpty(Terminated(Accumulator(front) + last.bytes));
  }

  lemma GivenSnoc(chunks: seq<Chunk>)
    requires chunks != []
    ensures var front, last := chunks[..|chunks| - 1], chunks[|chunks| - 1];
            Given(chunks) == Given(front) + Weight(Split(last.bytes, CRLF))
  {
    hide Terminated, Unterminated, Split, FindFirstOf, Stream;
    var front, last := chunks[..|chunks| - 1], chunks[|chunks| - 1];
    StreamSplits(chunks);
    RestIsFree(Stream(front));
    PrefixWeight(Unterminated(Stream(front)), last.bytes);
    WeightConcat(Terminated(Stream(front)), Terminated(Unterminated(Stream(front)) + last.bytes));
  }

  lemma RestIsFree(s: string)
    ensures Free(Unterminated(s), CRLF)
  {
    PiecesAreFree(s, CRLF, |Split(s, CRLF)| - 1);
  }

  /** Counting bytes: a discard is never made up for. */
  lemma {:induction false} DiscardIsLost(chunks: seq<Chunk>)
    ensures Kept(chunks) <= Given(chunks)
    ensures !Keeps(chunks) ==> Kept(chunks) < Given(chunks)
  {
    if chunks == [] {
      SplitFree("", CRLF);
    } else {
      hide Kept, Given, Terminated, Unterminated, Split, FindFirstOf, Stream, Lines, Accumulator;
      var front := chunks[..|chunks| - 1];
      DiscardIsLost(front);
      KeptSnoc(chunks);
      GivenSnoc(chunks);
      if Keeps(front) {
        KeptIsNotLost(front);
        StreamSplits(chunks);
      }
    }
  }

  /**
   When exactly nothing is lost: every non-empty segment is delivered whole and the rest is retained,
   if and only if no chunk left more than 2048 bytes without a terminator. This is the guard of the
   discard, stated of the stream alone; how long the segments are in the end does not matter.
   */
  lemma NothingLostExactly(chunks: seq<Chunk>)
    ensures NothingLost(chunks) <==> Keeps(chunks)
  {
    if Keeps(chunks) {
      KeptIsNotLost(chunks);
    } else {
      DiscardIsLost(chunks);
      WeightNonEmpty(Terminated(Stream(chunks)));
    }
  }

  /** For a stream that ends with a terminator, the lines alone tell. */
  lemma LinesAreSegmentsExactly(chunks: seq<Chunk>)
    requires Unterminated(Stream(chunks)) == ""
    ensures Texts(Lines(chunks)) == NonEmpty(Terminated(Stream(chunks))) <==> Keeps(chunks)
  {
    hide Terminated, Unterminated, NonEmpty, Texts, Lines, Accumulator, Stream;
    FramingRefinesSplitting(chunks);
    NothingLostExactly(chunks);
  }

  /** In a stream of short segments, what is unterminated anywhere is short too. */
  lemma ShortSoFar(chunks: seq<Chunk>)
    requires chunks != [] && AllShort(Terminated(Stream(chunks)))
    requires |Unterminated(Stream(chunks))| <= BUFFER_LENGTH
    ensures var front := chunks[..|chunks| - 1];
            AllShort(Terminated(Stream(front))) && |Unterminated(Stream(front))| <= BUFFER_LENGTH
  {
    hide Split, FindFirstOf, Stream, Free;
    var front, last := chunks[..|chunks| - 1], chunks[|chunks| - 1];
    var rest := Unterminated(Stream(front));
    StreamSplits(chunks);
    RestIsFree(Stream(front));
    SplitAfterPrefix(rest, last.bytes, CRLF);
    assert Terminated(Stream(front)) <= Terminated(Stream(chunks));
    var found := Terminated(rest + last.bytes);
    if found != [] {
      assert Terminated(Stream(chunks))[|Terminated(Stream(front))|] == found[0];
    }
  }

  /** So segments that each fit the buffer are a special case. */
  lemma {:induction false} ShortIsKept(chunks: seq<Chunk>)
    requires AllShort(Terminated(Stream(chunks))) && |Unterminated(Stream(chunks))| <= BUFFER_LENGTH
    ensures Keeps(chunks)
  {
    if chunks != [] {
      hide Terminated, Unterminated, Stream, AllShort;
      ShortSoFar(chunks);
      ShortIsKept(chunks[..|chunks| - 1]);
    }
  }

  /** The accumulator is never cleared: the guard of the discard is never met. */
  predicate NeverDiscards(chunks: seq<Chunk>) {
    chunks == [] || (var front, last := chunks[..|chunks| - 1], chunks[|chunks| - 1];
                     NeverDiscards(front) && |Unterminated(Accumulator(front) + last.bytes)| <= BUFFER_LENGTH)
  }

  /** The condition on the stream is the guard on the accumulator. */
  lemma {:induction false} KeepsIsTheGuard(chunks: seq<Chunk>)
    ensures Keeps(chunks) <==> NeverDiscards(chunks)
  {
    if chunks != [] {
      hide Terminated, Unterminated, NonEmpty, Texts, Lines, Accumulator, Stream;
      var front := chunks[..|chunks| - 1];
      KeepsIsTheGuard(front);
      if Keeps(front) {
        KeptIsNotLost(front);
        StreamSplits(chunks);
      }
    }
  }

  // ---------------------------------------------------------------- bounds

  lemma {:induction false} NonEmptyOf(pieces: seq<string>, bound: nat)
    requires forall i | 0 <= i < |pieces| :: |pieces[i]| <= bound
    ensures forall i | 0 <= i < |NonEmpty(pieces)| :: 1 <= |NonEmpty(pieces)[i]| <= bound
  {
    if pieces != [] {
      NonEmptyOf(pieces[..|pieces| - 1], bound);
    }
  }

  /** With recv limited to the buffer, no line is longer than 4095 bytes. */
  lemma {:induction false} LinesAreBounded(chunks: seq<Chunk>)
    requires forall i | 0 <= i < |chunks| :: |chunks[i].bytes| <= BUFFER_LENGTH
    ensures forall i | 0 <= i < |Lines(chunks)| :: 1 <= |Lines(chunks)[i].text| <= 4095
  {
    if chunks != [] {
      var front, last := chunks[..|chunks| - 1], chunks[|chunks| - 1];
      LinesAreBounded(front);
      FramingRefinesSplitting(front);
      var text := Accumulator(front) + last.bytes;
      forall i | 0 <= i < |Terminated(text)| ensures |Terminated(text)[i]| <= 4095 {
        TerminatedPieceIsShorter(text, CRLF, i);
      }
      NonEmptyOf(Terminated(text), 4095);
    }
  }

  predicate StampsInOrder(lines: seq<Line>) {
    forall i, j | 0 <= i < j < |lines| :: lines[i].stamp <= lines[j].stamp
  }

  lemma AppendStamped(lines: seq<Line>, texts: seq<string>, stamp: nat)
    requires StampsInOrder(lines) && forall i | 0 <= i < |lines| :: lines[i].stamp <= stamp
    ensures StampsInOrder(lines + Stamp(texts, stamp))
    ensures forall i | 0 <= i < |lines + Stamp(texts, stamp)| :: (lines + Stamp(texts, stamp))[i].stamp <= stamp
  {
  }

  /** Lines carry the stamps of their chunks, so non-decreasing stamps stay non-decreasing. */
  lemma {:induction false} StampsStayInOrder(chunks: seq<Chunk>, latest: nat)
    requires forall i, j | 0 <= i < j < |chunks| :: chunks[i].stamp <= chunks[j].stamp
    requires forall i | 0 <= i < |chunks| :: chunks[i].stamp <= latest
    ensures StampsInOrder(Lines(chunks))
    ensures forall i | 0 <= i < |Lines(chunks)| :: Lines(chunks)[i].stamp <= latest
  {
    if chunks != [] {
      var front, last := chunks[..|chunks| - 1], chunks[|chunks| - 1];
      StampsStayInOrder(front, last.stamp);
      AppendStamped(Lines(front), NonEmpty(Terminated(Accumulator(front) + last.bytes)), last.stamp);
    }
  }

  lemma {:induction false} StampsNotBefore(chunks: seq<Chunk>, first: nat)
    requires forall i | 0 <= i < |chunks| :: first <= chunks[i].stamp
    ensures forall i | 0 <= i < |Lines(chunks)| :: first <= Lines(chunks)[i].stamp
  {
    hide Accumulator, Terminated, NonEmpty;
    if chunks != [] {
      StampsNotBefore(chunks[..|chunks| - 1], first);
    }
  }

  // ---------------------------------------------------------------- which stamp a line carries

  /** How many non-empty segments of the stream are terminated by now. */
  function Complete(chunks: seq<Chunk>): nat {
    |NonEmpty(Terminated(Stream(chunks)))|
  }

  lemma CompleteGrows(chunks: seq<Chunk>)
    requires chunks != []
    ensures Complete(chunks[..|chunks| - 1]) <= Complete(chunks)
  {
    hide Terminated, Unterminated, NonEmpty, Stream;
    var front, last := chunks[..|chunks| - 1], chunks[|chunks| - 1];
    StreamSplits(chunks);
    NonEmptyConcat(Terminated(Stream(front)), Terminated(Unterminated(Stream(front)) + last.bytes));
  }

  /** The chunk that brings the number of complete segments above i. */
  function CompletedIn(chunks: seq<Chunk>, i: nat): (k: nat)
    ensures chunks != [] ==> k < |chunks|
  {
    if chunks == [] then 0
    else if i < Complete(chunks[..|chunks| - 1]) then CompletedIn(chunks[..|chunks| - 1], i)
    else |chunks| - 1
  }

  /** It is the first chunk after which more than i non-empty segments are terminated. */
  lemma {:induction false} CompletedInIsFirst(chunks: seq<Chunk>, i: nat)
    requires i < Complete(chunks)
    ensures var k := CompletedIn(chunks, i);
            && k < |chunks| && i < Complete(chunks[..k + 1])
            && forall n | 0 <= n <= k :: Complete(chunks[..n]) <= i
  {
    if chunks == [] {
      SplitFree("", CRLF);
    } else {
      hide Complete;
      var front := chunks[..|chunks| - 1];
      assert chunks[..|chunks|] == chunks && forall n | 0 <= n <= |front| :: chunks[..n] == front[..n];
      if i < Complete(front) {
        CompletedInIsFirst(front, i);
      } else {
        CompleteIsMonotone(front);
      }
    }
  }

  lemma {:induction false} CompleteIsMonotone(chunks: seq<Chunk>)
    ensures forall n | 0 <= n <= |chunks| :: Complete(chunks[..n]) <= Complete(chunks)
  {
    hide Complete;
    assert chunks[..|chunks|] == chunks;
    if chunks != [] {
      var front := chunks[..|chunks| - 1];
      CompleteIsMonotone(front);
      CompleteGrows(chunks);
      assert forall n | 0 <= n <= |front| :: chunks[..n] == front[..n];
    }
  }

  lemma LineCount(chunks: seq<Chunk>)
    requires Keeps(chunks)
    ensures |Lines(chunks)| == Complete(chunks)
  {
    hide Terminated, NonEmpty, Stream, Lines;
    KeptIsNotLost(chunks);
    assert |Texts(Lines(chunks))| == |Lines(chunks)|;
  }

  /** A line carries the stamp of the chunk that completed its segment. */
  lemma {:induction false} StampOfLine(chunks: seq<Chunk>, i: nat)
    requires Keeps(chunks)
    requires i < Complete(chunks)
    ensures i < |Lines(chunks)| && chunks != [] && Lines(chunks)[i].stamp == chunks[CompletedIn(chunks, i)].stamp
  {
    LineCount(chunks);
    if chunks == [] {
      SplitFree("", CRLF);
    } else {
      hide Complete, Terminated, Unterminated, NonEmpty, Stream;
      var front, last := chunks[..|chunks| - 1], chunks[|chunks| - 1];
      CompleteGrows(chunks);
      LineCount(front);
      if i < Complete(front) {
        StampOfLine(front, i);
      }
    }
  }

  // ---------------------------------------------------------------- after an overflow

  lemma FreeChunk(chunks: seq<Chunk>, bytes: string, stamp: nat)
    requires Free(Accumulator(chunks) + bytes, CRLF)
    ensures Lines(chunks + [Chunk(bytes, stamp)]) == Lines(chunks)
    ensures Accumulator(chunks + [Chunk(bytes, stamp)]) == Retain(Accumulator(chunks) + bytes)
  {
    var all := chunks + [Chunk(bytes, stamp)];
    assert all[..|chunks|] == chunks;
    SplitFree(Accumulator(chunks) + bytes, CRLF);
    assert Stamp([], stamp) == [];
  }

  lemma TerminatedOnce(text: string)
    requires text != "" && Free(text, CRLF)
    ensures Terminated(text + "\n") == [text] && NonEmpty([text]) == [text]
  {
    hide FindFirstOf;
    assert text + "\n" == text + ['\n'] + "";
    SplitAt(text, '\n', "", CRLF);
    SplitFree("", CRLF);
    assert Split(text + "\n", CRLF) == [text, ""];
    assert [text, ""][..1] == [text] && [text][..0] == [];
  }

  lemma ClosingChunk(chunks: seq<Chunk>, text: string, stamp: nat)
    requires Accumulator(chunks) == "" && text != "" && Free(text, CRLF)
    ensures Lines(chunks + [Chunk(text + "\n", stamp)]) == Lines(chunks) + [Line(text, stamp)]
  {
    hide Terminated, NonEmpty, Accumulator;
    var all := chunks + [Chunk(text + "\n", stamp)];
    assert all[..|chunks|] == chunks && "" + (text + "\n") == text + "\n";
    TerminatedOnce(text);
    assert Stamp([text], stamp) == [Line(text, stamp)];
  }

  /**
   What follows an overflow discard is not skipped up to the next terminator: any end of an overlong
   line, if its beginning was discarded, is delivered as a line of its own.
   */
  lemma FragmentIsDelivered(long: string, fragment: string, stamp: nat) returns (chunks: seq<Chunk>)
    requires Free(long, CRLF) && |long| == BUFFER_LENGTH + 1
    requires Free(fragment, CRLF) && 1 <= |fragment| < BUFFER_LENGTH
    ensures forall i | 0 <= i < |chunks| :: 1 <= |chunks[i].bytes| <= BUFFER_LENGTH
    ensures Stream(chunks) == long + fragment + "\n"
    ensures Lines(chunks) == [Line(fragment, stamp)]
  {
    var head, last := Chunk(long[..BUFFER_LENGTH], stamp), Chunk(long[BUFFER_LENGTH..], stamp);
    chunks := [];
    assert Accumulator(chunks) + head.bytes == head.bytes && Free(head.bytes, CRLF);
    FreeChunk(chunks, head.bytes, stamp);
    assert Accumulator([] + [head]) + last.bytes == long;
    FreeChunk([] + [head], last.bytes, stamp);
    ClosingChunk([] + [head] + [last], fragment, stamp);
    StreamSnoc([], head);
    StreamSnoc([] + [head], last);
    chunks := [] + [head] + [last] + [Chunk(fragment + "\n", stamp)];
    StreamSnoc([] + [head] + [last], Chunk(fragment + "\n", stamp));
    assert head.bytes + last.bytes == long;
  }

  lemma StreamSnoc(chunks: seq<Chunk>, chunk: Chunk)
    ensures Stream(chunks + [chunk]) == Stream(chunks) + chunk.bytes
  {
    assert (chunks + [chunk])[..|chunks|] == chunks;
  }
}
