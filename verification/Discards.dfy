/**
 Exactly which lines the receive loop delivers, for any stream in any chunks, also when it discards
 (src/dump1090.cpp, lines 494-509): where in each segment the last discard fell.
 */
module Discards {
  import opened Text
  import opened Framing

  /**
   How much of the unterminated rest of the stream has been discarded: the position in it of the last
   discard. A chunk without terminators continues the rest; any other begins a new one. The rest is
   discarded to its end when more than a buffer's length of it has come since.
   */
  function Lost(chunks: seq<Chunk>): nat {
    if chunks == [] then 0
    else
      var front, last, rest := chunks[..|chunks| - 1], chunks[|chunks| - 1], Unterminated(Stream(chunks));
      var carried := if Terminated(last.bytes) == [] then Lost(front) else 0;
      if |rest| - carried > BUFFER_LENGTH then |rest| else carried
  }

  /** For a segment: the position in it of the last discard, and the stamp of the chunk that completed it. */
  datatype Mark = Mark(cut: nat, stamp: nat)

  /** The marks of the segments that one chunk completes; only the first of them began in earlier chunks. */
  function NewMarks(cut: nat, n: nat, stamp: nat): seq<Mark> {
    if n == 0 then [] else NewMarks(cut, n - 1, stamp) + [Mark(if n == 1 then cut else 0, stamp)]
  }

  /** The marks of all the terminated segments. */
  function Marks(chunks: seq<Chunk>): seq<Mark> {
    if chunks == [] then []
    else
      var front, last := chunks[..|chunks| - 1], chunks[|chunks| - 1];
      Marks(front) + NewMarks(Lost(front), |Terminated(last.bytes)|, last.stamp)
  }

  function From(segment: string, cut: nat): string {
    if cut <= |segment| then segment[cut..] else ""
  }

  /** The line of a segment: what follows the last discard in it, unless that is nothing. */
  function LineOf(segment: string, mark: Mark): seq<Line> {
    if From(segment, mark.cut) == "" then [] else [Line(From(segment, mark.cut), mark.stamp)]
  }

  function LinesOf(segments: seq<string>, marks: seq<Mark>): seq<Line>
    requires |segments| == |marks|
  {
    if segments == [] then []
    else
      var n := |segments| - 1;
      LinesOf(segments[..n], marks[..n]) + LineOf(segments[n], marks[n])
  }

  lemma LinesOfSnoc(segments: seq<string>, marks: seq<Mark>, segment: string, mark: Mark)
    requires |segments| == |marks|
    ensures LinesOf(segments + [segment], marks + [mark]) == LinesOf(segments, marks) + LineOf(segment, mark)
  {
    hide LineOf;
    assert (segments + [segment])[..|segments|] == segments && (marks + [mark])[..|marks|] == marks;
  }

  lemma AppendAssoc<T>(a: seq<T>, b: seq<T>, c: seq<T>)
    ensures a + (b + c) == a + b + c
  {
  }

  lemma LastOf<T>(s: seq<T>)
    requires s != []
    ensures s == s[..|s| - 1] + [s[|s| - 1]]
  {
  }

  lemma LinesOfConcatSnoc(s1: seq<string>, m1: seq<Mark>, s2: seq<string>, m2: seq<Mark>, segment: string, mark: Mark)
    requires |s1| == |m1| && |s2| == |m2|
    requires LinesOf(s1 + s2, m1 + m2) == LinesOf(s1, m1) + LinesOf(s2, m2)
    ensures LinesOf(s1 + (s2 + [segment]), m1 + (m2 + [mark]))
         == LinesOf(s1, m1) + LinesOf(s2 + [segment], m2 + [mark])
  {
    hide *;
    AppendAssoc(s1, s2, [segment]);
    AppendAssoc(m1, m2, [mark]);
    LinesOfSnoc(s1 + s2, m1 + m2, segment, mark);
    LinesOfSnoc(s2, m2, segment, mark);
    AppendAssoc(LinesOf(s1, m1), LinesOf(s2, m2), LineOf(segment, mark));
  }

  lemma {:induction false} LinesOfConcat(s1: seq<string>, m1: seq<Mark>, s2: seq<string>, m2: seq<Mark>)
    requires |s1| == |m1| && |s2| == |m2|
    ensures LinesOf(s1 + s2, m1 + m2) == LinesOf(s1, m1) + LinesOf(s2, m2)
    decreases |s2|
  {
    if s2 == [] {
      assert s1 + s2 == s1 && m1 + m2 == m1;
    } else {
      hide *;
      var n := |s2| - 1;
      LinesOfConcat(s1, m1, s2[..n], m2[..n]);
      LinesOfConcatSnoc(s1, m1, s2[..n], m2[..n], s2[n], m2[n]);
      LastOf(s2);
      LastOf(m2);
    }
  }

  /** The first of some segments, without its beginning. */
  function CutFirst(segments: seq<string>, cut: nat): seq<string> {
    if segments == [] then [] else [From(segments[0], cut)] + segments[1..]
  }

  lemma {:induction false} NewMarksCount(cut: nat, n: nat, stamp: nat)
    ensures |NewMarks(cut, n, stamp)| == n
    ensures forall i | 0 <= i < n :: NewMarks(cut, n, stamp)[i] == Mark(if i == 0 then cut else 0, stamp)
  {
    if n > 0 {
      NewMarksCount(cut, n - 1, stamp);
    }
  }

  lemma CutFirstSnoc(front: seq<string>, last: string, cut: nat)
    ensures CutFirst(front + [last], cut) == CutFirst(front, cut) + [From(last, if front == [] then cut else 0)]
  {
    hide From;
    FromStart(last);
  }

  lemma NonEmptySnoc(pieces: seq<string>, last: string)
    ensures NonEmpty(pieces + [last]) == if last == "" then NonEmpty(pieces) else NonEmpty(pieces) + [last]
  {
    assert (pieces + [last])[..|pieces|] == pieces;
  }

  lemma NewMarksSnoc(cut: nat, n: nat, stamp: nat)
    ensures NewMarks(cut, n + 1, stamp) == NewMarks(cut, n, stamp) + [Mark(if n == 0 then cut else 0, stamp)]
  {
  }

  lemma LineStamped(texts: seq<string>, segment: string, mark: Mark)
    ensures Stamp(texts, mark.stamp) + LineOf(segment, mark)
         == Stamp(if From(segment, mark.cut) == "" then texts else texts + [From(segment, mark.cut)], mark.stamp)
  {
    hide From, Stamp;
    StampSnoc(texts, From(segment, mark.cut), mark.stamp);
  }

  lemma LinesOfChunkSnoc(front: seq<string>, last: string, cut: nat, stamp: nat)
    requires |NewMarks(cut, |front|, stamp)| == |front|
    requires LinesOf(front, NewMarks(cut, |front|, stamp)) == Stamp(NonEmpty(CutFirst(front, cut)), stamp)
    ensures var segments := front + [last];
            && |NewMarks(cut, |segments|, stamp)| == |segments|
            && LinesOf(segments, NewMarks(cut, |segments|, stamp)) == Stamp(NonEmpty(CutFirst(segments, cut)), stamp)
  {
    hide *;
    var mark := Mark(if front == [] then cut else 0, stamp);
    NewMarksSnoc(cut, |front|, stamp);
    LinesOfSnoc(front, NewMarks(cut, |front|, stamp), last, mark);
    CutFirstSnoc(front, last, cut);
    NonEmptySnoc(CutFirst(front, cut), From(last, mark.cut));
    LineStamped(NonEmpty(CutFirst(front, cut)), last, mark);
  }

  /** The lines of one chunk. */
  lemma {:induction false} LinesOfChunk(segments: seq<string>, cut: nat, stamp: nat)
    ensures |NewMarks(cut, |segments|, stamp)| == |segments|
    ensures LinesOf(segments, NewMarks(cut, |segments|, stamp)) == Stamp(NonEmpty(CutFirst(segments, cut)), stamp)
  {
    if segments != [] {
      hide *;
      var n := |segments| - 1;
      LinesOfChunk(segments[..n], cut, stamp);
      LinesOfChunkSnoc(segments[..n], segments[n], cut, stamp);
      LastOf(segments);
    }
  }

  lemma FromStart(s: string)
    ensures From(s, 0) == s
  {
  }

  /** What the accumulator makes of a chunk, when it holds the rest of the stream from a position on. */
  lemma CutChunk(rest: string, lost: nat, bytes: string)
    requires Free(rest, CRLF) && lost <= |rest|
    ensures |Terminated(rest + bytes)| == |Terminated(bytes)|
    ensures Terminated(rest[lost..] + bytes) == CutFirst(Terminated(rest + bytes), lost)
    ensures Terminated(bytes) != [] ==> |Terminated(rest + bytes)[0]| >= lost
    ensures var carried := if Terminated(bytes) == [] then lost else 0;
            && carried <= |Unterminated(rest + bytes)|
            && Unterminated(rest[lost..] + bytes) == Unterminated(rest + bytes)[carried..]
  {
    hide Split, FindFirstOf;
    var pieces := Split(bytes, CRLF);
    var n := |pieces| - 1;
    SplitAfterPrefix(rest, bytes, CRLF);
    SplitAfterPrefix(rest[lost..], bytes, CRLF);
    assert rest[lost..] + pieces[0] == (rest + pieces[0])[lost..];
    assert Terminated(bytes) == pieces[..n];
    assert Split(rest + bytes, CRLF)[..n] == if n == 0 then [] else [rest + pieces[0]] + pieces[1..n];
    assert Split(rest[lost..] + bytes, CRLF)[..n] == if n == 0 then [] else [rest[lost..] + pieces[0]] + pieces[1..n];
    if n > 0 {
      assert Unterminated(rest + bytes) == pieces[n] == Unterminated(rest + bytes)[0..];
    }
  }

  predicate Inside(marks: seq<Mark>, segments: seq<string>) {
    |marks| == |segments| && forall i | 0 <= i < |marks| :: marks[i].cut <= |segments[i]|
  }

  /** Where the marks stand: inside their segments, one for each; and what the accumulator holds. */
  predicate Marked(chunks: seq<Chunk>) {
    && Inside(Marks(chunks), Terminated(Stream(chunks)))
    && Lost(chunks) <= |Unterminated(Stream(chunks))|
    && Accumulator(chunks) == Unterminated(Stream(chunks))[Lost(chunks)..]
  }

  lemma AccumulatorFromLost(chunks: seq<Chunk>)
    requires chunks != [] && Marked(chunks[..|chunks| - 1])
    ensures Lost(chunks) <= |Unterminated(Stream(chunks))|
    ensures Accumulator(chunks) == Unterminated(Stream(chunks))[Lost(chunks)..]
  {
    hide Terminated, Unterminated, Stream, Marks;
    var front, last := chunks[..|chunks| - 1], chunks[|chunks| - 1];
    RestIsFree(Stream(front));
    StreamSplits(chunks);
    CutChunk(Unterminated(Stream(front)), Lost(front), last.bytes);
  }

  lemma InsideConcat(m1: seq<Mark>, s1: seq<string>, m2: seq<Mark>, s2: seq<string>)
    requires Inside(m1, s1) && Inside(m2, s2)
    ensures Inside(m1 + m2, s1 + s2)
  {
  }

  lemma NewMarksInside(cut: nat, segments: seq<string>, stamp: nat)
    requires segments != [] ==> cut <= |segments[0]|
    ensures Inside(NewMarks(cut, |segments|, stamp), segments)
  {
    NewMarksCount(cut, |segments|, stamp);
  }

  lemma MarksAreInside(chunks: seq<Chunk>)
    requires chunks != [] && Marked(chunks[..|chunks| - 1])
    ensures Inside(Marks(chunks), Terminated(Stream(chunks)))
  {
    hide Terminated, Unterminated, Stream, Accumulator, Lost, Inside, NewMarks;
    var front, last := chunks[..|chunks| - 1], chunks[|chunks| - 1];
    var rest := Unterminated(Stream(front));
    RestIsFree(Stream(front));
    StreamSplits(chunks);
    CutChunk(rest, Lost(front), last.bytes);
    NewMarksInside(Lost(front), Terminated(rest + last.bytes), last.stamp);
    InsideConcat(Marks(front), Terminated(Stream(front)),
                 NewMarks(Lost(front), |Terminated(last.bytes)|, last.stamp), Terminated(rest + last.bytes));
  }

  /**
   Exactly which lines are delivered, for any stream in any chunks: for each terminated segment, in
   order, what follows the last discard in it, and nothing when that is empty, stamped with the chunk
   that completed the segment. What is retained is what follows the last discard in the rest.
   */
  lemma {:induction false} LinesExactly(chunks: seq<Chunk>)
    ensures Marked(chunks)
    ensures Lines(chunks) == LinesOf(Terminated(Stream(chunks)), Marks(chunks))
  {
    if chunks == [] {
      SplitFree("", CRLF);
    } else {
      var front, last := chunks[..|chunks| - 1], chunks[|chunks| - 1];
      LinesExactly(front);
      AccumulatorFromLost(chunks);
      MarksAreInside(chunks);
      LinesOfStep(chunks);
    }
  }

  lemma LinesOfStep(chunks: seq<Chunk>)
    requires chunks != []
    requires var front := chunks[..|chunks| - 1];
             Marked(front) && Lines(front) == LinesOf(Terminated(Stream(front)), Marks(front))
    requires |Marks(chunks)| == |Terminated(Stream(chunks))|
    ensures Lines(chunks) == LinesOf(Terminated(Stream(chunks)), Marks(chunks))
  {
    hide Terminated, Unterminated, Stream, Lost, NonEmpty, Stamp, LinesOf, CutFirst, NewMarks, Accumulator;
    var front, last := chunks[..|chunks| - 1], chunks[|chunks| - 1];
    var rest := Unterminated(Stream(front));
    RestIsFree(Stream(front));
    StreamSplits(chunks);
    CutChunk(rest, Lost(front), last.bytes);
    var found := Terminated(rest + last.bytes);
    LinesOfChunk(found, Lost(front), last.stamp);
    LinesOfConcat(Terminated(Stream(front)), Marks(front), found, NewMarks(Lost(front), |found|, last.stamp));
  }

  /** Nothing is discarded if and only if no mark cuts anything off. */
  lemma {:induction false} KeepsIsNoCut(chunks: seq<Chunk>)
    ensures Keeps(chunks) <==> Lost(chunks) == 0 && forall i | 0 <= i < |Marks(chunks)| :: Marks(chunks)[i].cut == 0
  {
    if chunks != [] {
      hide Terminated, Unterminated, Stream;
      var front, last := chunks[..|chunks| - 1], chunks[|chunks| - 1];
      KeepsIsNoCut(front);
      MarksGrow(chunks);
      if Terminated(last.bytes) != [] {
        assert Marks(chunks)[|Marks(front)|].cut == Lost(front);
      }
      if i :| 0 <= i < |Marks(front)| && Marks(front)[i].cut != 0 {
        assert Marks(chunks)[i].cut != 0;
      }
    }
  }

  lemma MarksGrow(chunks: seq<Chunk>)
    requires chunks != []
    ensures var front, last := chunks[..|chunks| - 1], chunks[|chunks| - 1];
            && |Marks(chunks)| == |Marks(front)| + |Terminated(last.bytes)|
            && (forall i | 0 <= i < |Marks(front)| :: Marks(chunks)[i] == Marks(front)[i])
            && (forall i | |Marks(front)| <= i < |Marks(chunks)| ::
                  Marks(chunks)[i].cut == if i == |Marks(front)| then Lost(front) else 0)
  {
    hide Terminated, Lost;
    var front, last := chunks[..|chunks| - 1], chunks[|chunks| - 1];
    NewMarksCount(Lost(front), |Terminated(last.bytes)|, last.stamp);
  }

  // ---------------------------------------------------------------- exactly when a fragment is delivered

  /** Every discard in a terminated segment fell at the segment's end. */
  predicate WholeOrNothing(segments: seq<string>, marks: seq<Mark>)
    requires |segments| == |marks|
  {
    forall i | 0 <= i < |marks| :: marks[i].cut == 0 || marks[i].cut == |segments[i]|
  }

  /** The segments of which anything is delivered. */
  function Survivors(segments: seq<string>, marks: seq<Mark>): seq<string>
    requires |segments| == |marks|
  {
    if segments == [] then []
    else
      var n := |segments| - 1;
      Survivors(segments[..n], marks[..n]) + if marks[n].cut < |segments[n]| then [segments[n]] else []
  }

  lemma TextsOfLine(lines: seq<Line>, segment: string, mark: Mark)
    requires mark.cut <= |segment|
    ensures Texts(lines + LineOf(segment, mark))
         == if mark.cut < |segment| then Texts(lines) + [segment[mark.cut..]] else Texts(lines)
  {
    assert lines + [] == lines;
  }

  /** Counting bytes again: a fragment is shorter than its segment, and nothing makes up for that. */
  predicate Accounted(segments: seq<string>, marks: seq<Mark>)
    requires |segments| == |marks|
  {
    var texts, whole := Texts(LinesOf(segments, marks)), Survivors(segments, marks);
    if WholeOrNothing(segments, marks) then texts == whole else Weight(texts) < Weight(whole)
  }

  lemma SurvivorsSnoc(segments: seq<string>, marks: seq<Mark>, last: string, mark: Mark)
    requires |segments| == |marks|
    ensures Survivors(segments + [last], marks + [mark])
         == if mark.cut < |last| then Survivors(segments, marks) + [last] else Survivors(segments, marks)
  {
    assert (segments + [last])[..|segments|] == segments && (marks + [mark])[..|marks|] == marks;
  }

  lemma WholeOrNothingSnoc(segments: seq<string>, marks: seq<Mark>, last: string, mark: Mark)
    requires |segments| == |marks|
    ensures WholeOrNothing(segments + [last], marks + [mark])
       <==> WholeOrNothing(segments, marks) && (mark.cut == 0 || mark.cut == |last|)
  {
    var s, m := segments + [last], marks + [mark];
    assert s[|segments|] == last && m[|marks|] == mark;
    assert forall i | 0 <= i < |marks| :: s[i] == segments[i] && m[i] == marks[i];
  }

  lemma AccountedSnoc(segments: seq<string>, marks: seq<Mark>, last: string, mark: Mark)
    requires |segments| == |marks| && mark.cut <= |last| && Accounted(segments, marks)
    ensures Accounted(segments + [last], marks + [mark])
  {
    hide Texts, LinesOf, LineOf, Survivors, Weight, WholeOrNothing;
    var texts := Texts(LinesOf(segments, marks));
    LinesOfSnoc(segments, marks, last, mark);
    TextsOfLine(LinesOf(segments, marks), last, mark);
    SurvivorsSnoc(segments, marks, last, mark);
    WholeOrNothingSnoc(segments, marks, last, mark);
    WeightSnoc(texts, last[mark.cut..]);
    WeightSnoc(Survivors(segments, marks), last);
    assert mark.cut == 0 ==> last[mark.cut..] == last;
  }

  lemma {:induction false} FragmentsAreShort(segments: seq<string>, marks: seq<Mark>)
    requires Inside(marks, segments)
    ensures Accounted(segments, marks)
  {
    if segments != [] {
      hide Accounted;
      var n := |segments| - 1;
      FragmentsAreShort(segments[..n], marks[..n]);
      AccountedSnoc(segments[..n], marks[..n], segments[n], marks[n]);
      LastOf(segments);
      LastOf(marks);
    }
  }

  /**
   When exactly no fragment is delivered: every line is a whole segment if and only if each discard in
   a segment that was later terminated fell at its end.
   */
  lemma NoFragmentExactly(chunks: seq<Chunk>)
    ensures |Marks(chunks)| == |Terminated(Stream(chunks))|
    ensures Texts(Lines(chunks)) == Survivors(Terminated(Stream(chunks)), Marks(chunks))
       <==> WholeOrNothing(Terminated(Stream(chunks)), Marks(chunks))
  {
    hide Terminated, Stream, Marks, Lines, LinesOf, Survivors, Texts, Weight, WholeOrNothing;
    LinesExactly(chunks);
    FragmentsAreShort(Terminated(Stream(chunks)), Marks(chunks));
  }
}
