/**
 The whole way in: transmissions printed as lines, sent as one stream, received in any chunks, framed
 and parsed. What is heard is what was printed.
 */
module Wire {
  import opened Wrappers
  import opened Records
  import opened Text
  import opened Framing
  import opened Sbs1
  import opened Dump1090s

  /** One line as it is sent. */
  datatype Packet = Packet(w: Transmission, crlf: bool)

  predicate AllSendable(ps: seq<Packet>) {
    forall i | 0 <= i < |ps| :: Printable(ps[i].w)
  }

  /** No line is longer than the receive buffer. */
  predicate AllFit(ps: seq<Packet>)
    requires AllSendable(ps)
  {
    forall i | 0 <= i < |ps| :: |PrintLine(ps[i].w)| <= BUFFER_LENGTH
  }

  function Terminator(p: Packet): string {
    if p.crlf then "\r\n" else "\n"
  }

  /** The stream that carries these lines. */
  function Bytes(ps: seq<Packet>): string
    requires AllSendable(ps)
  {
    if ps == [] then "" else Bytes(ps[..|ps| - 1]) + (PrintLine(ps[|ps| - 1].w) + Terminator(ps[|ps| - 1]))
  }

  function Printed(ps: seq<Packet>): seq<string>
    requires AllSendable(ps)
  {
    seq(|ps|, i requires 0 <= i < |ps| => PrintLine(ps[i].w))
  }

  lemma PrintedSnoc(ps: seq<Packet>)
    requires AllSendable(ps) && ps != []
    ensures Printed(ps) == Printed(ps[..|ps| - 1]) + [PrintLine(ps[|ps| - 1].w)]
  {
    hide PrintLine, Printable;
  }

  /** A line and its terminator, on their own. */
  lemma PacketPieces(line: string, crlf: bool)
    requires line != "" && Free(line, CRLF)
    ensures Split(line + if crlf then "\r\n" else "\n", CRLF) == if crlf then [line, "", ""] else [line, ""]
  {
    if crlf {
      assert line + "\r\n" == line + ['\r'] + "\n";
      SplitAt(line, '\r', "\n", CRLF);
      assert "\n" == "" + ['\n'] + "";
      SplitAt("", '\n', "", CRLF);
    } else {
      assert line + "\n" == line + ['\n'] + "";
      SplitAt(line, '\n', "", CRLF);
    }
    SplitFree("", CRLF);
  }

  lemma NonEmptyPieces(line: string, crlf: bool)
    requires line != ""
    ensures NonEmpty(if crlf then [line, ""] else [line]) == [line]
  {
    NonEmptyOne(line);
    assert [line, ""][..1] == [line];
  }

  lemma PacketSplits(s: string, packet: string, found: seq<string>)
    requires Unterminated(s) == "" && Split(packet, CRLF) == found + [""]
    ensures Terminated(s + packet) == Terminated(s) + found && Unterminated(s + packet) == ""
  {
    hide Split, FindFirstOf;
    SplitConcat(s, packet, CRLF);
    assert "" + packet == packet;
    assert Split(s + packet, CRLF) == Terminated(s) + found + [""];
  }

  /** A packet, after a stream that ended with a terminator. */
  lemma PacketAppended(s: string, line: string, crlf: bool)
    requires line != "" && Free(line, CRLF) && Unterminated(s) == ""
    ensures var t := s + (line + if crlf then "\r\n" else "\n");
            Unterminated(t) == "" && NonEmpty(Terminated(t)) == NonEmpty(Terminated(s)) + [line]
  {
    hide Split, FindFirstOf, Terminated, Unterminated, NonEmpty;
    var packet := line + if crlf then "\r\n" else "\n";
    var found := if crlf then [line, ""] else [line];
    PacketPieces(line, crlf);
    assert Split(packet, CRLF) == found + [""];
    PacketSplits(s, packet, found);
    NonEmptyPieces(line, crlf);
    NonEmptyConcat(Terminated(s), found);
  }

  lemma {:induction false} BytesAreLines(ps: seq<Packet>)
    requires AllSendable(ps)
    ensures Unterminated(Bytes(ps)) == "" && NonEmpty(Terminated(Bytes(ps))) == Printed(ps)
  {
    if ps == [] {
      SplitFree("", CRLF);
    } else {
      var front, last := ps[..|ps| - 1], ps[|ps| - 1];
      BytesAreLines(front);
      PrintedLineIsFree(last.w);
      PacketAppended(Bytes(front), PrintLine(last.w), last.crlf);
      PrintedSnoc(ps);
    }
  }

  lemma {:induction false} ShortWithoutEmpty(pieces: seq<string>)
    requires AllShort(NonEmpty(pieces))
    ensures AllShort(pieces)
  {
    if pieces != [] {
      var front, last := pieces[..|pieces| - 1], pieces[|pieces| - 1];
      assert forall i | 0 <= i < |NonEmpty(front)| :: NonEmpty(front)[i] == NonEmpty(pieces)[i];
      if last != "" {
        assert NonEmpty(pieces)[|NonEmpty(front)|] == last;
      }
      ShortWithoutEmpty(front);
    }
  }

  /** Lines that fit the buffer are kept in any chunks. */
  lemma FittingIsKept(ps: seq<Packet>, chunks: seq<Chunk>)
    requires AllSendable(ps)
    ensures Stream(chunks) == Bytes(ps) && AllFit(ps) ==> Keeps(chunks)
  {
    hide PrintLine, Printable, Terminated, Unterminated, NonEmpty, Stream, Bytes, Keeps;
    BytesAreLines(ps);
    if Stream(chunks) == Bytes(ps) && AllFit(ps) {
      ShortWithoutEmpty(Terminated(Bytes(ps)));
      ShortIsKept(chunks);
    }
  }

  /** The lines framed are the lines printed, if and only if no chunk leaves too much without a terminator. */
  lemma LinesArePrinted(ps: seq<Packet>, chunks: seq<Chunk>)
    requires AllSendable(ps)
    ensures Stream(chunks) == Bytes(ps) ==> (Texts(Lines(chunks)) == Printed(ps) <==> Keeps(chunks))
  {
    hide PrintLine, Printable, Terminated, Unterminated, NonEmpty, Stream, Bytes, Keeps, Lines, Texts, Printed;
    BytesAreLines(ps);
    if Stream(chunks) == Bytes(ps) {
      LinesAreSegmentsExactly(chunks);
    }
  }

  lemma HeardAsPrinted(w: Transmission, line: Line)
    requires Printable(w) && line.text == PrintLine(w)
    ensures MessageIn(line) == [Received(w, line.stamp)]
  {
    hide Printable, PrintLine, Received, ParseLine;
    LineRoundTrip(w, line.stamp);
  }

  lemma {:induction false} OneMessagePerLine(ps: seq<Packet>, lines: seq<Line>)
    requires AllSendable(ps) && |lines| == |ps| && forall i | 0 <= i < |ps| :: lines[i].text == PrintLine(ps[i].w)
    ensures |Messages(lines)| == |ps|
    ensures forall i | 0 <= i < |ps| :: Messages(lines)[i] == Received(ps[i].w, lines[i].stamp)
  {
    hide Printable, PrintLine, Received, MessageIn;
    if ps != [] {
      var n := |ps| - 1;
      OneMessagePerLine(ps[..n], lines[..n]);
      HeardAsPrinted(ps[n].w, lines[n]);
      MessagesSnoc(lines[..n], lines[n]);
      assert lines == lines[..n] + [lines[n]];
    }
  }

  lemma LinesOfPackets(ps: seq<Packet>, chunks: seq<Chunk>)
    requires AllSendable(ps)
    ensures Stream(chunks) == Bytes(ps) && Keeps(chunks) ==>
              && |Lines(chunks)| == |ps| == Complete(chunks)
              && forall i | 0 <= i < |ps| :: Lines(chunks)[i].text == PrintLine(ps[i].w)
  {
    hide Printable, PrintLine, Lines, Terminated, NonEmpty, Keeps, Stream, Bytes;
    LinesArePrinted(ps, chunks);
    BytesAreLines(ps);
    if Stream(chunks) == Bytes(ps) && Keeps(chunks) {
      assert forall i | 0 <= i < |Lines(chunks)| :: Texts(Lines(chunks))[i] == Lines(chunks)[i].text;
    }
  }

  lemma StampsOfPackets(chunks: seq<Chunk>)
    requires Keeps(chunks) && |Lines(chunks)| == Complete(chunks)
    ensures chunks == [] ==> Complete(chunks) == 0
    ensures forall i | 0 <= i < Complete(chunks) :: Lines(chunks)[i].stamp == chunks[CompletedIn(chunks, i)].stamp
  {
    hide Lines, CompletedIn, Complete;
    NoLines();
    forall i | 0 <= i < Complete(chunks)
      ensures chunks != [] && Lines(chunks)[i].stamp == chunks[CompletedIn(chunks, i)].stamp
    {
      StampOfLine(chunks, i);
    }
  }

  /**
   The wire round trip. Any transmissions, printed as lines ended by LF or CR LF and received in any
   chunks of which none leaves more than 2048 bytes without a terminator, as always when no line is
   longer than that, are heard as exactly those transmissions, in order, with the values printed,
   each stamped with the chunk that completed its line.
   */
  lemma WireRoundTrip(ps: seq<Packet>, chunks: seq<Chunk>)
    requires AllSendable(ps)
    ensures Stream(chunks) == Bytes(ps) && (AllFit(ps) || Keeps(chunks)) ==>
              && |Messages(Lines(chunks))| == |ps| && (ps != [] ==> chunks != [])
              && forall i | 0 <= i < |ps| ::
                   Messages(Lines(chunks))[i] == Received(ps[i].w, chunks[CompletedIn(chunks, i)].stamp)
  {
    hide Printable, PrintLine, Received, Messages, Lines, CompletedIn, Complete, Keeps, Stream, Bytes, AllFit;
    FittingIsKept(ps, chunks);
    if Stream(chunks) == Bytes(ps) && Keeps(chunks) {
      LinesOfPackets(ps, chunks);
      OneMessagePerLine(ps, Lines(chunks));
      StampsOfPackets(chunks);
    }
  }

  /**
   After an overflow the callback can hear what was never a line: when the beginning of an overlong
   line is discarded and the end of it happens to be a record, that record is heard.
   */
  lemma FragmentIsHeard(junk: string, w: Transmission, stamp: nat) returns (chunks: seq<Chunk>)
    requires Free(junk, CRLF) && |junk| == BUFFER_LENGTH + 1
    requires Printable(w) && |PrintLine(w)| < BUFFER_LENGTH
    ensures forall i | 0 <= i < |chunks| :: 1 <= |chunks[i].bytes| <= BUFFER_LENGTH
    ensures Stream(chunks) == junk + PrintLine(w) + "\n"
    ensures Messages(Lines(chunks)) == [Received(w, stamp)]
  {
    hide Printable, PrintLine, Received, Messages, MessageIn, Lines, Stream, Free;
    PrintedLineIsFree(w);
    assert 1 <= |PrintLine(w)|;
    chunks := FragmentIsDelivered(junk, PrintLine(w), stamp);
    HeardAsPrinted(w, Line(PrintLine(w), stamp));
    MessagesSnoc([], Line(PrintLine(w), stamp));
    NoMessages();
    assert [] + [Line(PrintLine(w), stamp)] == [Line(PrintLine(w), stamp)];
  }
}
