/**
 class dump1090 (src/dump1090.hpp, .cpp): the parsing of received bytes and the reconnection state,
 updated in place, against the functions of Framing, Sbs1 and Backoff. The ownership of the
 descriptor between the two threads is module Descriptors.
 */
module Dump1090s {
  import opened Limits
  import opened Wrappers
  import opened Records
  import opened Numerals
  import opened Text
  import opened Fields
  import opened Framing
  import opened Sbs1
  import B = Backoff

  /** The widths of long and long long; unsigned long is as wide as long. */
  datatype Target = Target(longBits: nat, longLongBits: nat)

  /** The minimum widths of ISO C11, section 5.2.4.2.1. */
  predicate Conforming(t: Target) {
    t.longBits >= 32 && t.longLongBits >= 64
  }

  lemma WidthsSuffice(t: Target)
    requires Conforming(t)
    ensures Holds(Signed(t.longLongBits), 0, UINT32_MAX)
    ensures Holds(Signed(t.longBits), INT16_MIN, INT16_MAX)
    ensures Holds(Unsigned(t.longBits), 0, SQUAWK_MAX)
  {
    PowersOfTwo();
    PowMonotone(2, 63, t.longLongBits - 1);
    PowMonotone(2, 31, t.longBits - 1);
    PowMonotone(2, 32, t.longBits);
  }

  // ---------------------------------------------------------------- splitting

  lemma LastPiece(s: string, seps: string, start: nat)
    requires start <= |s| && FindFirstOf(s, seps, start) == |s|
    ensures Split(s[start..], seps) == [s[start..]]
  {
    SplitFree(s[start..], seps);
  }

  lemma MiddlePiece(s: string, seps: string, start: nat, i: nat)
    requires start <= i < |s| && i == FindFirstOf(s, seps, start)
    ensures Split(s[start..], seps) == [s[start..i]] + Split(s[i + 1..], seps)
  {
    var head, sep, rest := s[start..i], s[i], s[i + 1..];
    assert Free(head, seps) && sep in seps;
    assert s[start..] == head + [sep] + rest;
    SplitAt(head, sep, rest, seps);
  }

  /** How far the getline loop has come: the fields it has, and those still to be found from `at`. */
  ghost predicate Parted(s: string, data: seq<string>, at: nat) {
    at <= |s| && Split(s, ",") == data + Split(s[at..], ",")
  }

  lemma PartedAtStart(s: string)
    ensures Parted(s, [], 0)
  {
    assert s[0..] == s;
  }

  lemma PartedFurther(s: string, data: seq<string>, at: nat, comma: nat)
    requires Parted(s, data, at) && comma == FindFirstOf(s, ",", at) && comma < |s|
    ensures Parted(s, data + [s[at..comma]], comma + 1)
  {
    MiddlePiece(s, ",", at, comma);
  }

  lemma PartedInFull(s: string, data: seq<string>, at: nat)
    requires Parted(s, data, at) && FindFirstOf(s, ",", at) == |s|
    ensures Split(s, ",") == data + [s[at..|s|]]
  {
    LastPiece(s, ",", at);
    assert s[at..|s|] == s[at..];
  }

  /**
   The getline loop. A getline that meets the end of the text instead of a comma leaves the stream
   no longer good, having extracted the last field, be it empty.
   */
  method SplitFields(msg: string) returns (data: seq<string>)
    ensures data == Split(msg, ",")
  {
    data := [];
    var at, good := 0, true;
    PartedAtStart(msg);
    while good
      invariant good ==> Parted(msg, data, at)
      invariant at <= |msg|
      invariant !good ==> data == Split(msg, ",")
      decreases |msg| - at, good
    {
      var comma := FindFirstOf(msg, ",", at);
      if comma == |msg| {
        PartedInFull(msg, data, at);
        data := data + [msg[at..comma]];
        at, good := comma, false;
      } else {
        PartedFurther(msg, data, at, comma);
        data := data + [msg[at..comma]];
        at := comma + 1;
      }
    }
  }

  // ---------------------------------------------------------------- what is heard

  /** What each element gives, one after the other. */
  function Gather<A, B>(f: A -> seq<B>, xs: seq<A>): seq<B> {
    if xs == [] then [] else Gather(f, xs[..|xs| - 1]) + f(xs[|xs| - 1])
  }

  lemma {:induction false} GatherConcat<A, B>(f: A -> seq<B>, xs: seq<A>, ys: seq<A>)
    ensures Gather(f, xs + ys) == Gather(f, xs) + Gather(f, ys)
  {
    if ys == [] {
      assert xs + ys == xs;
    } else {
      GatherConcat(f, xs, ys[..|ys| - 1]);
      assert (xs + ys)[..|xs + ys| - 1] == xs + ys[..|ys| - 1];
    }
  }

  lemma GatherSnoc<A, B>(f: A -> seq<B>, xs: seq<A>, x: A)
    ensures Gather(f, xs + [x]) == Gather(f, xs) + f(x)
  {
    assert (xs + [x])[..|xs|] == xs;
  }

  function MessageIn(line: Line): seq<AdsbRecord> {
    match ParseLine(line.text, line.stamp)
    case None => []
    case Some(m) => [m]
  }

  /** The messages that a series of lines gives rise to. */
  function Messages(lines: seq<Line>): seq<AdsbRecord> {
    Gather(MessageIn, lines)
  }

  /** What framing will come to, given the lines found so far and where it has got to: all lines, and the rest. */
  function Outcome(s: string, texts: seq<string>, start: nat): (seq<string>, string)
    requires start <= |s|
  {
    (texts + NonEmpty(Terminated(s[start..])), Unterminated(s[start..]))
  }

  lemma OutcomeAtStart(s: string)
    ensures Outcome(s, [], 0) == (NonEmpty(Terminated(s)), Unterminated(s))
  {
    assert s[0..] == s;
    assert [] + NonEmpty(Terminated(s)) == NonEmpty(Terminated(s));
  }

  lemma SegmentTaken(segment: string, rest: seq<string>)
    ensures NonEmpty([segment] + rest) == if segment == "" then NonEmpty(rest) else [segment] + NonEmpty(rest)
  {
    NonEmptyConcat([segment], rest);
    NonEmptyOne(segment);
  }

  lemma NextSegment(s: string, start: nat, pos: nat)
    requires start <= pos < |s| && pos == FindFirstOf(s, CRLF, start)
    ensures Unterminated(s[start..]) == Unterminated(s[pos + 1..])
    ensures Terminated(s[start..]) == [s[start..pos]] + Terminated(s[pos + 1..])
  {
    MiddlePiece(s, CRLF, start, pos);
  }

  /** One more terminator found: the segment before it is the next line, unless it is empty. */
  lemma OutcomeAfterLine(s: string, texts: seq<string>, start: nat, pos: nat)
    requires start < pos < |s| && pos == FindFirstOf(s, CRLF, start)
    ensures Outcome(s, texts + [s[start..pos]], pos + 1) == Outcome(s, texts, start)
  {
    hide Terminated, Unterminated;
    NextSegment(s, start, pos);
    SegmentTaken(s[start..pos], Terminated(s[pos + 1..]));
    var later := NonEmpty(Terminated(s[pos + 1..]));
    assert texts + [s[start..pos]] + later == texts + ([s[start..pos]] + later);
  }

  lemma OutcomeAfterEmpty(s: string, texts: seq<string>, start: nat)
    requires start < |s| && start == FindFirstOf(s, CRLF, start)
    ensures Outcome(s, texts, start + 1) == Outcome(s, texts, start)
  {
    hide Terminated, Unterminated;
    NextSegment(s, start, start);
    SegmentTaken(s[start..start], Terminated(s[start + 1..]));
  }

  lemma OutcomeInFull(s: string, texts: seq<string>, start: nat)
    requires start <= |s| && FindFirstOf(s, CRLF, start) == |s|
    ensures Outcome(s, texts, start) == (texts, s[start..])
  {
    LastPiece(s, CRLF, start);
    assert texts + [] == texts;
  }

  /** What has been handed to the callback, if one is set, after further messages. */
  function Told(hasCallback: bool, heard: seq<AdsbRecord>, messages: seq<AdsbRecord>): (told: seq<AdsbRecord>)
    ensures told == heard + if hasCallback then messages else []
  {
    if hasCallback then heard + messages else heard
  }

  lemma ToldMore(hasCallback: bool, heard: seq<AdsbRecord>, lines: seq<Line>, more: seq<Line>)
    ensures Told(hasCallback, Told(hasCallback, heard, Messages(lines)), Messages(more))
         == Told(hasCallback, heard, Messages(lines + more))
  {
    hide *;
    MessagesConcat(lines, more);
    ToldAppend(hasCallback, heard, Messages(lines), Messages(more));
  }

  lemma MessagesConcat(lines: seq<Line>, more: seq<Line>)
    ensures Messages(lines + more) == Messages(lines) + Messages(more)
  {
    GatherConcat(MessageIn, lines, more);
  }

  lemma ToldLine(hasCallback: bool, heard: seq<AdsbRecord>, texts: seq<string>, text: string, stamp: nat)
    ensures Told(hasCallback, Told(hasCallback, heard, Messages(Stamp(texts, stamp))), MessageIn(Line(text, stamp)))
         == Told(hasCallback, heard, Messages(Stamp(texts + [text], stamp)))
  {
    hide *;
    StampSnoc(texts, text, stamp);
    MessagesSnoc(Stamp(texts, stamp), Line(text, stamp));
    ToldAppend(hasCallback, heard, Messages(Stamp(texts, stamp)), MessageIn(Line(text, stamp)));
  }

  lemma MessagesSnoc(lines: seq<Line>, line: Line)
    ensures Messages(lines + [line]) == Messages(lines) + MessageIn(line)
  {
    GatherSnoc(MessageIn, lines, line);
  }

  lemma ToldAppend(hasCallback: bool, heard: seq<AdsbRecord>, messages: seq<AdsbRecord>, more: seq<AdsbRecord>)
    ensures Told(hasCallback, Told(hasCallback, heard, messages), more) == Told(hasCallback, heard, messages + more)
  {
  }

  lemma ToldNothing(hasCallback: bool, heard: seq<AdsbRecord>)
    ensures Told(hasCallback, heard, Messages([])) == heard
  {
  }

  lemma ToldNoText(hasCallback: bool, heard: seq<AdsbRecord>, stamp: nat)
    ensures Told(hasCallback, heard, Messages(Stamp([], stamp))) == heard
  {
  }

  lemma NoMessages()
    ensures Messages(Lines([])) == [] && Messages([]) == []
  {
  }

  lemma NoLines()
    ensures Lines([]) == [] && Accumulator([]) == ""
  {
  }

  lemma RetainIs(rest: string)
    ensures Retain(rest) == if |rest| > BUFFER_LENGTH then "" else rest
  {
  }

  lemma FoundIs(retained: string, chunk: Chunk)
    ensures Found(retained, chunk) == Stamp(NonEmpty(Terminated(retained + chunk.bytes)), chunk.stamp)
  {
  }

  /** The lines found in the accumulator once a chunk has been added to it. */
  function Found(retained: string, chunk: Chunk): seq<Line> {
    Stamp(NonEmpty(Terminated(retained + chunk.bytes)), chunk.stamp)
  }

  lemma OneMoreChunk(chunks: seq<Chunk>, k: nat)
    requires k < |chunks|
    ensures Accumulator(chunks[..k + 1]) == Retain(Unterminated(Accumulator(chunks[..k]) + chunks[k].bytes))
    ensures Lines(chunks[..k + 1]) == Lines(chunks[..k]) + Found(Accumulator(chunks[..k]), chunks[k])
  {
    assert chunks[..k + 1][..k] == chunks[..k];
  }

  // ---------------------------------------------------------------- the object

  class Dump1090 {
    const target: Target
    /** Whether adsb_cb is set, and everything it was called with. */
    const hasCallback: bool
    var heard: seq<AdsbRecord>
    /** The descriptor; None is -1. */
    var fd: Option<nat>
    var lastTried: nat
    var retryDelay: nat

    ghost predicate Valid() {
      Conforming(target)
    }

    ghost function Connection(): B.State
      reads this
    {
      B.State(fd.Some?, retryDelay, lastTried)
    }

    constructor (target: Target, hasCallback: bool, candidates: seq<Option<nat>>)
      requires Conforming(target)
      ensures Valid() && this.target == target && this.hasCallback == hasCallback
      ensures heard == [] && Connection() == B.Initial(FirstOpen(candidates).Some?)
    {
      this.target, this.hasCallback := target, hasCallback;
      heard, fd, lastTried, retryDelay := [], None, 0, B.RETRY_DELAY_START;
      new;
      ConnectToDump1090(candidates);
    }

    /** The velocity case of the switch. */
    method ReadVelocity(adsb: AdsbData, data: seq<string>, received: nat)
      requires Valid() && |data| > FIELD_SQUAWK
      modifies adsb
      ensures var m := old(adsb.Value());
              adsb.Value() == m.(speed := Observed(ToDouble(data[FIELD_GROUNDSPEED], 0.0, None), m.speed, received),
                                 heading := Observed(ToDouble(data[FIELD_TRACK], 0.0, Some(MAX_TRACK)),
                                                     m.heading, received),
                                 vertVel := Observed(VertrateIn(data[FIELD_VERTRATE]), m.vertVel, received))
    {
      WidthsSuffice(target);
      VertrateIsClampedValue(data[FIELD_VERTRATE], Signed(target.longBits));
      var speed := ToDouble(data[FIELD_GROUNDSPEED], 0.0, None);
      if speed.Some? {
        adsb.SetSpeed(speed.value, received);
      }
      var track := ToDouble(data[FIELD_TRACK], 0.0, Some(MAX_TRACK));
      if track.Some? {
        adsb.SetHeading(track.value, received);
      }
      var vertrate := ToVertrate(data[FIELD_VERTRATE], Signed(target.longBits));
      if vertrate.Some? {
        adsb.SetVertVel(vertrate.value, received);
      }
    }

    method ReadAltitude(adsb: AdsbData, data: seq<string>, received: nat)
      requires Valid() && |data| > FIELD_SQUAWK
      modifies adsb
      ensures var m := old(adsb.Value());
              adsb.Value() == m.(altitude := Observed(AltitudeIn(data[FIELD_ALTITUDE]), m.altitude, received))
    {
      WidthsSuffice(target);
      AltitudeIsClampedValue(data[FIELD_ALTITUDE], Signed(target.longLongBits));
      var altitude := ToAltitude(data[FIELD_ALTITUDE], Signed(target.longLongBits));
      if altitude.Some? {
        adsb.SetAltitude(altitude.value, received);
      }
    }

    method ReadSquawk(adsb: AdsbData, data: seq<string>, received: nat)
      requires Valid() && |data| > FIELD_SQUAWK
      modifies adsb
      ensures var m := old(adsb.Value());
              adsb.Value() == m.(squawk := Observed(SquawkIn(data[FIELD_SQUAWK]), m.squawk, received))
    {
      WidthsSuffice(target);
      var squawk := ToSquawk(data[FIELD_SQUAWK], Unsigned(target.longBits));
      if squawk.Some? {
        adsb.SetSquawk(squawk.value, received);
      }
    }

    method ReadPosition(adsb: AdsbData, data: seq<string>)
      requires |data| > FIELD_SQUAWK && adsb.position == None
      modifies adsb
      ensures adsb.Value() == old(adsb.Value()).(position := PositionIn(data[FIELD_LAT], data[FIELD_LNG]))
    {
      var lat := ToDouble(data[FIELD_LAT], -MAX_LATITUDE, Some(MAX_LATITUDE));
      var lng := ToDouble(data[FIELD_LNG], -MAX_LONGITUDE, Some(MAX_LONGITUDE));
      if lat.Some? && lng.Some? {
        adsb.SetPosition(Point(lat.value, lng.value));
      }
    }

    /** The switch of processMessage; false is its default case, which returns. */
    method ReadContent(id: int, adsb: AdsbData, data: seq<string>, received: nat) returns (known: bool)
      requires Valid() && |data| > FIELD_SQUAWK
      requires adsb.Value() == EmptyRecord(adsb.icao).(lastSeen := received)
      modifies adsb
      ensures var m := MessageOf(id, adsb.icao, ColumnsOf(data), received);
              known == m.Some? && (known ==> adsb.Value() == m.value)
    {
      if id == ID_IDENT {
        adsb.SetCallsign(data[FIELD_CALLSIGN], received);
      } else if id == ID_AIRBORNE_POS {
        ReadPosition(adsb, data);
        ReadAltitude(adsb, data, received);
      } else if id == ID_AIRBORNE_VEL {
        ReadVelocity(adsb, data, received);
      } else if id == ID_SURVEILLANCE_ID {
        ReadSquawk(adsb, data, received);
        ReadAltitude(adsb, data, received);
      } else if id == ID_SURVEILLANCE_ALT || id == ID_AIR_TO_AIR {
        ReadAltitude(adsb, data, received);
      } else if id == ID_SURFACE_POS || id == ID_ALL_CALL_REPLY {
      } else {
        return false;
      }
      return true;
    }

    method ProcessMessage(msg: string, received: nat)
      requires Valid()
      modifies this`heard
      ensures heard == Told(hasCallback, old(heard), MessageIn(Line(msg, received)))
      ensures heard == old(heard) + if hasCallback then MessageIn(Line(msg, received)) else []
    {
      var data := SplitFields(msg);
      if |data| > FIELD_SQUAWK && data[FIELD_TYPE] == "MSG" {
        var address := ToAddress(data[FIELD_ADDRESS]);
        if address == None {
          return;
        }
        var adsb := new AdsbData(address.value);
        adsb.SetLastSeen(received);
        TypeOfId(data[FIELD_ID], target, address.value, ColumnsOf(data), received);
        var known := ReadContent(Strtol(data[FIELD_ID], Signed(target.longBits)), adsb, data, received);
        if !known {
          return;
        }
        if hasCallback {
          heard := heard + [adsb.Value()];
        }
      }
    }

    /**
     The receive thread, given what recv returns before it reports the end of the connection. What
     the callback hears is what the lines of the stream mean, and the descriptor is given up.
     */
    method ProcessMessages(chunks: seq<Chunk>)
      requires Valid()
      modifies this`heard, this`fd
      ensures heard == old(heard) + if hasCallback && old(fd).Some? then Messages(Lines(chunks)) else []
      ensures fd == None
    {
      hide *;
      var accumulator := "";
      var k := 0;
      NoLines();
      ToldNothing(hasCallback, heard);
      while fd.Some?
        invariant k <= |chunks| && (fd == None ==> k == if old(fd) == None then 0 else |chunks|)
        invariant fd.Some? ==> old(fd).Some?
        invariant accumulator == Accumulator(chunks[..k])
        invariant heard == Told(hasCallback, old(heard), Messages(Lines(chunks[..k])))
        decreases |chunks| - k, fd.Some?
      {
        if k == |chunks| {
          fd := None;
        } else {
          OneMoreChunk(chunks, k);
          ToldMore(hasCallback, old(heard), Lines(chunks[..k]), Found(accumulator, chunks[k]));
          accumulator := TakeChunk(accumulator, chunks[k]);
          k := k + 1;
        }
      }
      assert chunks[..k] == if old(fd) == None then [] else chunks;
      NoMessages();
    }

    /** One turn of the receive loop, after recv. */
    method TakeChunk(retained: string, chunk: Chunk) returns (accumulator: string)
      requires Valid()
      modifies this`heard
      ensures accumulator == Retain(Unterminated(retained + chunk.bytes))
      ensures heard == Told(hasCallback, old(heard), Messages(Found(retained, chunk)))
      ensures heard == old(heard) + if hasCallback then Messages(Found(retained, chunk)) else []
    {
      hide *;
      accumulator := retained + chunk.bytes;
      var start := 0;
      var pos := FindFirstOf(accumulator, CRLF, start);
      ghost var texts: seq<string> := [];
      OutcomeAtStart(accumulator);
      ToldNoText(hasCallback, heard, chunk.stamp);
      while pos < |accumulator|
        invariant start <= |accumulator| && pos == FindFirstOf(accumulator, CRLF, start)
        invariant Outcome(accumulator, texts, start) == (NonEmpty(Terminated(accumulator)), Unterminated(accumulator))
        invariant heard == Told(hasCallback, old(heard), Messages(Stamp(texts, chunk.stamp)))
        decreases |accumulator| - start
      {
        if pos > start {
          OutcomeAfterLine(accumulator, texts, start, pos);
          ToldLine(hasCallback, old(heard), texts, accumulator[start..pos], chunk.stamp);
          texts := texts + [accumulator[start..pos]];
          ProcessMessage(accumulator[start..pos], chunk.stamp);
        } else {
          OutcomeAfterEmpty(accumulator, texts, start);
        }
        start := pos + 1;
        pos := FindFirstOf(accumulator, CRLF, start);
      }
      OutcomeInFull(accumulator, texts, start);
      FoundIs(retained, chunk);
      RetainIs(accumulator[start..]);
      accumulator := accumulator[start..];
      if |accumulator| > BUFFER_LENGTH {
        accumulator := "";
      }
    }

    /** The candidates in resolver order; each gives a descriptor or not. The first that does is used. */
    method ConnectToDump1090(candidates: seq<Option<nat>>)
      modifies this`fd, this`retryDelay
      ensures match FirstOpen(candidates)
              case None => fd == old(fd) && retryDelay == old(retryDelay)
              case Some(n) => fd == Some(n) && retryDelay == B.RETRY_DELAY_START
    {
      var i := 0;
      assert candidates[0..] == candidates;
      while i < |candidates|
        invariant i <= |candidates| && fd == old(fd) && retryDelay == old(retryDelay)
        invariant FirstOpen(candidates) == FirstOpen(candidates[i..])
      {
        if candidates[i].Some? {
          fd, retryDelay := candidates[i], B.RETRY_DELAY_START;
          return;
        }
        assert candidates[i..][1..] == candidates[i + 1..];
        i := i + 1;
      }
    }

    method Reconnect(now: nat, candidates: seq<Option<nat>>)
      modifies this`fd, this`retryDelay, this`lastTried
      ensures Connection() == B.Step(old(Connection()), B.Called(now, FirstOpen(candidates).Some?))
      ensures fd == old(fd) || (old(fd) == None && fd == FirstOpen(candidates))
    {
      if fd == None {
        var elapsed := B.Elapsed(now, lastTried);
        if elapsed > retryDelay {
          retryDelay := B.Min(retryDelay * 2, B.RETRY_DELAY_CAP);
          lastTried := now;
          ConnectToDump1090(candidates);
        }
      }
    }
  }

  function FirstOpen(candidates: seq<Option<nat>>): Option<nat> {
    if candidates == [] then None
    else if candidates[0].Some? then candidates[0]
    else FirstOpen(candidates[1..])
  }

  /** The first candidate that connects is used, and only if none does is there no connection. */
  lemma {:induction false} FirstOpenIsFirst(candidates: seq<Option<nat>>, i: nat)
    requires i < |candidates| && candidates[i].Some? && forall j | 0 <= j < i :: candidates[j] == None
    ensures FirstOpen(candidates) == candidates[i]
  {
    if i > 0 {
      FirstOpenIsFirst(candidates[1..], i - 1);
    }
  }

  lemma {:induction false} NoneOpen(candidates: seq<Option<nat>>)
    ensures FirstOpen(candidates) == None <==> forall j | 0 <= j < |candidates| :: candidates[j] == None
  {
    if candidates != [] {
      NoneOpen(candidates[1..]);
      assert forall j | 1 <= j < |candidates| :: candidates[j] == candidates[1..][j - 1];
    }
  }

  /** The width of long does not matter to the switch either. */
  lemma TypeOfId(s: string, t: Target, address: nat, data: Columns, stamp: nat)
    requires Conforming(t)
    ensures MessageOf(Strtol(s, Signed(t.longBits)), address, data, stamp)
         == MessageOf(StrtolValue(s), address, data, stamp)
  {
    var v, w := Strtol(s, Signed(t.longBits)), StrtolValue(s);
    if 1 <= v <= 8 {
      SaturatedIdIsUnknown(s, Signed(t.longBits), v);
    } else if 1 <= w <= 8 {
      SaturatedIdIsUnknown(s, Signed(t.longBits), w);
    }
  }
}
