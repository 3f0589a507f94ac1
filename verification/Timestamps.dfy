/**
 The wire timestamps of what the worker of module Worker sends (src/reporting_worker.cpp, lines 10-18;
 src/adsb_record.hpp, lines 196-218): how they relate to the receipt, and in what order they are.
 */
module Timestamps {
  import opened Limits
  import opened Wrappers
  import opened QueueHistory
  import opened Worker
  import Records

  /** The two readings, in milliseconds, of which the timestamp is made. */
  function Mono(r: Sent): nat {
    Ms(r.monoAt)
  }

  function Wall(c: Config, r: Sent): nat {
    Ms(r.wallAt + c.offset)
  }

  function Timestamp(c: Config, r: Sent): nat {
    Records.DeriveReportTimestamp(r.entry.item.received, Mono(r), Wall(c, r))
  }

  /** How much later the wall clock was read than the monotonic one, in nanoseconds. */
  function Delay(r: Sent): int {
    r.wallAt - r.monoAt
  }

  /** What an exact timestamp would be, in nanoseconds: receive stamp, plus a constant, plus the delay. */
  function Exact(c: Config, r: Sent): int {
    r.entry.item.received * NS_PER_MS + c.offset + Delay(r)
  }

  /** Truncating two clocks separately is off by less than a millisecond either way. */
  lemma TruncationError(mono: nat, wall: nat, received: nat)
    requires received <= Ms(mono) && mono <= wall
    ensures var t := Records.DeriveReportTimestamp(received, Ms(mono), Ms(wall));
            && t == received + Ms(wall) - Ms(mono)
            && received * NS_PER_MS + (wall - mono) - NS_PER_MS < t * NS_PER_MS
            && t * NS_PER_MS < received * NS_PER_MS + (wall - mono) + NS_PER_MS
  {
  }

  /**
   Without a step of the wall clock, the timestamp sent is the receive stamp plus a constant plus the
   time between the worker's two clock reads, to within one millisecond; how long the report was
   queued does not enter.
   */
  lemma TimestampIsReceiveTime(c: Config, s: State, i: nat)
    requires Reached(c, s) && i < |s.sent|
    ensures Delay(s.sent[i]) >= 0
    ensures Timestamp(c, s.sent[i]) == s.sent[i].entry.item.received + Wall(c, s.sent[i]) - Mono(s.sent[i])
    ensures Exact(c, s.sent[i]) - NS_PER_MS < Timestamp(c, s.sent[i]) * NS_PER_MS < Exact(c, s.sent[i]) + NS_PER_MS
  {
    ReachedInv(c, s);
    var r := s.sent[i];
    assert ReadInOrder(r.entry, r.monoAt, r.wallAt);
    hide *;
    SentTimes(c, r);
  }

  lemma SentTimes(c: Config, r: Sent)
    requires ReadInOrder(r.entry, r.monoAt, r.wallAt)
    ensures Delay(r) >= 0 && Timestamp(c, r) == r.entry.item.received + Wall(c, r) - Mono(r)
    ensures Exact(c, r) - NS_PER_MS < Timestamp(c, r) * NS_PER_MS < Exact(c, r) + NS_PER_MS
  {
    TruncationError(r.monoAt, r.wallAt + c.offset, r.entry.item.received);
  }

  lemma SentInOrder(c: Config, s: State, i: nat, j: nat)
    requires Reached(c, s) && i < j < |s.sent| && s.sent[i].entry.address == s.sent[j].entry.address
    ensures s.sent[i].entry.item.received <= s.sent[j].entry.item.received
  {
    ReachedInv(c, s);
    var line := Timeline(s);
    assert line[i] == s.sent[i].entry && line[j] == s.sent[j].entry;
    assert line[i].item.id < line[j].item.id;
  }

  /** The timestamp that a send would have carried, had the wall clock been this far ahead. */
  function TimestampAt(lead: nat, r: Sent): nat {
    Timestamp(Config(1, 0, lead), r)
  }

  /** Whole milliseconds pass between two readings for at least every whole millisecond between the instants. */
  lemma ReadingsApart(earlier: nat, later: nat)
    requires earlier <= later
    ensures 0 <= Ms(later) - Ms(earlier) - Ms(later - earlier) <= 1
  {
  }

  /** With some lead the wall clock reads a whole millisecond at this instant, and then no fraction is carried over. */
  lemma WholeLead(at: nat, later: nat) returns (lead: nat)
    requires at <= later
    ensures Ms(later + lead) - Ms(at + lead) == Ms(later - at)
  {
    lead := NS_PER_MS - at % NS_PER_MS;
    assert (at + lead) == (at / NS_PER_MS + 1) * NS_PER_MS;
  }

  /** How much the receive stamps must differ for the timestamps to be in order with any lead of the wall clock. */
  function RequiredGap(a: Sent, b: Sent): int
    requires a.wallAt <= b.wallAt
  {
    Mono(b) - Mono(a) - Ms(b.wallAt - a.wallAt)
  }

  lemma InOrderWithAnyLead(a: Sent, b: Sent)
    requires ReadInOrder(a.entry, a.monoAt, a.wallAt) && ReadInOrder(b.entry, b.monoAt, b.wallAt)
    requires a.wallAt <= b.wallAt
    ensures (forall lead: nat :: TimestampAt(lead, a) <= TimestampAt(lead, b))
       <==> b.entry.item.received - a.entry.item.received >= RequiredGap(a, b)
  {
    forall lead: nat
      ensures TimestampAt(lead, b) - TimestampAt(lead, a)
           == b.entry.item.received - a.entry.item.received - (Mono(b) - Mono(a))
              + (Ms(b.wallAt + lead) - Ms(a.wallAt + lead))
      ensures Ms(b.wallAt + lead) - Ms(a.wallAt + lead) >= Ms(b.wallAt - a.wallAt)
    {
      SentTimes(Config(1, 0, lead), a);
      SentTimes(Config(1, 0, lead), b);
      ReadingsApart(a.wallAt + lead, b.wallAt + lead);
    }
    var lead := WholeLead(a.wallAt, b.wallAt);
    assert TimestampAt(lead, a) <= TimestampAt(lead, b)
      <==> b.entry.item.received - a.entry.item.received >= RequiredGap(a, b);
  }

  lemma SentReadInOrder(c: Config, s: State, i: nat, j: nat)
    requires Reached(c, s) && i < j < |s.sent|
    ensures ReadInOrder(s.sent[i].entry, s.sent[i].monoAt, s.sent[i].wallAt)
    ensures ReadInOrder(s.sent[j].entry, s.sent[j].monoAt, s.sent[j].wallAt)
    ensures s.sent[i].wallAt <= s.sent[j].monoAt
  {
    ReachedInv(c, s);
  }

  /**
   When exactly two reports are timestamped in the order they are sent, whatever the wall clock's
   lead: when their receive stamps are as far apart as the readings of the monotonic clock, less the
   whole milliseconds between the reads of the wall clock.
   */
  lemma TimestampsInOrderExactly(c: Config, s: State, i: nat, j: nat)
    requires Reached(c, s) && i < j < |s.sent|
    ensures s.sent[i].wallAt <= s.sent[j].wallAt
    ensures (forall lead: nat :: TimestampAt(lead, s.sent[i]) <= TimestampAt(lead, s.sent[j]))
       <==> s.sent[j].entry.item.received - s.sent[i].entry.item.received >= RequiredGap(s.sent[i], s.sent[j])
  {
    SentReadInOrder(c, s, i, j);
    hide Reached, RequiredGap, TimestampAt;
    InOrderWithAnyLead(s.sent[i], s.sent[j]);
  }

  /** The gap that is needed: none or one millisecond for simultaneous reads, and otherwise no more than the delay. */
  lemma GapBounds(a: Sent, b: Sent)
    requires a.monoAt <= a.wallAt <= b.monoAt <= b.wallAt
    ensures RequiredGap(a, b) * NS_PER_MS < Delay(a) + 2 * NS_PER_MS
    ensures Delay(a) == 0 && Delay(b) == 0 ==> 0 <= RequiredGap(a, b) <= 1
  {
    ReadingsApart(a.monoAt, b.monoAt);
  }

  /**
   The reports of one aircraft are sent in receive order, and their timestamps step back by less than
   the earlier report's clock reads were apart and two milliseconds more. When both reports' clocks
   were read at one instant each, a later receive stamp never gets an earlier timestamp, and an equal
   one gets one that is earlier by a millisecond at most.
   */
  lemma TimestampsInOrder(c: Config, s: State, i: nat, j: nat)
    requires Reached(c, s) && i < j < |s.sent|
    requires s.sent[i].entry.address == s.sent[j].entry.address
    ensures var a, b := s.sent[i], s.sent[j];
            && a.entry.item.received <= b.entry.item.received
            && Timestamp(c, b) * NS_PER_MS > Timestamp(c, a) * NS_PER_MS - Delay(a) - 2 * NS_PER_MS
            && (Delay(a) == 0 && Delay(b) == 0 ==>
                  && Timestamp(c, a) <= Timestamp(c, b) + 1
                  && (a.entry.item.received < b.entry.item.received ==> Timestamp(c, a) <= Timestamp(c, b)))
  {
    SentInOrder(c, s, i, j);
    SentReadInOrder(c, s, i, j);
    var a, b := s.sent[i], s.sent[j];
    TimestampIsReceiveTime(c, s, i);
    TimestampIsReceiveTime(c, s, j);
    hide Timestamp, Ms, Reached;
    ReadingsApart(a.wallAt + c.offset, b.wallAt + c.offset);
    GapBounds(a, b);
  }

  // ---------------------------------------------------------------- two runs that reverse timestamps

  /** A first report, received at 0 and popped. */
  lemma FirstPopped(c: Config, p: Records.PositionReport) returns (states: seq<State>, acts: seq<Action>)
    requires c.capacity >= 1
    ensures IsRun(c, states, acts) && states[0] == Init
    ensures var e := Entry(7, Report(0, p, 0));
            states[|acts|] == Init.(receiver := Listening, worker := WorkerPc.Popped(e), pushed := [e])
  {
    states, acts := [Init], [];
    states, acts := OneMoreStep(c, states, acts, ReceiverStarts);
    states, acts := OneMoreStep(c, states, acts, Action.Push(7, p, 0));
    states, acts := OneMoreStep(c, states, acts, PushNotifies);
    states, acts := OneMoreStep(c, states, acts, Check);
  }

  /** The first report, sent: its clocks read at these instants. */
  lemma FirstSent(c: Config, p: Records.PositionReport, monoAt: nat, wallAt: nat)
    returns (states: seq<State>, acts: seq<Action>)
    requires c.capacity >= 1 && monoAt <= wallAt && Ms(wallAt) + c.timeout < UINT64_MAX
    ensures IsRun(c, states, acts) && states[0] == Init
    ensures var e := Entry(7, Report(0, p, 0));
            states[|acts|] == Init.(clock := wallAt, receiver := Listening, worker := Judging(None, None),
                                    pushed := [e], sent := [Sent(e, monoAt, wallAt)])
  {
    states, acts := FirstPopped(c, p);
    states, acts := OneMoreStep(c, states, acts, Tick(monoAt));
    states, acts := OneMoreStep(c, states, acts, ReadMono);
    states, acts := OneMoreStep(c, states, acts, Tick(wallAt));
    states, acts := OneMoreStep(c, states, acts, ReadWall);
    states, acts := OneMoreStep(c, states, acts, SendReturns);
  }

  /** A second report of the same aircraft, queued while the worker finishes with the first. */
  lemma SecondPush(c: Config, p: Records.PositionReport, monoAt: nat, wallAt: nat, received: nat)
    returns (states: seq<State>, acts: seq<Action>)
    requires c.capacity >= 1 && monoAt <= wallAt && Ms(wallAt) + c.timeout < UINT64_MAX && received <= Ms(wallAt)
    ensures IsRun(c, states, acts) && states[0] == Init
    ensures var e, f := Entry(7, Report(0, p, 0)), Entry(7, Report(1, p, received));
            states[|acts|] == Init.(clock := wallAt, receiver := Listening, worker := Checking, queue := [f],
                                    pushed := [e, f], sent := [Sent(e, monoAt, wallAt)])
  {
    states, acts := FirstSent(c, p, monoAt, wallAt);
    states, acts := OneMoreStep(c, states, acts, Action.Push(7, p, received));
    states, acts := OneMoreStep(c, states, acts, PushNotifies);
    states, acts := OneMoreStep(c, states, acts, ReadNow);
    states, acts := OneMoreStep(c, states, acts, ReadLimit);
    states, acts := OneMoreStep(c, states, acts, Judge);
  }

  /** The second report, sent: its clocks both read at one later instant. */
  lemma SecondSent(c: Config, p: Records.PositionReport, monoAt: nat, wallAt: nat, received: nat, readAt: nat)
    returns (states: seq<State>, acts: seq<Action>)
    requires c.capacity >= 1 && monoAt <= wallAt <= readAt && received <= Ms(wallAt)
    requires Ms(wallAt) + c.timeout < UINT64_MAX && Ms(readAt) + c.timeout < UINT64_MAX
    ensures IsRun(c, states, acts) && states[0] == Init
    ensures states[|acts|].sent == [Sent(Entry(7, Report(0, p, 0)), monoAt, wallAt),
                                    Sent(Entry(7, Report(1, p, received)), readAt, readAt)]
  {
    states, acts := SecondPush(c, p, monoAt, wallAt, received);
    states, acts := OneMoreStep(c, states, acts, Check);
    states, acts := OneMoreStep(c, states, acts, Tick(readAt));
    states, acts := OneMoreStep(c, states, acts, ReadMono);
    states, acts := OneMoreStep(c, states, acts, ReadWall);
    states, acts := OneMoreStep(c, states, acts, SendReturns);
  }

  /**
   The timestamps can step back. A worker held up for 100 ms between its two clock reads sends a
   report received 50 ms later with a timestamp 50 ms earlier.
   */
  lemma SplitReadsCanReverse(p: Records.PositionReport)
    returns (c: Config, states: seq<State>, acts: seq<Action>)
    ensures c.capacity >= 1 && c.timeout < UINT64_MAX
    ensures IsRun(c, states, acts) && states[0] == Init
    ensures var sent := states[|acts|].sent;
            && |sent| == 2 && sent[0].entry.address == sent[1].entry.address
            && sent[0].entry.item.received < sent[1].entry.item.received && Delay(sent[1]) == 0
            && Timestamp(c, sent[1]) + 50 == Timestamp(c, sent[0])
  {
    c := Config(1, 5000, 0);
    states, acts := SecondSent(c, p, 0, 100 * NS_PER_MS, 50, 100 * NS_PER_MS);
  }

  /**
   And by one millisecond even when each report's clocks are read at one instant: two reports received
   in the same millisecond, the wall clock half a millisecond ahead of a whole number.
   */
  lemma TruncationCanReverse(p: Records.PositionReport)
    returns (c: Config, states: seq<State>, acts: seq<Action>)
    ensures c.capacity >= 1 && c.timeout < UINT64_MAX
    ensures IsRun(c, states, acts) && states[0] == Init
    ensures var sent := states[|acts|].sent;
            && |sent| == 2 && sent[0].entry.address == sent[1].entry.address
            && sent[0].entry.item.received == sent[1].entry.item.received
            && Delay(sent[0]) == 0 && Delay(sent[1]) == 0
            && Timestamp(c, sent[1]) + 1 == Timestamp(c, sent[0])
  {
    c := Config(1, 5000, 500_000);
    states, acts := SecondSent(c, p, 700_000, 700_000, 0, 1000_000);
  }
}
