/**
 The parts put together (src/main.cpp): bytes are framed and parsed, each message is folded into the
 registry and its report queued, stale aircraft are swept, and the worker takes reports off the queue.
 */
module Pipeline {
  import opened Limits
  import opened Wrappers
  import opened Records
  import opened Replay
  import opened QueueHistory
  import opened ReportQueues
  import opened AircraftRegistries
  import opened Framing
  import opened Dump1090s
  import opened Sbs1
  import Fields
  import Units
  import R = Registry

  // ---------------------------------------------------------------- the callback

  /** The queue after a message whose fold returned this report. */
  function AfterReport(q: seq<Entry<PendingReport>>, capacity: nat, report: Option<PositionReport>, msg: AdsbRecord)
    : seq<Entry<PendingReport>>
  {
    match report
    case None => q
    case Some(p) => PushTo(q, capacity, p.icao, PendingReport(p, msg.lastSeen))
  }

  /** handle_adsb_data: fold first, then queue what the fold returned, with the message's own stamp. */
  method HandleAdsbData(registry: AircraftRegistry, queue: ReportQueue, adsb: AdsbData)
    requires registry.Valid() && queue.Valid()
    modifies registry, queue
    ensures registry.Valid() && queue.Valid() && queue.stopped == old(queue.stopped)
    ensures registry.Abstract() == R.Fold(old(registry.Abstract()), registry.capacity, adsb.Value())
    ensures adsb.icao in registry.known
    ensures queue.Contents() == AfterReport(old(queue.Contents()), queue.capacity,
                                       BuildReport(registry.known[adsb.icao], adsb.Value()), adsb.Value())
  {
    var report := registry.Fold(adsb);
    if report.Some? {
      queue.Push(report.value.icao, PendingReport(report.value, adsb.lastSeen));
    }
  }

  // ---------------------------------------------------------------- the whole, as one machine

  datatype Config = Config(aircraft: nat, reports: nat)

  datatype Event =
    | Heard(msg: AdsbRecord)
    | Sweep(now: nat, window: nat)
    | Sends   // the worker takes the next report
    | Clears  // the worker gives up the rest

  datatype State = State(registry: R.State, queue: seq<Entry<PendingReport>>, sent: seq<Entry<PendingReport>>)

  ghost function Step(c: Config, s: State, e: Event): State {
    match e
    case Heard(msg) =>
      var r := R.Fold(s.registry, c.aircraft, msg);
      var queue := if msg.icao !in r.known then s.queue
                   else AfterReport(s.queue, c.reports, BuildReport(r.known[msg.icao], msg), msg);
      State(r, queue, s.sent)
    case Sweep(now, window) => s.(registry := R.EvictStale(s.registry, now, window))
    case Sends => if s.queue == [] then s else s.(queue := s.queue[1..], sent := s.sent + [s.queue[0]])
    case Clears => s.(queue := [])
  }

  ghost function Run(c: Config, events: seq<Event>): State {
    if events == [] then State(R.State(map[], 0), [], [])
    else Step(c, Run(c, events[..|events| - 1]), events[|events| - 1])
  }

  /** What of it concerns the registry. */
  function History(events: seq<Event>): seq<R.Event> {
    if events == [] then []
    else
      History(events[..|events| - 1]) +
      match events[|events| - 1]
      case Heard(msg) => [R.Heard(msg)]
      case Sweep(now, window) => [R.Sweep(now, window)]
      case _ => []
  }

  lemma HistorySnoc(c: Config, history: seq<R.Event>, e: R.Event)
    ensures R.Run(c.aircraft, history + [e]) == R.Step(R.Run(c.aircraft, history), c.aircraft, e)
  {
    assert (history + [e])[..|history|] == history;
  }

  /** The registry of the whole is the registry of its history. */
  lemma {:induction false} RegistryOfHistory(c: Config, events: seq<Event>)
    ensures Run(c, events).registry == R.Run(c.aircraft, History(events))
  {
    if events != [] {
      var front := History(events[..|events| - 1]);
      RegistryOfHistory(c, events[..|events| - 1]);
      match events[|events| - 1]
      case Heard(msg) => HistorySnoc(c, front, R.Heard(msg));
      case Sweep(now, window) => HistorySnoc(c, front, R.Sweep(now, window));
      case _ => assert front + [] == front;
    }
  }

  // ---------------------------------------------------------------- where a report comes from

  /** This entry is the report that the n-th event of the history, a message, gave rise to. */
  ghost predicate ComesFrom(capacity: nat, history: seq<R.Event>, n: nat, e: Entry<PendingReport>)
    requires capacity >= 1
  {
    && n < |history| && history[n].Heard?
    && R.ReportFor(capacity, history[..n], history[n].msg) == Some(e.item.report)
    && e.item.received == history[n].msg.lastSeen && e.address == e.item.report.icao
  }

  ghost predicate HasOrigin(capacity: nat, history: seq<R.Event>, e: Entry<PendingReport>)
    requires capacity >= 1
  {
    exists n: nat :: ComesFrom(capacity, history, n, e)
  }

  ghost predicate AllHaveOrigin(capacity: nat, history: seq<R.Event>, q: seq<Entry<PendingReport>>)
    requires capacity >= 1
  {
    forall i | 0 <= i < |q| :: HasOrigin(capacity, history, q[i])
  }

  lemma OriginStays(capacity: nat, history: seq<R.Event>, more: seq<R.Event>, e: Entry<PendingReport>)
    requires capacity >= 1 && HasOrigin(capacity, history, e)
    ensures HasOrigin(capacity, history + more, e)
  {
    var n: nat :| ComesFrom(capacity, history, n, e);
    assert (history + more)[..n] == history[..n];
    assert ComesFrom(capacity, history + more, n, e);
  }

  lemma OriginsStay(capacity: nat, history: seq<R.Event>, more: seq<R.Event>, q: seq<Entry<PendingReport>>)
    requires capacity >= 1 && AllHaveOrigin(capacity, history, q)
    ensures AllHaveOrigin(capacity, history + more, q)
  {
    forall i | 0 <= i < |q| ensures HasOrigin(capacity, history + more, q[i]) {
      OriginStays(capacity, history, more, q[i]);
    }
  }

  lemma PushKeepsOrigins(capacity: nat, history: seq<R.Event>, q: seq<Entry<PendingReport>>, room: nat,
                         e: Entry<PendingReport>)
    requires capacity >= 1 && AllHaveOrigin(capacity, history, q) && HasOrigin(capacity, history, e)
    ensures AllHaveOrigin(capacity, history, PushTo(q, room, e.address, e.item))
  {
    hide HasOrigin;
  }

  /** The report of a message that was just folded comes from that message. */
  lemma NewOrigin(capacity: nat, history: seq<R.Event>, msg: AdsbRecord, p: PositionReport)
    requires capacity >= 1 && R.ReportFor(capacity, history, msg) == Some(p)
    ensures HasOrigin(capacity, history + [R.Heard(msg)], Entry(p.icao, PendingReport(p, msg.lastSeen)))
  {
    var all := history + [R.Heard(msg)];
    assert all[..|history|] == history;
    assert ComesFrom(capacity, all, |history|, Entry(p.icao, PendingReport(p, msg.lastSeen)));
  }

  lemma QueuedOrigins(capacity: nat, history: seq<R.Event>, q: seq<Entry<PendingReport>>, room: nat, msg: AdsbRecord)
    requires capacity >= 1 && AllHaveOrigin(capacity, history, q)
    ensures AllHaveOrigin(capacity, history + [R.Heard(msg)],
                          AfterReport(q, room, R.ReportFor(capacity, history, msg), msg))
  {
    OriginsStay(capacity, history, [R.Heard(msg)], q);
    var report := R.ReportFor(capacity, history, msg);
    if report.Some? {
      NewOrigin(capacity, history, msg, report.value);
      PushKeepsOrigins(capacity, history + [R.Heard(msg)], q, room,
                       Entry(report.value.icao, PendingReport(report.value, msg.lastSeen)));
    }
  }

  lemma HeardStep(c: Config, s: State, history: seq<R.Event>, msg: AdsbRecord)
    requires c.aircraft >= 1 && s.registry == R.Run(c.aircraft, history)
    ensures Step(c, s, Heard(msg)).queue == AfterReport(s.queue, c.reports, R.ReportFor(c.aircraft, history, msg), msg)
    ensures Step(c, s, Heard(msg)).sent == s.sent
  {
    hide AfterReport, BuildReport;
    R.FoldSize(s.registry, c.aircraft, msg);
  }

  /** Every report queued or sent is the report of some message of the history. */
  lemma {:induction false} EveryReportHasOrigin(c: Config, events: seq<Event>)
    requires c.aircraft >= 1
    ensures AllHaveOrigin(c.aircraft, History(events), Run(c, events).queue)
    ensures AllHaveOrigin(c.aircraft, History(events), Run(c, events).sent)
  {
    hide HasOrigin, AfterReport;
    if events != [] {
      var s, front, e := Run(c, events[..|events| - 1]), History(events[..|events| - 1]), events[|events| - 1];
      EveryReportHasOrigin(c, events[..|events| - 1]);
      match e
      case Heard(msg) =>
        RegistryOfHistory(c, events[..|events| - 1]);
        HeardStep(c, s, front, msg);
        QueuedOrigins(c.aircraft, front, s.queue, c.reports, msg);
        OriginsStay(c.aircraft, front, [R.Heard(msg)], s.sent);
      case Sweep(now, window) =>
        OriginsStay(c.aircraft, front, [R.Sweep(now, window)], s.queue);
        OriginsStay(c.aircraft, front, [R.Sweep(now, window)], s.sent);
      case _ =>
        assert front + [] == front;
    }
  }

  // ---------------------------------------------------------------- ranges

  /** Every value in an accumulated record is one that the wire format has room for. */
  predicate RecordInRange(r: AdsbRecord) {
    && 0.0 <= r.heading.value <= 360.0 && 0.0 <= r.speed.value
    && r.altitude.value <= UINT32_MAX
    && INT16_MIN <= r.vertVel.value <= INT16_MAX
    && (r.callsign.valid ==> && 1 <= |r.callsign.value| <= MAX_CALLSIGN_LENGTH
                             && r.callsign.value[|r.callsign.value| - 1] != ' ')
    && (r.squawk.valid ==> r.squawk.value <= Fields.SQUAWK_MAX && Fields.OctalDigits(r.squawk.value))
  }

  lemma FoldKeepsRange(r: AdsbRecord, msg: AdsbRecord)
    requires RecordInRange(r) && InRange(msg)
    ensures RecordInRange(FoldRecord(r, msg))
  {
  }

  predicate AllInRange(msgs: seq<AdsbRecord>) {
    forall i | 0 <= i < |msgs| :: InRange(msgs[i])
  }

  lemma {:induction false} ReplayInRange(a: nat, msgs: seq<AdsbRecord>)
    requires AllInRange(msgs)
    ensures RecordInRange(ReplayOf(a, msgs))
  {
    if msgs != [] {
      var front, last := msgs[..|msgs| - 1], msgs[|msgs| - 1];
      ReplayInRange(a, front);
      FoldKeepsRange(ReplayOf(a, front), last);
      ReplayExtends(a, front, last);
      assert msgs == front + [last];
    }
  }

  /** What every report that reaches the reporter satisfies. */
  predicate ReportInRange(p: PositionReport) {
    && 1 <= p.icao <= Fields.ICAO_ADDRESS_MAX
    && -90.0 <= p.position.latitude <= 90.0 && -180.0 <= p.position.longitude <= 180.0
    && p.altitude <= UINT32_MAX && p.heading <= 36000
    && p.horVel <= UINT16_MAX && INT16_MIN <= p.verVel <= INT16_MAX
    && (HasBit(p.flags, VALID_CALLSIGN) ==>
          1 <= |p.callsign| <= MAX_CALLSIGN_LENGTH && p.callsign[|p.callsign| - 1] != ' ')
    && (HasBit(p.flags, VALID_SQUAWK) ==> p.squawk <= Fields.SQUAWK_MAX && Fields.OctalDigits(p.squawk))
  }

  lemma BuiltInRange(r: AdsbRecord, msg: AdsbRecord)
    requires RecordInRange(r) && InRange(msg) && r.icao == msg.icao && msg.position.Some?
    ensures ReportInRange(BuildReport(r, msg).value)
  {
    FlagsDecode(r, msg.lastSeen);
    Units.HeadingConversion(r.heading.value, 0.0);
  }

  // ---------------------------------------------------------------- from the bytes to the reports

  /** The messages of a history, in order. */
  function HeardIn(history: seq<R.Event>): seq<AdsbRecord> {
    if history == [] then []
    else
      var e := history[|history| - 1];
      HeardIn(history[..|history| - 1]) + if e.Heard? then [e.msg] else []
  }

  /** As the parser leaves it: in range, and every field stamped with the message's receive time. */
  predicate WellFormed(m: AdsbRecord) {
    InRange(m) && Stamped(m)
  }

  predicate AllWellFormed(msgs: seq<AdsbRecord>) {
    forall i | 0 <= i < |msgs| :: WellFormed(msgs[i])
  }

  ghost predicate HeardUpTo(msgs: seq<AdsbRecord>, stamp: nat) {
    forall i | 0 <= i < |msgs| :: msgs[i].lastSeen <= stamp
  }

  lemma LineIsWellFormed(line: Line)
    ensures AllWellFormed(MessageIn(line)) && |MessageIn(line)| <= 1
    ensures forall i | 0 <= i < |MessageIn(line)| :: MessageIn(line)[i].lastSeen == line.stamp
  {
    MessagesAreInRange(line.text, line.stamp);
  }

  lemma LinesAppended(msgs: seq<AdsbRecord>, more: seq<AdsbRecord>, stamp: nat)
    requires AllWellFormed(msgs) && InOrder(msgs) && HeardUpTo(msgs, stamp)
    requires AllWellFormed(more) && |more| <= 1 && forall i | 0 <= i < |more| :: more[i].lastSeen == stamp
    ensures AllWellFormed(msgs + more) && InOrder(msgs + more) && HeardUpTo(msgs + more, stamp)
  {
    hide WellFormed;
  }

  lemma NothingWellFormed(stamp: nat)
    ensures AllWellFormed(Messages([])) && InOrder(Messages([])) && HeardUpTo(Messages([]), stamp)
  {
  }

  lemma {:induction false} LinesAreWellFormed(lines: seq<Line>, stamp: nat)
    requires StampsInOrder(lines) && forall i | 0 <= i < |lines| :: lines[i].stamp <= stamp
    ensures AllWellFormed(Messages(lines)) && InOrder(Messages(lines)) && HeardUpTo(Messages(lines), stamp)
  {
    if lines == [] {
      NothingWellFormed(stamp);
    } else {
      var front, last := lines[..|lines| - 1], lines[|lines| - 1];
      LinesAreWellFormed(front, last.stamp);
      hide *;
      assert lines == front + [last];
      LineIsWellFormed(last);
      MessagesSnoc(front, last);
      LinesAppended(Messages(front), MessageIn(last), last.stamp);
      LaterBound(Messages(lines), last.stamp, stamp);
    }
  }

  lemma LaterBound(msgs: seq<AdsbRecord>, earlier: nat, later: nat)
    requires HeardUpTo(msgs, earlier) && earlier <= later
    ensures HeardUpTo(msgs, later)
  {
  }

  /** The lines of one connection after another; each starts with nothing retained. */
  function AllLines(connections: seq<seq<Chunk>>): seq<Line> {
    Gather(Lines, connections)
  }

  /** Receive stamps never step back, within a connection or from one to the next. */
  ghost predicate ClockInOrder(connections: seq<seq<Chunk>>, latest: nat) {
    && (forall a, i, j | 0 <= a < |connections| && 0 <= i < j < |connections[a]| ::
          connections[a][i].stamp <= connections[a][j].stamp)
    && (forall a, b, i, j | 0 <= a < b < |connections| && 0 <= i < |connections[a]| && 0 <= j < |connections[b]| ::
          connections[a][i].stamp <= connections[b][j].stamp)
    && (forall a, i | 0 <= a < |connections| && 0 <= i < |connections[a]| :: connections[a][i].stamp <= latest)
  }

  ghost predicate StampedBetween(lines: seq<Line>, first: nat, last: nat) {
    forall i | 0 <= i < |lines| :: first <= lines[i].stamp <= last
  }

  lemma LinesThen(earlier: seq<Line>, later: seq<Line>, mid: nat, latest: nat)
    requires StampsInOrder(earlier) && StampsInOrder(later) && mid <= latest
    requires StampedBetween(earlier, 0, mid) && StampedBetween(later, mid, latest)
    ensures StampsInOrder(earlier + later) && StampedBetween(earlier + later, 0, latest)
  {
  }

  lemma ConnectionInOrder(chunks: seq<Chunk>, latest: nat)
    requires chunks != [] && ClockInOrder([chunks], latest)
    ensures StampsInOrder(Lines(chunks)) && StampedBetween(Lines(chunks), chunks[0].stamp, latest)
  {
    hide Lines;
    assert [chunks][0] == chunks;
    StampsStayInOrder(chunks, latest);
    StampsNotBefore(chunks, chunks[0].stamp);
  }

  lemma ClockOfFront(front: seq<seq<Chunk>>, last: seq<Chunk>, latest: nat)
    requires ClockInOrder(front + [last], latest)
    ensures if last == [] then ClockInOrder(front, latest)
            else ClockInOrder(front, last[0].stamp) && last[0].stamp <= latest
  {
    var all := front + [last];
    assert all[|front|] == last;
    assert forall a | 0 <= a < |front| :: all[a] == front[a];
  }

  lemma ClockOfLast(front: seq<seq<Chunk>>, last: seq<Chunk>, latest: nat)
    requires ClockInOrder(front + [last], latest)
    ensures ClockInOrder([last], latest)
  {
    assert (front + [last])[|front|] == last;
  }

  lemma AllLinesSnoc(front: seq<seq<Chunk>>, last: seq<Chunk>)
    ensures AllLines(front + [last]) == AllLines(front) + Lines(last)
    ensures last == [] ==> AllLines(front + [last]) == AllLines(front)
  {
    hide Lines;
    GatherSnoc(Lines, front, last);
    NoLines();
  }

  lemma {:induction false} ConnectionsInOrder(connections: seq<seq<Chunk>>, latest: nat)
    requires ClockInOrder(connections, latest)
    ensures StampsInOrder(AllLines(connections)) && StampedBetween(AllLines(connections), 0, latest)
  {
    if connections == [] {
      NothingInOrder();
    } else {
      hide *;
      var front, last := connections[..|connections| - 1], connections[|connections| - 1];
      assert connections == front + [last];
      ClockOfFront(front, last, latest);
      ClockOfLast(front, last, latest);
      AllLinesSnoc(front, last);
      if last == [] {
        ConnectionsInOrder(front, latest);
      } else {
        ConnectionsInOrder(front, last[0].stamp);
        ConnectionInOrder(last, latest);
        LinesThen(AllLines(front), Lines(last), last[0].stamp, latest);
      }
    }
  }

  lemma NothingInOrder()
    ensures StampsInOrder([])
  {
  }

  ghost predicate EventsWellFormed(history: seq<R.Event>) {
    forall i | 0 <= i < |history| && history[i].Heard? :: WellFormed(history[i].msg)
  }

  ghost predicate EventsUpTo(history: seq<R.Event>, stamp: nat) {
    forall i | 0 <= i < |history| && history[i].Heard? :: history[i].msg.lastSeen <= stamp
  }

  lemma EarlierMessages(msgs: seq<AdsbRecord>, last: AdsbRecord, stamp: nat)
    requires AllWellFormed(msgs + [last]) && InOrder(msgs + [last]) && HeardUpTo(msgs + [last], stamp)
    ensures AllWellFormed(msgs) && InOrder(msgs) && HeardUpTo(msgs, last.lastSeen)
    ensures WellFormed(last) && last.lastSeen <= stamp
  {
    hide WellFormed;
    var all := msgs + [last];
    assert all[|msgs|] == last;
    assert forall i | 0 <= i < |msgs| :: all[i] == msgs[i];
  }

  lemma LaterEvent(front: seq<R.Event>, e: R.Event, stamp: nat)
    requires EventsWellFormed(front) && R.InStampOrder(front)
    requires EventsUpTo(front, if e.Heard? then e.msg.lastSeen else stamp)
    requires e.Heard? ==> WellFormed(e.msg) && e.msg.lastSeen <= stamp
    ensures EventsWellFormed(front + [e]) && R.InStampOrder(front + [e]) && EventsUpTo(front + [e], stamp)
  {
    hide WellFormed;
  }

  lemma {:induction false} EventsOfMessages(history: seq<R.Event>, stamp: nat)
    requires AllWellFormed(HeardIn(history)) && InOrder(HeardIn(history)) && HeardUpTo(HeardIn(history), stamp)
    ensures EventsWellFormed(history) && R.InStampOrder(history) && EventsUpTo(history, stamp)
  {
    hide AllWellFormed, InOrder, HeardUpTo, WellFormed;
    if history != [] {
      var front, e := history[..|history| - 1], history[|history| - 1];
      assert history == front + [e];
      if e.Heard? {
        EarlierMessages(HeardIn(front), e.msg, stamp);
        EventsOfMessages(front, e.msg.lastSeen);
      } else {
        assert HeardIn(front) + [] == HeardIn(front);
        EventsOfMessages(front, stamp);
      }
      LaterEvent(front, e, stamp);
    }
  }

  lemma {:induction false} TrackIsWellFormed(a: nat, events: seq<R.Event>)
    requires EventsWellFormed(events)
    ensures AllInRange(R.MessagesOf(a, events))
    ensures forall i | 0 <= i < |R.MessagesOf(a, events)| :: R.MessagesOf(a, events)[i].icao == a
  {
    hide InRange, Stamped;
    if events != [] {
      TrackIsWellFormed(a, events[..|events| - 1]);
    }
  }

  lemma ReportForInRange(capacity: nat, events: seq<R.Event>, msg: AdsbRecord)
    requires capacity >= 1 && msg.position.Some? && EventsWellFormed(events + [R.Heard(msg)])
    ensures ReportInRange(R.ReportFor(capacity, events, msg).value)
  {
    hide InRange, RecordInRange, ReportInRange, R.ReportFor, BuildReport, ReplayOf, R.Run;
    var all := events + [R.Heard(msg)];
    assert all[|events|] == R.Heard(msg);
    R.FoldIsLastStep(capacity, events, msg);
    R.ReportIsOfReplay(capacity, events, msg);
    TrackIsWellFormed(msg.icao, all[R.AdmittedAt(capacity, all, msg.icao)..]);
    ReplayInRange(msg.icao, R.TrackMessages(capacity, events, msg));
    ReplayAddress(msg.icao, R.TrackMessages(capacity, events, msg));
    BuiltInRange(ReplayOf(msg.icao, R.TrackMessages(capacity, events, msg)), msg);
  }

  lemma ReplayAddress(a: nat, msgs: seq<AdsbRecord>)
    ensures ReplayOf(a, msgs).icao == a
  {
  }

  /** What a report owes to the stream: the message it comes from, its aircraft's track, and its flags. */
  ghost predicate Faithful(capacity: nat, history: seq<R.Event>, n: nat, e: Entry<PendingReport>)
    requires capacity >= 1
  {
    && ComesFrom(capacity, history, n, e)
    && var msg := history[n].msg;
       && msg.position == Some(e.item.report.position) && msg.icao == e.address
       && Some(e.item.report) == BuildReport(ReplayOf(msg.icao, R.TrackMessages(capacity, history[..n], msg)), msg)
       && ReportTells(e.item.report, R.TrackMessages(capacity, history[..n], msg))
       && FlagsSayRecent(e.item.report.flags, R.TrackMessages(capacity, history[..n], msg), msg.lastSeen)
  }

  lemma ReportIsFaithful(capacity: nat, history: seq<R.Event>, n: nat, e: Entry<PendingReport>)
    requires capacity >= 1 && ComesFrom(capacity, history, n, e)
    requires EventsWellFormed(history) && R.InStampOrder(history)
    ensures Faithful(capacity, history, n, e) && ReportInRange(e.item.report)
  {
    hide R.TrackMessages, FlagsSayRecent, ReportTells, ReportInRange, ReplayOf, InRange;
    var before, msg := history[..n], history[n].msg;
    assert before + [R.Heard(msg)] == history[..n + 1];
    R.ReportIsOfReplay(capacity, before, msg);
    R.ReportTellsTrack(capacity, before, msg);
    R.FlagsMeanFreshness(capacity, before, msg);
    ReportForInRange(capacity, before, msg);
    ReplayAddress(msg.icao, R.TrackMessages(capacity, before, msg));
  }

  /**
   End to end. Bytes arrive over any connections, in chunks stamped by a monotonic clock; the messages
   they hold are folded in order, with sweeps, sends and clears at any time between. Then each report
   that is sent is that of one of those messages: its position is the message's own, everything else in
   it is the replay of that aircraft's messages since its admission, its flags say which of them are
   recent, and all its values are in range.
   */
  lemma EverySentReport(c: Config, events: seq<Event>, connections: seq<seq<Chunk>>, latest: nat, k: nat)
    requires c.aircraft >= 1 && k < |Run(c, events).sent|
    requires ClockInOrder(connections, latest) && HeardIn(History(events)) == Messages(AllLines(connections))
    ensures ReportInRange(Run(c, events).sent[k].item.report)
    ensures exists n: nat :: Faithful(c.aircraft, History(events), n, Run(c, events).sent[k])
  {
    hide Faithful, ReportInRange, ComesFrom, Messages, AllLines;
    ConnectionsInOrder(connections, latest);
    LinesAreWellFormed(AllLines(connections), latest);
    EventsOfMessages(History(events), latest);
    EveryReportHasOrigin(c, events);
    var e := Run(c, events).sent[k];
    assert HasOrigin(c.aircraft, History(events), e);
    var n: nat :| ComesFrom(c.aircraft, History(events), n, e);
    ReportIsFaithful(c.aircraft, History(events), n, e);
  }

  // ---------------------------------------------------------------- registry and queue limits

  lemma OneMoreReport(c: Config, events: seq<Event>, msg: AdsbRecord)
    requires c.aircraft >= 1 && msg.position.Some? && Position(Run(c, events).queue, msg.icao) == |Run(c, events).queue|
    requires |Run(c, events).queue| < c.reports && R.WellKept(Run(c, events).registry, c.aircraft)
    ensures var s := Run(c, events + [Heard(msg)]);
            && |s.queue| == |Run(c, events).queue| + 1 && R.WellKept(s.registry, c.aircraft)
            && s.queue[..|Run(c, events).queue|] == Run(c, events).queue
            && s.queue[|Run(c, events).queue|].address == msg.icao
  {
    assert (events + [Heard(msg)])[..|events|] == events;
    R.FoldSize(Run(c, events).registry, c.aircraft, msg);
    R.FoldKeeps(Run(c, events).registry, c.aircraft, msg);
  }

  /** The messages of a history, one after the other. */
  function AllHeard(msgs: seq<AdsbRecord>): seq<Event> {
    if msgs == [] then [] else AllHeard(msgs[..|msgs| - 1]) + [Heard(msgs[|msgs| - 1])]
  }

  predicate DistinctFixes(msgs: seq<AdsbRecord>) {
    && (forall i | 0 <= i < |msgs| :: msgs[i].position.Some?)
    && (forall i, j | 0 <= i < j < |msgs| :: msgs[i].icao != msgs[j].icao)
  }

  lemma NotInLine(q: seq<Entry<PendingReport>>, a: nat)
    requires forall i | 0 <= i < |q| :: q[i].address != a
    ensures Position(q, a) == |q|
  {
  }

  /**
   A registry of any capacity fills a queue of any capacity: each new aircraft with a position adds a
   report to the line, whether or not the registry still tracks the earlier ones.
   */
  lemma {:induction false} AnyRegistryFillsQueue(c: Config, msgs: seq<AdsbRecord>)
    requires c.aircraft >= 1 && DistinctFixes(msgs) && |msgs| <= c.reports
    ensures var s := Run(c, AllHeard(msgs));
            && |s.queue| == |msgs| && R.WellKept(s.registry, c.aircraft)
            && forall i | 0 <= i < |msgs| :: s.queue[i].address == msgs[i].icao
  {
    if msgs != [] {
      var front, last := msgs[..|msgs| - 1], msgs[|msgs| - 1];
      AnyRegistryFillsQueue(c, front);
      var s := Run(c, AllHeard(front));
      NotInLine(s.queue, last.icao);
      OneMoreReport(c, AllHeard(front), last);
      var t := Run(c, AllHeard(msgs));
      assert forall i | 0 <= i < |front| :: t.queue[i] == t.queue[..|front|][i];
    }
  }

  // ---------------------------------------------------------------- the registry's limit does not enter

  ghost predicate SameAddresses(q1: seq<Entry<PendingReport>>, q2: seq<Entry<PendingReport>>) {
    |q1| == |q2| && forall i | 0 <= i < |q1| :: q1[i].address == q2[i].address
  }

  lemma {:induction false} SamePosition(q1: seq<Entry<PendingReport>>, q2: seq<Entry<PendingReport>>, a: nat)
    requires SameAddresses(q1, q2)
    ensures Position(q1, a) == Position(q2, a)
  {
    if q1 != [] && q1[0].address != a {
      SamePosition(q1[1..], q2[1..], a);
    }
  }

  lemma SameAfterPush(q1: seq<Entry<PendingReport>>, q2: seq<Entry<PendingReport>>, capacity: nat, a: nat,
                      item1: PendingReport, item2: PendingReport)
    requires SameAddresses(q1, q2)
    ensures SameAddresses(PushTo(q1, capacity, a, item1), PushTo(q2, capacity, a, item2))
  {
    SamePosition(q1, q2, a);
  }

  lemma SameAfterReport(c1: Config, c2: Config, s1: State, s2: State, msg: AdsbRecord)
    requires c1.aircraft >= 1 && c2.aircraft >= 1 && c1.reports == c2.reports && SameAddresses(s1.queue, s2.queue)
    requires R.WellKept(s1.registry, c1.aircraft) && R.WellKept(s2.registry, c2.aircraft)
    ensures SameAddresses(Step(c1, s1, Heard(msg)).queue, Step(c2, s2, Heard(msg)).queue)
  {
    hide PushTo, SameAddresses;
    R.FoldSize(s1.registry, c1.aircraft, msg);
    R.FoldSize(s2.registry, c2.aircraft, msg);
    R.FoldKeeps(s1.registry, c1.aircraft, msg);
    R.FoldKeeps(s2.registry, c2.aircraft, msg);
    if msg.position.Some? {
      var r1 := BuildReport(R.Fold(s1.registry, c1.aircraft, msg).known[msg.icao], msg).value;
      var r2 := BuildReport(R.Fold(s2.registry, c2.aircraft, msg).known[msg.icao], msg).value;
      SameAfterPush(s1.queue, s2.queue, c1.reports, msg.icao,
                    PendingReport(r1, msg.lastSeen), PendingReport(r2, msg.lastSeen));
    }
  }

  lemma RegistryIsBounded(c: Config, events: seq<Event>)
    requires c.aircraft >= 1
    ensures R.WellKept(Run(c, events).registry, c.aircraft)
  {
    RegistryOfHistory(c, events);
    R.Bounded(c.aircraft, History(events));
  }

  /**
   Which aircraft wait in the queue, and in which order, is the same whatever the registry's capacity.
   So no choice of that capacity keeps the queue from filling, or from dropping reports.
   */
  lemma {:induction false} QueueIgnoresRegistryLimit(c1: Config, c2: Config, events: seq<Event>)
    requires c1.aircraft >= 1 && c2.aircraft >= 1 && c1.reports == c2.reports
    ensures SameAddresses(Run(c1, events).queue, Run(c2, events).queue)
  {
    if events != [] {
      var front, e := events[..|events| - 1], events[|events| - 1];
      QueueIgnoresRegistryLimit(c1, c2, front);
      if e.Heard? {
        hide SameAddresses, AfterReport, R.WellKept;
        RegistryIsBounded(c1, front);
        RegistryIsBounded(c2, front);
        SameAfterReport(c1, c2, Run(c1, front), Run(c2, front), e.msg);
      }
    }
  }

  /** What of it concerns the queue. */
  ghost function QueueOps(c: Config, events: seq<Event>): seq<Op<PendingReport>> {
    if events == [] then []
    else
      var front, e := events[..|events| - 1], events[|events| - 1];
      QueueOps(c, front) +
      match e
      case Heard(msg) => PushesFor(Run(c, events).registry, msg)
      case Sweep(_, _) => []
      case Sends => [Op.Pop]
      case Clears => [Op.Clear]
  }

  /** The push that a message just folded gives rise to, if it carried a position. */
  ghost function PushesFor(r: R.State, msg: AdsbRecord): seq<Op<PendingReport>> {
    if msg.icao !in r.known then []
    else
      match BuildReport(r.known[msg.icao], msg)
      case None => []
      case Some(p) => [Op.Push(p.icao, PendingReport(p, msg.lastSeen))]
  }

  lemma RunSnoc(capacity: nat, ops: seq<Op<PendingReport>>, op: Op<PendingReport>)
    ensures RunFrom([], capacity, ops + [op]) == Apply(RunFrom([], capacity, ops), capacity, op)
  {
    assert (ops + [op])[..|ops|] == ops;
  }

  lemma PushesAreApplied(c: Config, s: State, msg: AdsbRecord, ops: seq<Op<PendingReport>>)
    requires s.queue == RunFrom([], c.reports, ops)
    ensures Step(c, s, Heard(msg)).queue
         == RunFrom([], c.reports, ops + PushesFor(Step(c, s, Heard(msg)).registry, msg))
  {
    var pushes := PushesFor(Step(c, s, Heard(msg)).registry, msg);
    if pushes == [] {
      assert ops + pushes == ops;
    } else {
      RunSnoc(c.reports, ops, pushes[0]);
    }
  }

  /** The queue of the whole is the run of its pushes, pops and clears, so all of QueueHistory applies to it. */
  lemma {:induction false} QueueIsRun(c: Config, events: seq<Event>)
    ensures Run(c, events).queue == RunFrom([], c.reports, QueueOps(c, events))
  {
    if events != [] {
      hide PushesFor, BuildReport, R.Fold, R.EvictStale, RunFrom, AfterReport;
      var front, e := events[..|events| - 1], events[|events| - 1];
      QueueIsRun(c, front);
      var ops := QueueOps(c, front);
      match e
      case Heard(msg) => PushesAreApplied(c, Run(c, front), msg, ops);
      case Sweep(_, _) => assert ops + [] == ops;
      case Sends => RunSnoc(c.reports, ops, Op.Pop);
      case Clears => RunSnoc(c.reports, ops, Op.Clear);
    } else {
      NothingRun(c);
    }
  }

  lemma NothingRun(c: Config)
    ensures RunFrom<PendingReport>([], c.reports, []) == []
  {
  }
}
