/**
 The program as a whole, one step at a time: the receive thread folds a message under the registry's
 lock and then pushes its report under the queue's (src/main.cpp, lines 47-64), the main thread sweeps
 and shuts down (lines 66-102 and 209-210), and the worker pops and sends, in any interleaving.
 */
module WholeProgram {
  import opened Limits
  import opened Wrappers
  import opened Records
  import opened Replay
  import opened QueueHistory
  import opened ReportQueues
  import opened Framing
  import opened Dump1090s
  import opened Pipeline
  import opened ReportingWorkers
  import R = Registry
  import T = Timestamps
  import W = Worker

  const STALE_WINDOW_MS := 10 * 60 * 1000

  datatype Config = Config(aircraft: nat, worker: W.Config)

  datatype State = State(
    registry: R.State,
    hand: Option<Entry<PendingReport>>, // folded by the receive thread, and not yet pushed
    w: W.State,                         // queue, worker, main thread and clock
    // the history: what the registry was told, and the stamp of the last message
    history: seq<R.Event>,
    latest: nat)

  const Init := State.State(R.State(map[], 0), None, W.Init, [], 0)

  datatype Action = Folds(msg: AdsbRecord) | Pushes | Sweeps | Works(act: W.Action)

  /** Messages are stamped as they are received; the callback returns before the receive thread can exit. */
  predicate Enabled(c: Config, s: State, act: Action) {
    match act
    case Folds(msg) => s.w.receiver.Listening? && s.hand == None && s.latest <= msg.lastSeen <= W.Ms(s.w.clock)
    case Pushes => s.w.receiver.Listening? && s.hand.Some?
    case Sweeps => s.w.main.Looping?
    case Works(a) => !a.Push? && W.Enabled(c.worker, s.w, a) && (a.ReceiverExits? ==> s.hand == None)
  }

  ghost function Next(c: Config, s: State, act: Action): State
    requires c.aircraft >= 1 && Enabled(c, s, act)
  {
    match act
    case Folds(msg) =>
      s.(registry := R.Fold(s.registry, c.aircraft, msg), hand := Returned(c, s.registry, msg),
         history := s.history + [R.Heard(msg)], latest := msg.lastSeen)
    case Pushes => s.(hand := None, w := W.Pushed(c.worker, s.w, Numbered(s.w, s.hand.value)))
    case Sweeps =>
      var now := W.Ms(s.w.clock);
      s.(registry := R.EvictStale(s.registry, now, STALE_WINDOW_MS),
         history := s.history + [R.Sweep(now, STALE_WINDOW_MS)])
    case Works(a) => s.(w := W.Next(c.worker, s.w, a))
  }

  /** The report that the fold of a message returns, to be pushed under its address. */
  ghost function Returned(c: Config, registry: R.State, msg: AdsbRecord): Option<Entry<PendingReport>>
    requires c.aircraft >= 1
  {
    R.FoldSize(registry, c.aircraft, msg);
    match BuildReport(R.Fold(registry, c.aircraft, msg).known[msg.icao], msg)
    case None => None
    case Some(p) => Some(Entry(p.icao, PendingReport(p, msg.lastSeen)))
  }

  function Numbered(w: W.State, e: Entry<PendingReport>): Entry<W.Report> {
    Entry(e.address, W.Report(|w.pushed|, e.item.report, e.item.received))
  }

  function PushOf(e: Entry<PendingReport>): W.Action {
    W.Action.Push(e.address, e.item.report, e.item.received)
  }

  /** A pushed report, without its number. */
  function Plain(e: Entry<W.Report>): Entry<PendingReport> {
    Entry(e.address, PendingReport(e.item.content, e.item.received))
  }

  ghost predicate IsRun(c: Config, states: seq<State>, acts: seq<Action>) {
    && c.aircraft >= 1 && c.worker.capacity >= 1 && c.worker.timeout < UINT64_MAX
    && |states| == |acts| + 1 && states[0] == Init
    && forall i | 0 <= i < |acts| :: Enabled(c, states[i], acts[i]) && states[i + 1] == Next(c, states[i], acts[i])
  }

  // ---------------------------------------------------------------- invariant

  /** Stamps rise from what was pushed, over what is in hand, to the clock. */
  predicate StampsRise(s: State) {
    && s.latest <= W.Ms(s.w.clock)
    && (s.w.pushed != [] ==> s.w.pushed[|s.w.pushed| - 1].item.received <= s.latest)
    && (s.hand.Some? ==> s.hand.value.item.received == s.latest)
  }

  ghost predicate Origins(c: Config, s: State)
    requires c.aircraft >= 1
  {
    && (s.hand.Some? ==> HasOrigin(c.aircraft, s.history, s.hand.value))
    && forall i | 0 <= i < |s.w.pushed| :: HasOrigin(c.aircraft, s.history, Plain(s.w.pushed[i]))
  }

  ghost predicate Inv(c: Config, s: State)
    requires c.aircraft >= 1
  {
    s.registry == R.Run(c.aircraft, s.history) && StampsRise(s) && W.Reached(c.worker, s.w) && Origins(c, s)
  }

  lemma StampsRiseStep(c: Config, s: State, act: Action)
    requires c.aircraft >= 1 && StampsRise(s) && Enabled(c, s, act)
    ensures StampsRise(Next(c, s, act))
  {
    hide R.Fold, R.EvictStale, BuildReport, W.Ms;
    match act
    case Folds(msg) =>
    case Pushes =>
      assert Next(c, s, act).w.pushed == s.w.pushed + [Numbered(s.w, s.hand.value)];
    case Sweeps =>
    case Works(a) =>
      hide W.Enabled, W.Next;
      W.OnlyPushPushes(c.worker, s.w, a);
  }

  lemma RegistryStep(c: Config, s: State, act: Action)
    requires c.aircraft >= 1 && Enabled(c, s, act) && s.registry == R.Run(c.aircraft, s.history)
    ensures Next(c, s, act).registry == R.Run(c.aircraft, Next(c, s, act).history)
  {
    hide R.Fold, R.EvictStale, BuildReport, W.Enabled, W.Next, W.Ms;
    match act
    case Folds(msg) => RegistrySnoc(c, s.history, R.Heard(msg));
    case Sweeps => RegistrySnoc(c, s.history, R.Sweep(W.Ms(s.w.clock), STALE_WINDOW_MS));
    case _ =>
  }

  lemma RegistrySnoc(c: Config, history: seq<R.Event>, e: R.Event)
    ensures R.Run(c.aircraft, history + [e]) == R.Step(R.Run(c.aircraft, history), c.aircraft, e)
  {
    assert (history + [e])[..|history|] == history;
  }

  /** The push is one that the queue's protocol allows, so every run of the whole is a run of module Worker. */
  lemma WorkerStep(c: Config, s: State, act: Action)
    requires c.aircraft >= 1 && StampsRise(s) && W.Reached(c.worker, s.w) && Enabled(c, s, act)
    ensures W.Reached(c.worker, Next(c, s, act).w)
  {
    hide W.Reached, R.Fold, R.EvictStale, BuildReport, W.Pushed;
    match act
    case Pushes => W.ReachedNext(c.worker, s.w, PushOf(s.hand.value));
    case Works(a) =>
      hide W.Next, W.Enabled;
      W.ReachedNext(c.worker, s.w, a);
    case _ =>
  }

  lemma OriginsOfPushed(capacity: nat, history: seq<R.Event>, more: seq<R.Event>, pushed: seq<Entry<W.Report>>)
    requires capacity >= 1 && forall i | 0 <= i < |pushed| :: HasOrigin(capacity, history, Plain(pushed[i]))
    ensures forall i | 0 <= i < |pushed| :: HasOrigin(capacity, history + more, Plain(pushed[i]))
  {
    hide HasOrigin;
    forall i | 0 <= i < |pushed| ensures HasOrigin(capacity, history + more, Plain(pushed[i])) {
      OriginStays(capacity, history, more, Plain(pushed[i]));
    }
  }

  lemma ReturnedHasOrigin(c: Config, s: State, msg: AdsbRecord)
    requires c.aircraft >= 1 && s.registry == R.Run(c.aircraft, s.history)
    ensures var hand := Returned(c, s.registry, msg);
            hand.Some? ==> HasOrigin(c.aircraft, s.history + [R.Heard(msg)], hand.value)
  {
    hide HasOrigin, BuildReport;
    var report := R.ReportFor(c.aircraft, s.history, msg);
    if report.Some? {
      NewOrigin(c.aircraft, s.history, msg, report.value);
    }
  }

  lemma OriginsStep(c: Config, s: State, act: Action)
    requires c.aircraft >= 1 && s.registry == R.Run(c.aircraft, s.history) && Origins(c, s) && Enabled(c, s, act)
    ensures Origins(c, Next(c, s, act))
  {
    hide HasOrigin, R.Fold, R.EvictStale, R.Run, BuildReport, Returned, W.Ms;
    match act
    case Folds(msg) =>
      ReturnedHasOrigin(c, s, msg);
      OriginsOfPushed(c.aircraft, s.history, [R.Heard(msg)], s.w.pushed);
    case Pushes =>
      var e := Numbered(s.w, s.hand.value);
      assert Plain(e) == s.hand.value && Next(c, s, act).w.pushed == s.w.pushed + [e];
    case Sweeps =>
      var more := [R.Sweep(W.Ms(s.w.clock), STALE_WINDOW_MS)];
      OriginsOfPushed(c.aircraft, s.history, more, s.w.pushed);
      if s.hand.Some? {
        OriginStays(c.aircraft, s.history, more, s.hand.value);
      }
    case Works(a) =>
      hide W.Enabled, W.Next;
      W.OnlyPushPushes(c.worker, s.w, a);
  }

  lemma {:induction false} Reachable(c: Config, states: seq<State>, acts: seq<Action>, n: nat)
    requires IsRun(c, states, acts) && n < |states|
    ensures Inv(c, states[n])
  {
    if n == 0 {
      W.ReachedInit(c.worker);
    } else {
      Reachable(c, states, acts, n - 1);
      StepKeepsInv(c, states[n - 1], acts[n - 1]);
    }
  }

  lemma StepKeepsInv(c: Config, s: State, act: Action)
    requires c.aircraft >= 1 && Inv(c, s) && Enabled(c, s, act)
    ensures Inv(c, Next(c, s, act))
  {
    hide Next, StampsRise, Origins, W.Reached, R.Run, Enabled;
    RegistryStep(c, s, act);
    StampsRiseStep(c, s, act);
    WorkerStep(c, s, act);
    OriginsStep(c, s, act);
  }

  // ---------------------------------------------------------------- from folds to pushes

  function AllPlain(pushed: seq<Entry<W.Report>>): seq<Entry<PendingReport>> {
    if pushed == [] then [] else AllPlain(pushed[..|pushed| - 1]) + [Plain(pushed[|pushed| - 1])]
  }

  function InHand(s: State): seq<Entry<PendingReport>> {
    if s.hand.Some? then [s.hand.value] else []
  }

  /** The report, if any, that an event after this history gives rise to. */
  ghost function ReportOf(capacity: nat, history: seq<R.Event>, e: R.Event): seq<Entry<PendingReport>>
    requires capacity >= 1
  {
    if e.Heard? && R.ReportFor(capacity, history, e.msg).Some? then
      [Entry(e.msg.icao, PendingReport(R.ReportFor(capacity, history, e.msg).value, e.msg.lastSeen))]
    else []
  }

  /** The reports that the messages of a history give rise to, in order. */
  ghost function ReportsOf(capacity: nat, history: seq<R.Event>): seq<Entry<PendingReport>>
    requires capacity >= 1
  {
    if history == [] then []
    else
      var front := history[..|history| - 1];
      ReportsOf(capacity, front) + ReportOf(capacity, front, history[|history| - 1])
  }

  lemma ReportsOfSnoc(capacity: nat, history: seq<R.Event>, e: R.Event)
    requires capacity >= 1
    ensures ReportsOf(capacity, history + [e]) == ReportsOf(capacity, history) + ReportOf(capacity, history, e)
  {
    assert (history + [e])[..|history|] == history;
  }

  lemma AllPlainSnoc(pushed: seq<Entry<W.Report>>, e: Entry<W.Report>)
    ensures AllPlain(pushed + [e]) == AllPlain(pushed) + [Plain(e)]
  {
    assert (pushed + [e])[..|pushed|] == pushed;
  }

  lemma ReturnedIsReport(c: Config, s: State, msg: AdsbRecord)
    requires c.aircraft >= 1 && s.registry == R.Run(c.aircraft, s.history)
    ensures InHand(s.(hand := Returned(c, s.registry, msg))) == ReportOf(c.aircraft, s.history, R.Heard(msg))
  {
    hide R.Fold, R.Run;
    if msg.position.Some? {
      R.ReportTellsTrack(c.aircraft, s.history, msg);
    }
  }

  /** Each report is in hand only between its fold and its push, and the thread does not go before it is pushed. */
  predicate HandIsLive(s: State) {
    s.hand.Some? ==> s.w.receiver.Listening?
  }

  ghost predicate NothingMissed(c: Config, s: State)
    requires c.aircraft >= 1
  {
    HandIsLive(s) && AllPlain(s.w.pushed) + InHand(s) == ReportsOf(c.aircraft, s.history)
  }

  lemma NothingMissedByFold(c: Config, s: State, msg: AdsbRecord)
    requires c.aircraft >= 1 && s.registry == R.Run(c.aircraft, s.history)
    requires NothingMissed(c, s) && Enabled(c, s, Folds(msg))
    ensures NothingMissed(c, Next(c, s, Folds(msg)))
  {
    hide R.Fold, R.Run, BuildReport, Returned, ReportsOf, ReportOf, AllPlain, W.Ms;
    ReturnedIsReport(c, s, msg);
    ReportsOfSnoc(c.aircraft, s.history, R.Heard(msg));
    assert AllPlain(s.w.pushed) + [] == AllPlain(s.w.pushed);
  }

  lemma NothingMissedByPush(c: Config, s: State)
    requires c.aircraft >= 1 && NothingMissed(c, s) && Enabled(c, s, Pushes)
    ensures NothingMissed(c, Next(c, s, Pushes))
  {
    hide R.Fold, R.EvictStale, ReportsOf, AllPlain;
    var e := Numbered(s.w, s.hand.value);
    AllPlainSnoc(s.w.pushed, e);
    assert Plain(e) == s.hand.value && Next(c, s, Pushes).w.pushed == s.w.pushed + [e];
    assert AllPlain(s.w.pushed + [e]) + [] == AllPlain(s.w.pushed + [e]);
  }

  lemma NothingMissedBySweep(c: Config, s: State)
    requires c.aircraft >= 1 && NothingMissed(c, s) && Enabled(c, s, Sweeps)
    ensures NothingMissed(c, Next(c, s, Sweeps))
  {
    hide R.EvictStale, ReportsOf, ReportOf, AllPlain, W.Ms;
    var sweep := R.Sweep(W.Ms(s.w.clock), STALE_WINDOW_MS);
    ReportsOfSnoc(c.aircraft, s.history, sweep);
    NoReport(c, s.history, sweep);
    assert ReportsOf(c.aircraft, s.history) + [] == ReportsOf(c.aircraft, s.history);
  }

  lemma NothingMissedByWork(c: Config, s: State, a: W.Action)
    requires c.aircraft >= 1 && NothingMissed(c, s) && Enabled(c, s, Works(a))
    ensures NothingMissed(c, Next(c, s, Works(a)))
  {
    hide W.Enabled, W.Next, ReportsOf, AllPlain;
    W.OnlyPushPushes(c.worker, s.w, a);
    if s.hand.Some? {
      ListeningStays(c.worker, s.w, a);
    }
  }

  lemma NothingMissedStep(c: Config, s: State, act: Action)
    requires c.aircraft >= 1 && s.registry == R.Run(c.aircraft, s.history)
    requires NothingMissed(c, s) && Enabled(c, s, act)
    ensures NothingMissed(c, Next(c, s, act))
  {
    hide *;
    match act
    case Folds(msg) => NothingMissedByFold(c, s, msg);
    case Pushes => NothingMissedByPush(c, s);
    case Sweeps => NothingMissedBySweep(c, s);
    case Works(a) => NothingMissedByWork(c, s, a);
  }

  lemma NoReport(c: Config, history: seq<R.Event>, e: R.Event)
    requires c.aircraft >= 1 && e.Sweep?
    ensures ReportOf(c.aircraft, history, e) == []
  {
  }

  lemma ListeningStays(c: W.Config, w: W.State, a: W.Action)
    requires W.Enabled(c, w, a) && w.receiver.Listening? && !a.Push? && !a.ReceiverExits?
    ensures W.Next(c, w, a).receiver.Listening?
  {
  }

  /**
   Every message with a position gives rise to exactly one push, in the order the messages were heard:
   what was pushed, and what is still in hand, is the reports of the history and nothing else.
   */
  lemma {:induction false} EveryFixIsPushed(c: Config, states: seq<State>, acts: seq<Action>, n: nat)
    requires IsRun(c, states, acts) && n < |states|
    ensures NothingMissed(c, states[n])
    ensures states[n].hand == None ==> AllPlain(states[n].w.pushed) == ReportsOf(c.aircraft, states[n].history)
  {
    if n > 0 {
      EveryFixIsPushed(c, states, acts, n - 1);
      Reachable(c, states, acts, n - 1);
      StepOfRun(c, states, acts, n - 1);
      hide Enabled, Next, NothingMissed, R.Run, ReportsOf, AllPlain;
      NothingMissedStep(c, states[n - 1], acts[n - 1]);
    }
    EmptyHanded(c, states[n]);
  }

  lemma StepOfRun(c: Config, states: seq<State>, acts: seq<Action>, i: nat)
    requires IsRun(c, states, acts) && i + 1 < |states|
    ensures i < |acts| && Enabled(c, states[i], acts[i]) && states[i + 1] == Next(c, states[i], acts[i])
  {
  }

  lemma EmptyHanded(c: Config, s: State)
    requires c.aircraft >= 1 && NothingMissed(c, s)
    ensures s.hand == None ==> AllPlain(s.w.pushed) == ReportsOf(c.aircraft, s.history)
  {
    assert AllPlain(s.w.pushed) + [] == AllPlain(s.w.pushed);
  }

  /** The main thread's sweeps remove exactly the aircraft that were not heard for ten minutes. */
  lemma SweepsAfterTenMinutes(c: Config, s: State, a: nat)
    requires c.aircraft >= 1 && Inv(c, s) && Enabled(c, s, Sweeps) && a in s.registry.known
    ensures R.LastHeard(s.history, a).Some?
    ensures a in Next(c, s, Sweeps).registry.known <==> R.LastHeard(s.history, a).value > W.Ms(s.w.clock) - 600_000
  {
    R.SweepGoesByAge(c.aircraft, s.history, W.Ms(s.w.clock), STALE_WINDOW_MS, a);
    RegistrySnoc(c, s.history, R.Sweep(W.Ms(s.w.clock), STALE_WINDOW_MS));
  }

  // ---------------------------------------------------------------- what the reporter is handed

  /** The arguments of reportAircraft for one send: the report, and what is derived from the clocks read for it. */
  function Handed(c: Config, r: W.Sent): Outgoing {
    OutgoingOf(Plain(r.entry).item, T.Mono(r), T.Wall(c.worker, r))
  }

  lemma SentHasOrigin(c: Config, s: State, k: nat)
    requires c.aircraft >= 1 && Inv(c, s) && k < |s.w.sent|
    ensures HasOrigin(c.aircraft, s.history, Plain(s.w.sent[k].entry))
  {
    hide HasOrigin, W.Reached;
    W.SentWasPushed(c.worker, s.w, k);
  }

  /** Age and timestamp agree, and the timestamp is that of the receipt to within a millisecond. */
  lemma HandedInTime(c: Config, w: W.State, k: nat)
    requires W.Reached(c.worker, w) && k < |w.sent|
    ensures var r := w.sent[k];
            var out, received, wall := Handed(c, r), r.entry.item.received, T.Wall(c.worker, r);
            && out.report == r.entry.item.content && out.timestamp <= wall
            && (if out.tslc < UINT8_MAX then out.tslc * 1000 <= wall - out.timestamp < (out.tslc + 1) * 1000
                else wall - out.timestamp >= UINT8_MAX * 1000)
            && T.Exact(c.worker, r) - W.NS_PER_MS < out.timestamp * W.NS_PER_MS < T.Exact(c.worker, r) + W.NS_PER_MS
  {
    var r := w.sent[k];
    T.TimestampIsReceiveTime(c.worker, w, k);
    WallIsAhead(c, r);
    TslcMatchesTimestamp(r.entry.item.received, T.Mono(r), T.Wall(c.worker, r));
  }

  lemma WallIsAhead(c: Config, r: W.Sent)
    requires T.Delay(r) >= 0
    ensures T.Mono(r) <= T.Wall(c.worker, r)
  {
  }

  /**
   End to end, in every interleaving of the threads. Bytes arrive over any connections, in chunks
   stamped by a monotonic clock; the messages they hold are folded in order, as far as the receive
   thread has come, with sweeps at any time between. Then whatever the worker hands to the reporter is
   the report of one of those messages: its position is the message's own, everything else in it is
   the replay of that aircraft's messages since its admission, its flags say which of them were recent,
   all its values are in range, its age and timestamp agree, and the timestamp is that of the message's
   receipt to within a millisecond and the time between the worker's clock reads.
   */
  lemma EverySend(c: Config, states: seq<State>, acts: seq<Action>, n: nat,
                  connections: seq<seq<Chunk>>, latest: nat, k: nat)
    requires IsRun(c, states, acts) && n < |states| && k < |states[n].w.sent|
    requires ClockInOrder(connections, latest) && HeardIn(states[n].history) <= Messages(AllLines(connections))
    ensures var s := states[n];
            var r := s.w.sent[k];
            var out := Handed(c, r);
            && out.report == r.entry.item.content && ReportInRange(out.report)
            && (exists m: nat :: Faithful(c.aircraft, s.history, m, Plain(r.entry)))
            && out.timestamp <= T.Wall(c.worker, r)
            && (out.tslc < UINT8_MAX ==>
                  out.tslc * 1000 <= T.Wall(c.worker, r) - out.timestamp < (out.tslc + 1) * 1000)
            && T.Exact(c.worker, r) - W.NS_PER_MS < out.timestamp * W.NS_PER_MS < T.Exact(c.worker, r) + W.NS_PER_MS
  {
    Reachable(c, states, acts, n);
    hide IsRun, Faithful, ReportInRange, ComesFrom, Messages, AllLines, DeriveTslc;
    hide W.Reached, T.Wall, T.Exact, T.Timestamp;
    var s := states[n];
    SentHasOrigin(c, s, k);
    HandedInTime(c, s.w, k);
    HistoryIsFaithful(c, s.history, connections, latest, Plain(s.w.sent[k].entry));
  }

  lemma HistoryIsFaithful(c: Config, history: seq<R.Event>, connections: seq<seq<Chunk>>, latest: nat,
                          e: Entry<PendingReport>)
    requires c.aircraft >= 1 && HasOrigin(c.aircraft, history, e)
    requires ClockInOrder(connections, latest) && HeardIn(history) <= Messages(AllLines(connections))
    ensures ReportInRange(e.item.report) && exists m: nat :: Faithful(c.aircraft, history, m, e)
  {
    hide Faithful, ReportInRange, ComesFrom, Messages, AllLines;
    ConnectionsInOrder(connections, latest);
    LinesAreWellFormed(AllLines(connections), latest);
    FirstMessages(Messages(AllLines(connections)), HeardIn(history), latest);
    EventsOfMessages(history, latest);
    var m: nat :| ComesFrom(c.aircraft, history, m, e);
    ReportIsFaithful(c.aircraft, history, m, e);
  }

  lemma FirstMessages(msgs: seq<AdsbRecord>, first: seq<AdsbRecord>, latest: nat)
    requires first <= msgs && AllWellFormed(msgs) && InOrder(msgs) && HeardUpTo(msgs, latest)
    ensures AllWellFormed(first) && InOrder(first) && HeardUpTo(first, latest)
  {
    hide WellFormed;
    assert forall i | 0 <= i < |first| :: first[i] == msgs[i];
  }

  // ---------------------------------------------------------------- what the program is for

  /** The state after these actions, if each is enabled in turn. */
  ghost predicate Leads(c: Config, s: State, acts: seq<Action>, t: State)
    requires c.aircraft >= 1
    decreases |acts|
  {
    if acts == [] then s == t else Enabled(c, s, acts[0]) && Leads(c, Next(c, s, acts[0]), acts[1..], t)
  }

  lemma FoldedAndPushed(c: Config, s: State, msg: AdsbRecord)
    requires c.aircraft >= 1 && s.registry == R.Run(c.aircraft, s.history)
    requires Enabled(c, s, Folds(msg)) && msg.position.Some? && s.w.queue == []
    ensures var s1 := Next(c, s, Folds(msg));
            Enabled(c, s1, Pushes) &&
            var w := Next(c, s1, Pushes).w;
            && w.queue != [] && w.receiver.Notifying?
            && w.worker == s.w.worker && w.sent == s.w.sent && w.clock == s.w.clock
            && Some(w.queue[0].item.content) == R.ReportFor(c.aircraft, s.history, msg)
            && w.queue[0].item.received == msg.lastSeen && w.queue[0].address == msg.icao
  {
    hide R.Fold, R.Run, BuildReport;
    R.ReportTellsTrack(c.aircraft, s.history, msg);
  }

  lemma PoppedAndSent(c: W.Config, w: W.State)
    requires w.queue != [] && w.receiver.Notifying? && (w.worker.Asleep? || w.worker.Checking?)
    ensures var w1 := W.Next(c, w, W.PushNotifies);
            W.Enabled(c, w1, W.Check) &&
            var w2 := W.Next(c, w1, W.Check);
            W.Enabled(c, w2, W.ReadMono) &&
            var w3 := W.Next(c, w2, W.ReadMono);
            W.Enabled(c, w3, W.ReadWall) &&
            var w4 := W.Next(c, w3, W.ReadWall);
            W.Enabled(c, w4, W.SendReturns) &&
            W.Next(c, w4, W.SendReturns).sent == w.sent + [W.Sent(w.queue[0], w.clock, w.clock)]
  {
  }

  /** The way of one message, from its fold to the reporter. */
  const OneMessagesWay := [Pushes, Works(W.PushNotifies), Works(W.Check), Works(W.ReadMono), Works(W.ReadWall),
                           Works(W.SendReturns)]

  lemma WorksLeads(c: Config, s: State, a: W.Action, acts: seq<Action>, t: State)
    requires c.aircraft >= 1 && !a.Push? && !a.ReceiverExits? && W.Enabled(c.worker, s.w, a)
    requires Leads(c, s.(w := W.Next(c.worker, s.w, a)), acts, t)
    ensures Leads(c, s, [Works(a)] + acts, t)
  {
    hide W.Next, W.Enabled;
    assert ([Works(a)] + acts)[1..] == acts;
  }

  /**
   The program does what it is for: when nothing waits, a message with a position that has just been
   received is folded, queued, popped by the worker, asleep or not, and handed to the reporter at once.
   */
  lemma MessageIsReported(c: Config, s: State, msg: AdsbRecord) returns (t: State)
    requires c.aircraft >= 1 && Inv(c, s) && s.w.queue == [] && (s.w.worker.Asleep? || s.w.worker.Checking?)
    requires s.w.receiver.Listening? && s.hand == None && msg.position.Some?
    requires s.latest <= msg.lastSeen <= W.Ms(s.w.clock)
    ensures Leads(c, s, [Folds(msg)] + OneMessagesWay, t)
    ensures |t.w.sent| == |s.w.sent| + 1 && t.w.sent[..|s.w.sent|] == s.w.sent
    ensures var r := t.w.sent[|s.w.sent|];
            && Some(r.entry.item.content) == R.ReportFor(c.aircraft, s.history, msg)
            && r.entry.item.received == msg.lastSeen && r.monoAt == s.w.clock == r.wallAt
  {
    FoldedAndPushed(c, s, msg);
    var s2 := Next(c, Next(c, s, Folds(msg)), Pushes);
    PoppedAndSent(c.worker, s2.w);
    t := AfterWay(c, s2);
    hide W.Next, W.Enabled, R.Fold, BuildReport, Returned, W.Pushed;
    assert OneMessagesWay[1..] == TheRest();
    assert ([Folds(msg)] + OneMessagesWay)[1..] == OneMessagesWay;
    assert Leads(c, Next(c, s, Folds(msg)), OneMessagesWay, t);
  }

  function TheRest(): seq<Action> {
    [Works(W.PushNotifies), Works(W.Check), Works(W.ReadMono), Works(W.ReadWall), Works(W.SendReturns)]
  }

  lemma AfterWay(c: Config, s: State) returns (t: State)
    requires c.aircraft >= 1 && s.w.queue != [] && s.w.receiver.Notifying?
    requires s.w.worker.Asleep? || s.w.worker.Checking?
    ensures Leads(c, s, TheRest(), t)
    ensures t.w.sent == s.w.sent + [W.Sent(s.w.queue[0], s.w.clock, s.w.clock)]
  {
    PoppedAndSent(c.worker, s.w);
    hide W.Next, W.Enabled, Leads;
    var s1 := s.(w := W.Next(c.worker, s.w, W.PushNotifies));
    var s2 := s1.(w := W.Next(c.worker, s1.w, W.Check));
    var s3 := s2.(w := W.Next(c.worker, s2.w, W.ReadMono));
    var s4 := s3.(w := W.Next(c.worker, s3.w, W.ReadWall));
    t := s4.(w := W.Next(c.worker, s4.w, W.SendReturns));
    var last := [Works(W.SendReturns)] + [];
    var wall := [Works(W.ReadWall)] + last;
    var mono := [Works(W.ReadMono)] + wall;
    var check := [Works(W.Check)] + mono;
    LeadsNowhere(c, t);
    WorksLeads(c, s4, W.SendReturns, [], t);
    WorksLeads(c, s3, W.ReadWall, last, t);
    WorksLeads(c, s2, W.ReadMono, wall, t);
    WorksLeads(c, s1, W.Check, mono, t);
    WorksLeads(c, s, W.PushNotifies, check, t);
    assert [Works(W.PushNotifies)] + check == TheRest();
  }

  lemma LeadsNowhere(c: Config, s: State)
    requires c.aircraft >= 1
    ensures Leads(c, s, [], s)
  {
  }
}
