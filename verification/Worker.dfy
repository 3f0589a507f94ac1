/**
 The threads around the report queue, one step at a time: the receive thread that pushes
 (src/report_queue.cpp, push), the worker that pops and sends (src/reporting_worker.cpp, run), the
 main thread that shuts them down in order (src/main.cpp, lines 209-210), and a monotonic clock.
 Critical sections are single steps; releasing a lock and notifying are separate steps, as are the
 worker's reads of the clock and of the deadline.
 */
module Worker {
  import opened Limits
  import opened Wrappers
  import opened QueueHistory
  import Records

  /** A pending report: its contents and receive stamp, and the number of the push that queued it. */
  datatype Report = Report(id: nat, content: Records.PositionReport, received: nat)

  const NS_PER_MS := 1000_000

  /** A reading in whole milliseconds; each clock is truncated on its own. */
  function Ms(ns: nat): nat {
    ns / NS_PER_MS
  }

  /** A report that reportAircraft has returned from, and the instants at which the clocks were read for it. */
  datatype Sent = Sent(entry: Entry<Report>, monoAt: nat, wallAt: nat)

  datatype ReceiverPc =
    | Listening  // may push
    | Notifying  // pushed and released the lock; notify_one still to come
    | Gone       // not running

  datatype WorkerPc =
    | Checking                                  // to take the lock and test the wait condition
    | Asleep                                    // blocked on the condition variable
    | Popped(e: Entry<Report>)                  // to read the monotonic clock
    | Timed(e: Entry<Report>, monoAt: nat)      // to read the wall clock
    | Sending(e: Entry<Report>, monoAt: nat, wallAt: nat)
    | Judging(now: Option<nat>, limit: Option<nat>) // after a send: to read clock and deadline, in either order
    | Clearing                                  // deadline passed; to clear the queue
    | Exited

  datatype MainPc =
    | Looping
    | Disconnecting   // waiting to join the receive thread
    | Stopping        // stop(): to read the clock
    | Storing(limit: nat)
    | ShuttingDown    // to set `stopped`
    | Waking          // `stopped` set; notify_all still to come
    | Joining         // waiting to join the worker
    | Finished

  /** The timeout is in milliseconds; the wall clock is a number of nanoseconds ahead of the monotonic one. */
  datatype Config = Config(capacity: nat, timeout: nat, offset: nat)

  datatype State = State(
    queue: seq<Entry<Report>>,
    stopped: bool,
    deadline: nat,
    clock: nat, // in nanoseconds
    receiver: ReceiverPc,
    worker: WorkerPc,
    main: MainPc,
    // the history: every push, every send that returned, and the pushes that were never sent
    pushed: seq<Entry<Report>>,
    sent: seq<Sent>,
    superseded: multiset<nat>,
    evicted: multiset<nat>,
    cleared: multiset<nat>)

  const Init := State([], false, UINT64_MAX, 0, Gone, Checking, Looping, [], [], multiset{}, multiset{}, multiset{})

  datatype Action =
    | ReceiverStarts | Push(a: nat, content: Records.PositionReport, received: nat) | PushNotifies | ReceiverExits
    | Check | SpuriousWake | ReadMono | ReadWall | SendReturns | ReadNow | ReadLimit | Judge | ClearQueue
    | MainDisconnects | MainJoinsReceiver | MainReadsClock | MainStores | MainSetsStopped | MainNotifies
    | MainJoinsWorker
    | Tick(time: nat)

  predicate Enabled(c: Config, s: State, act: Action) {
    match act
    case ReceiverStarts => s.receiver.Gone? && s.main.Looping?
    case Push(_, _, received) =>
      && s.receiver.Listening? && received <= Ms(s.clock)
      && (s.pushed != [] ==> s.pushed[|s.pushed| - 1].item.received <= received)
    case PushNotifies => s.receiver.Notifying?
    case ReceiverExits => s.receiver.Listening?
    case Check => s.worker.Checking?
    case SpuriousWake => s.worker.Asleep?
    case ReadMono => s.worker.Popped?
    case ReadWall => s.worker.Timed?
    case SendReturns => s.worker.Sending?
    case ReadNow => s.worker.Judging? && s.worker.now == None
    case ReadLimit => s.worker.Judging? && s.worker.limit == None
    case Judge => s.worker.Judging? && s.worker.now.Some? && s.worker.limit.Some?
    case ClearQueue => s.worker.Clearing?
    case MainDisconnects => s.main.Looping?
    case MainJoinsReceiver => s.main.Disconnecting? && s.receiver.Gone?
    case MainReadsClock => s.main.Stopping?
    case MainStores => s.main.Storing?
    case MainSetsStopped => s.main.ShuttingDown?
    case MainNotifies => s.main.Waking?
    case MainJoinsWorker => s.main.Joining? && s.worker.Exited?
    case Tick(time) => s.clock <= time && Ms(time) + c.timeout < UINT64_MAX
  }

  function Woken(w: WorkerPc): WorkerPc {
    if w.Asleep? then Checking else w
  }

  function Next(c: Config, s: State, act: Action): State
    requires Enabled(c, s, act)
  {
    match act
    case ReceiverStarts => s.(receiver := Listening)
    case Push(a, content, received) => Pushed(c, s, Entry(a, Report(|s.pushed|, content, received)))
    case PushNotifies => s.(receiver := Listening, worker := Woken(s.worker))
    case ReceiverExits => s.(receiver := Gone)
    case Check =>
      if s.queue != [] then s.(queue := s.queue[1..], worker := Popped(s.queue[0]))
      else s.(worker := if s.stopped then Exited else Asleep)
    case SpuriousWake => s.(worker := Checking)
    case ReadMono => s.(worker := Timed(s.worker.e, s.clock))
    case ReadWall => s.(worker := Sending(s.worker.e, s.worker.monoAt, s.clock))
    case SendReturns =>
      s.(worker := Judging(None, None), sent := s.sent + [Sent(s.worker.e, s.worker.monoAt, s.worker.wallAt)])
    case ReadNow => s.(worker := s.worker.(now := Some(Ms(s.clock))))
    case ReadLimit => s.(worker := s.worker.(limit := Some(s.deadline)))
    case Judge => s.(worker := if s.worker.now.value >= s.worker.limit.value then Clearing else Checking)
    case ClearQueue => s.(worker := Exited, queue := [], cleared := s.cleared + Ids(s.queue))
    case MainDisconnects => s.(main := Disconnecting)
    case MainJoinsReceiver => s.(main := Stopping)
    case MainReadsClock => s.(main := Storing(Ms(s.clock) + c.timeout))
    case MainStores => s.(main := ShuttingDown, deadline := s.main.limit)
    case MainSetsStopped => s.(main := Waking, stopped := true)
    case MainNotifies => s.(main := Joining, worker := Woken(s.worker))
    case MainJoinsWorker => s.(main := Finished)
    case Tick(time) => s.(clock := time)
  }

  /** The locked part of a push. */
  function Pushed(c: Config, s: State, e: Entry<Report>): State {
    s.(queue := PushTo(s.queue, c.capacity, e.address, e.item),
       receiver := Notifying,
       pushed := s.pushed + [e],
       superseded := s.superseded + SupersededBy(s.queue, e.address),
       evicted := s.evicted + EvictedBy(s.queue, c.capacity, e.address))
  }

  /** The report that a push for this address replaces. */
  function SupersededBy(q: seq<Entry<Report>>, a: nat): multiset<nat> {
    if Queued(q, a) then multiset{q[Position(q, a)].item.id} else multiset{}
  }

  /** The report that a push for this address makes room by dropping. */
  function EvictedBy(q: seq<Entry<Report>>, capacity: nat, a: nat): multiset<nat> {
    if Overflows(q, capacity, a) then multiset{q[0].item.id} else multiset{}
  }

  function Ids(q: seq<Entry<Report>>): multiset<nat> {
    if q == [] then multiset{} else Ids(q[..|q| - 1]) + multiset{q[|q| - 1].item.id}
  }

  /** A run of the whole program. */
  ghost predicate IsRun(c: Config, states: seq<State>, acts: seq<Action>) {
    && |states| == |acts| + 1
    && forall i | 0 <= i < |acts| :: Enabled(c, states[i], acts[i]) && states[i + 1] == Next(c, states[i], acts[i])
  }

  // ---------------------------------------------------------------- control invariant

  /** The main thread has joined the receive thread: ingestion is over for good. */
  predicate IngestionOver(s: State) {
    !s.main.Looping? && !s.main.Disconnecting?
  }

  /** No lost wakeup: asleep with no notification on its way, there is nothing to wake up for. */
  predicate NoLostWakeup(s: State) {
    s.worker.Asleep? && !s.receiver.Notifying? && !s.main.Waking? ==> s.queue == [] && !s.stopped
  }

  predicate DeadlineStored(s: State) {
    s.main.ShuttingDown? || s.main.Waking? || s.main.Joining? || s.main.Finished?
  }

  /** What each phase of the main thread has established. */
  predicate Phases(s: State) {
    && (IngestionOver(s) ==> s.receiver.Gone?)
    && (s.stopped <==> s.main.Waking? || s.main.Joining? || s.main.Finished?)
    && (if DeadlineStored(s) then s.deadline < UINT64_MAX else s.deadline == UINT64_MAX)
    && (s.main.Storing? ==> s.main.limit < UINT64_MAX)
    && Ms(s.clock) < UINT64_MAX
  }

  /** What each phase of the worker depends on. */
  predicate WorkerPhases(s: State) {
    && (s.worker.Judging? ==>
          && (s.worker.now.Some? ==> s.worker.now.value <= Ms(s.clock))
          && (s.worker.limit.Some? ==> s.worker.limit.value == UINT64_MAX || s.worker.limit.value == s.deadline))
    && (s.worker.Clearing? || s.cleared != multiset{} ==> DeadlineStored(s) && Ms(s.clock) >= s.deadline)
    && (s.worker.Exited? ==> DeadlineStored(s) && s.queue == [])
    && (s.main.Finished? ==> s.worker.Exited?)
  }

  /** The clock leaves room for the drain timeout, as Tick keeps it. */
  predicate ClockRoom(c: Config, s: State) {
    Ms(s.clock) + c.timeout < UINT64_MAX
  }

  lemma WakeupStep(c: Config, s: State, act: Action)
    requires NoLostWakeup(s) && Enabled(c, s, act)
    ensures NoLostWakeup(Next(c, s, act))
  {
  }

  lemma PhasesStep(c: Config, s: State, act: Action)
    requires Phases(s) && ClockRoom(c, s) && Enabled(c, s, act)
    ensures Phases(Next(c, s, act)) && ClockRoom(c, Next(c, s, act))
  {
  }

  lemma WorkerPhasesStep(c: Config, s: State, act: Action)
    requires Phases(s) && WorkerPhases(s) && Enabled(c, s, act)
    ensures WorkerPhases(Next(c, s, act))
  {
  }

  // ---------------------------------------------------------------- the journey of reports

  function InFlight(w: WorkerPc): seq<Entry<Report>> {
    if w.Popped? || w.Timed? || w.Sending? then [w.e] else []
  }

  function SentEntries(sent: seq<Sent>): (entries: seq<Entry<Report>>)
    ensures |entries| == |sent| && forall i | 0 <= i < |sent| :: entries[i] == sent[i].entry
  {
    if sent == [] then [] else SentEntries(sent[..|sent| - 1]) + [sent[|sent| - 1].entry]
  }

  /** Everything sent, then the report in flight, then the queue. */
  function Timeline(s: State): seq<Entry<Report>> {
    SentEntries(s.sent) + InFlight(s.worker) + s.queue
  }

  /** Along the timeline, the reports of one aircraft stand in the order they were pushed. */
  predicate InPushOrder(line: seq<Entry<Report>>) {
    forall i, j | 0 <= i < j < |line| && line[i].address == line[j].address :: line[i].item.id < line[j].item.id
  }

  predicate ReceivedInOrder(pushed: seq<Entry<Report>>) {
    forall i, j | 0 <= i < j < |pushed| :: pushed[i].item.received <= pushed[j].item.received
  }

  predicate FromPushes(line: seq<Entry<Report>>, pushed: seq<Entry<Report>>) {
    forall i | 0 <= i < |line| :: line[i].item.id < |pushed| && line[i] == pushed[line[i].item.id]
  }

  predicate QueueShape(c: Config, s: State) {
    c.capacity >= 1 && Distinct(s.queue) && |s.queue| <= c.capacity
  }

  predicate PushesNumbered(s: State) {
    && (forall i | 0 <= i < |s.pushed| :: s.pushed[i].item.id == i && s.pushed[i].item.received <= Ms(s.clock))
    && ReceivedInOrder(s.pushed)
  }

  predicate Journey(s: State) {
    FromPushes(Timeline(s), s.pushed) && InPushOrder(Timeline(s))
  }

  lemma PrefixKeepsOrder(line: seq<Entry<Report>>, n: nat, pushed: seq<Entry<Report>>)
    requires n <= |line| && InPushOrder(line) && FromPushes(line, pushed)
    ensures InPushOrder(line[..n]) && FromPushes(line[..n], pushed)
  {
  }

  lemma DropKeepsOrder(line: seq<Entry<Report>>, n: nat, pushed: seq<Entry<Report>>)
    requires n < |line| && InPushOrder(line) && FromPushes(line, pushed)
    ensures InPushOrder(line[..n] + line[n + 1..]) && FromPushes(line[..n] + line[n + 1..], pushed)
  {
    var r := line[..n] + line[n + 1..];
    assert forall i | 0 <= i < |r| :: r[i] == line[if i < n then i else i + 1];
  }

  lemma AppendKeepsOrder(line: seq<Entry<Report>>, pushed: seq<Entry<Report>>, e: Entry<Report>)
    requires InPushOrder(line) && FromPushes(line, pushed) && e.item.id == |pushed|
    ensures InPushOrder(line + [e]) && FromPushes(line + [e], pushed + [e])
  {
  }

  lemma UpdateKeepsOrder(line: seq<Entry<Report>>, k: nat, pushed: seq<Entry<Report>>, e: Entry<Report>)
    requires InPushOrder(line) && FromPushes(line, pushed) && e.item.id == |pushed|
    requires k < |line| && line[k].address == e.address
    requires forall j | k < j < |line| :: line[j].address != e.address
    ensures InPushOrder(line[k := e]) && FromPushes(line[k := e], pushed + [e])
  {
  }

  lemma CoalesceKeepsOrder(past: seq<Entry<Report>>, q: seq<Entry<Report>>, pushed: seq<Entry<Report>>,
                           e: Entry<Report>)
    requires Distinct(q) && InPushOrder(past + q) && FromPushes(past + q, pushed) && e.item.id == |pushed|
    requires Queued(q, e.address)
    ensures var r := q[Position(q, e.address) := e];
            InPushOrder(past + r) && FromPushes(past + r, pushed + [e])
  {
    hide InPushOrder, FromPushes;
    var k, n := Position(q, e.address), |past|;
    assert past + q[k := e] == (past + q)[n + k := e];
    forall j | n + k < j < |past + q| ensures (past + q)[j].address != e.address {
      assert (past + q)[j] == q[j - n];
    }
    UpdateKeepsOrder(past + q, n + k, pushed, e);
  }

  lemma EvictKeepsOrder(past: seq<Entry<Report>>, q: seq<Entry<Report>>, pushed: seq<Entry<Report>>, e: Entry<Report>)
    requires InPushOrder(past + q) && FromPushes(past + q, pushed) && e.item.id == |pushed| && q != []
    ensures InPushOrder(past + (q[1..] + [e])) && FromPushes(past + (q[1..] + [e]), pushed + [e])
  {
    hide InPushOrder, FromPushes;
    DropKeepsOrder(past + q, |past|, pushed);
    assert (past + q)[..|past|] + (past + q)[|past| + 1..] == past + q[1..];
    JoinKeepsOrder(past, q[1..], pushed, e);
  }

  lemma JoinKeepsOrder(past: seq<Entry<Report>>, q: seq<Entry<Report>>, pushed: seq<Entry<Report>>, e: Entry<Report>)
    requires InPushOrder(past + q) && FromPushes(past + q, pushed) && e.item.id == |pushed|
    ensures InPushOrder(past + (q + [e])) && FromPushes(past + (q + [e]), pushed + [e])
  {
    hide InPushOrder, FromPushes;
    AppendKeepsOrder(past + q, pushed, e);
    assert past + (q + [e]) == past + q + [e];
  }

  /** A push keeps the order: it replaces its own entry by a newer one, or joins the end, the head making room. */
  lemma PushKeepsOrder(past: seq<Entry<Report>>, q: seq<Entry<Report>>, pushed: seq<Entry<Report>>, capacity: nat,
                       e: Entry<Report>)
    requires Distinct(q) && InPushOrder(past + q) && FromPushes(past + q, pushed) && e.item.id == |pushed|
    ensures InPushOrder(past + PushTo(q, capacity, e.address, e.item))
    ensures FromPushes(past + PushTo(q, capacity, e.address, e.item), pushed + [e])
  {
    hide InPushOrder, FromPushes, Distinct, Position;
    if Queued(q, e.address) {
      CoalesceKeepsOrder(past, q, pushed, e);
    } else if Overflows(q, capacity, e.address) {
      EvictKeepsOrder(past, q, pushed, e);
    } else {
      JoinKeepsOrder(past, q, pushed, e);
    }
  }

  lemma HeadMoves(past: seq<Entry<Report>>, q: seq<Entry<Report>>)
    requires q != []
    ensures past + [q[0]] + q[1..] == past + [] + q
  {
  }

  lemma SentEntriesSnoc(sent: seq<Sent>, r: Sent)
    ensures SentEntries(sent + [r]) == SentEntries(sent) + [r.entry]
  {
    assert (sent + [r])[..|sent|] == sent;
  }

  lemma SendMoves(past: seq<Entry<Report>>, e: Entry<Report>, q: seq<Entry<Report>>)
    ensures (past + [e]) + [] + q == past + [e] + q
  {
  }

  /** Popping and sending move a report along the timeline without reordering it. */
  lemma TimelineKept(c: Config, s: State, act: Action)
    requires Enabled(c, s, act) && !act.Push? && !act.ClearQueue?
    ensures Timeline(Next(c, s, act)) == Timeline(s)
  {
    if act.Check? {
      if s.queue != [] {
        HeadMoves(SentEntries(s.sent), s.queue);
      }
    } else if act.SendReturns? {
      SentEntriesSnoc(s.sent, Sent(s.worker.e, s.worker.monoAt, s.worker.wallAt));
      SendMoves(SentEntries(s.sent), s.worker.e, s.queue);
    }
  }

  lemma QueueShapeStep(c: Config, s: State, act: Action)
    requires QueueShape(c, s) && Enabled(c, s, act)
    ensures QueueShape(c, Next(c, s, act))
  {
    if act.Push? {
      ApplyKeepsDistinct(s.queue, c.capacity, QueueHistory.Push(act.a, Report(|s.pushed|, act.content, act.received)));
    }
  }

  lemma PushesNumberedStep(c: Config, s: State, act: Action)
    requires PushesNumbered(s) && Enabled(c, s, act)
    ensures PushesNumbered(Next(c, s, act))
  {
    if !act.Push? {
      assert Next(c, s, act).pushed == s.pushed;
    }
  }

  lemma JourneyStep(c: Config, s: State, act: Action)
    requires Distinct(s.queue) && Journey(s) && Enabled(c, s, act)
    ensures Journey(Next(c, s, act))
  {
    var past := SentEntries(s.sent) + InFlight(s.worker);
    if act.Push? {
      PushKeepsOrder(past, s.queue, s.pushed, c.capacity, Entry(act.a, Report(|s.pushed|, act.content, act.received)));
    } else if act.ClearQueue? {
      PrefixKeepsOrder(Timeline(s), |past|, s.pushed);
      assert Timeline(Next(c, s, act)) == Timeline(s)[..|past|];
    } else {
      TimelineKept(c, s, act);
    }
  }

  // ---------------------------------------------------------------- conservation

  function FirstN(n: nat): (m: multiset<nat>)
    ensures |m| == n
    ensures forall i: nat :: m[i] == if i < n then 1 else 0
  {
    if n == 0 then multiset{} else FirstN(n - 1) + multiset{n - 1}
  }

  /** Where every push has gone: sent, in flight or queued, or one of the three ways of never being sent. */
  function Accounted(s: State): multiset<nat> {
    Ids(Timeline(s)) + s.superseded + s.evicted + s.cleared
  }

  /** Each push is in exactly one of these places, once. */
  predicate Conserved(s: State) {
    Accounted(s) == FirstN(|s.pushed|)
  }

  lemma {:induction false} IdsConcat(a: seq<Entry<Report>>, b: seq<Entry<Report>>)
    ensures Ids(a + b) == Ids(a) + Ids(b)
  {
    if b == [] {
      assert a + b == a;
    } else {
      IdsConcat(a, b[..|b| - 1]);
      IdsSnocs(a + b[..|b| - 1], b[..|b| - 1], b[|b| - 1], Ids(a));
      LastSplit(a, b);
    }
  }

  lemma LastSplit(a: seq<Entry<Report>>, b: seq<Entry<Report>>)
    requires b != []
    ensures b[..|b| - 1] + [b[|b| - 1]] == b
    ensures a + b[..|b| - 1] + [b[|b| - 1]] == a + b
  {
  }

  lemma IdsSnocs(line: seq<Entry<Report>>, b: seq<Entry<Report>>, e: Entry<Report>, ids: multiset<nat>)
    requires Ids(line) == ids + Ids(b)
    ensures Ids(line + [e]) == ids + Ids(b + [e])
  {
    IdsSnoc(line, e);
    IdsSnoc(b, e);
  }

  lemma IdsSnoc(q: seq<Entry<Report>>, e: Entry<Report>)
    ensures Ids(q + [e]) == Ids(q) + multiset{e.item.id}
  {
    assert (q + [e])[..|q|] == q;
  }

  lemma IdsOne(e: Entry<Report>)
    ensures Ids([e]) == multiset{e.item.id}
  {
    assert [e][..0] == [];
  }

  /** Taking one report out of a list, and putting another in its place or not. */
  lemma IdsAround(q: seq<Entry<Report>>, k: nat, e: Entry<Report>)
    requires k < |q|
    ensures Ids(q) == Ids(q[..k] + q[k + 1..]) + multiset{q[k].item.id}
    ensures Ids(q[k := e]) == Ids(q[..k] + q[k + 1..]) + multiset{e.item.id}
  {
    hide Ids;
    assert q == q[..k] + [q[k]] + q[k + 1..];
    assert q[k := e] == q[..k] + [e] + q[k + 1..];
    IdsConcat(q[..k] + [q[k]], q[k + 1..]);
    IdsConcat(q[..k] + [e], q[k + 1..]);
    IdsConcat(q[..k], [q[k]]);
    IdsConcat(q[..k], [e]);
    IdsConcat(q[..k], q[k + 1..]);
    IdsOne(q[k]);
    IdsOne(e);
  }

  lemma CoalesceConserves(q: seq<Entry<Report>>, e: Entry<Report>)
    requires Queued(q, e.address)
    ensures var k := Position(q, e.address);
            Ids(q[k := e]) + multiset{q[k].item.id} == Ids(q) + multiset{e.item.id}
  {
    IdsAround(q, Position(q, e.address), e);
  }

  lemma OverflowConserves(q: seq<Entry<Report>>, e: Entry<Report>)
    requires q != []
    ensures Ids(q[1..] + [e]) + multiset{q[0].item.id} == Ids(q) + multiset{e.item.id}
  {
    hide Ids;
    IdsAround(q, 0, e);
    assert q[..0] + q[1..] == q[1..];
    IdsSnoc(q[1..], e);
  }

  /** A push adds its own id, and whichever entry it displaces is superseded or evicted. */
  lemma PushConserves(q: seq<Entry<Report>>, capacity: nat, e: Entry<Report>)
    ensures Ids(PushTo(q, capacity, e.address, e.item)) + SupersededBy(q, e.address) + EvictedBy(q, capacity, e.address)
         == Ids(q) + multiset{e.item.id}
  {
    if Queued(q, e.address) {
      CoalesceConserves(q, e);
    } else if Overflows(q, capacity, e.address) {
      OverflowConserves(q, e);
    } else {
      IdsSnoc(q, e);
    }
  }

  lemma Rearranged(past: multiset<nat>, q: multiset<nat>, q': multiset<nat>, m: multiset<nat>, d: multiset<nat>,
                   n: multiset<nat>, e: multiset<nat>, k: multiset<nat>, id: multiset<nat>)
    requires q' + d + e == q + id
    ensures past + q' + (m + d) + (n + e) + k == past + q + m + n + k + id
  {
    assert past + q' + (m + d) + (n + e) + k == past + (q' + d + e) + m + n + k;
  }

  lemma PushAccounted(c: Config, s: State, e: Entry<Report>)
    ensures Accounted(Pushed(c, s, e)) == Accounted(s) + multiset{e.item.id}
  {
    var t := Pushed(c, s, e);
    var past := SentEntries(s.sent) + InFlight(s.worker);
    IdsConcat(past, s.queue);
    IdsConcat(past, t.queue);
    PushConserves(s.queue, c.capacity, e);
    Rearranged(Ids(past), Ids(s.queue), Ids(t.queue), s.superseded, SupersededBy(s.queue, e.address),
               s.evicted, EvictedBy(s.queue, c.capacity, e.address), s.cleared, multiset{e.item.id});
  }

  lemma ClearAccounted(c: Config, s: State)
    requires s.worker.Clearing?
    ensures Accounted(Next(c, s, ClearQueue)) == Accounted(s)
  {
    var past := SentEntries(s.sent) + InFlight(s.worker);
    IdsConcat(past, s.queue);
    assert Timeline(Next(c, s, ClearQueue)) == past;
    assert Ids(past) + s.superseded + s.evicted + (s.cleared + Ids(s.queue))
        == Ids(past) + Ids(s.queue) + s.superseded + s.evicted + s.cleared;
  }

  lemma ConservedStep(c: Config, s: State, act: Action)
    requires Conserved(s) && Enabled(c, s, act)
    ensures Conserved(Next(c, s, act))
  {
    if act.Push? {
      PushAccounted(c, s, Entry(act.a, Report(|s.pushed|, act.content, act.received)));
    } else if act.ClearQueue? {
      ClearAccounted(c, s);
    } else {
      TimelineKept(c, s, act);
      NotAccounted(c, s, act);
    }
  }

  /** Only a push or a clear touches the records of what was never sent. */
  lemma NotAccounted(c: Config, s: State, act: Action)
    requires Enabled(c, s, act) && !act.Push? && !act.ClearQueue?
    ensures var t := Next(c, s, act);
            t.pushed == s.pushed && t.superseded == s.superseded && t.evicted == s.evicted && t.cleared == s.cleared
  {
  }

  // ---------------------------------------------------------------- clock reads

  /** The monotonic clock is read after the report was received, and the wall clock no earlier than that. */
  predicate ReadInOrder(e: Entry<Report>, monoAt: nat, wallAt: nat) {
    e.item.received <= Ms(monoAt) && monoAt <= wallAt
  }

  predicate ClockReads(s: State) {
    && (s.worker.Timed? ==> ReadInOrder(s.worker.e, s.worker.monoAt, s.clock))
    && (s.worker.Sending? ==> ReadInOrder(s.worker.e, s.worker.monoAt, s.worker.wallAt))
    && (forall i | 0 <= i < |s.sent| :: ReadInOrder(s.sent[i].entry, s.sent[i].monoAt, s.sent[i].wallAt))
  }

  /** When the worker last read a clock for a report, at the latest. */
  function LastRead(s: State): nat {
    if s.worker.Timed? then s.worker.monoAt else if s.worker.Sending? then s.worker.wallAt else s.clock
  }

  /** The worker reads the clocks for one report after the other. */
  predicate ReadsAdvance(s: State) {
    && LastRead(s) <= s.clock
    && (s.worker.Sending? ==> s.worker.monoAt <= s.worker.wallAt)
    && (s.worker.Timed? || s.worker.Sending? ==> forall i | 0 <= i < |s.sent| :: s.sent[i].wallAt <= s.worker.monoAt)
    && (forall i | 0 <= i < |s.sent| :: s.sent[i].wallAt <= s.clock)
    && (forall i, j | 0 <= i < j < |s.sent| :: s.sent[i].wallAt <= s.sent[j].monoAt)
  }

  lemma ReadsAdvanceStep(c: Config, s: State, act: Action)
    requires ReadsAdvance(s) && Enabled(c, s, act)
    ensures ReadsAdvance(Next(c, s, act))
  {
    assert act.SendReturns? || Next(c, s, act).sent == s.sent;
  }

  lemma PoppedWasReceived(s: State)
    requires s.worker.Popped? && PushesNumbered(s) && Journey(s)
    ensures s.worker.e.item.received <= Ms(s.clock)
  {
    var e := Timeline(s)[|s.sent|];
    assert e == s.worker.e && s.pushed[e.item.id] == e;
  }

  lemma ClockReadsStep(c: Config, s: State, act: Action)
    requires ClockReads(s) && PushesNumbered(s) && Journey(s) && Enabled(c, s, act)
    ensures ClockReads(Next(c, s, act))
  {
    if act.ReadMono? {
      PoppedWasReceived(s);
    }
    assert act.SendReturns? || Next(c, s, act).sent == s.sent;
  }

  // ---------------------------------------------------------------- every reachable state

  ghost predicate Inv(c: Config, s: State) {
    && NoLostWakeup(s) && Phases(s) && WorkerPhases(s) && ClockRoom(c, s)
    && QueueShape(c, s) && PushesNumbered(s) && Journey(s) && Conserved(s) && ClockReads(s) && ReadsAdvance(s)
  }

  lemma InvInit(c: Config)
    requires c.capacity >= 1 && c.timeout < UINT64_MAX
    ensures Inv(c, Init)
  {
    assert Timeline(Init) == [];
  }

  lemma InvStep(c: Config, s: State, act: Action)
    requires Inv(c, s) && Enabled(c, s, act)
    ensures Inv(c, Next(c, s, act))
  {
    WakeupStep(c, s, act);
    PhasesStep(c, s, act);
    WorkerPhasesStep(c, s, act);
    QueueShapeStep(c, s, act);
    PushesNumberedStep(c, s, act);
    JourneyStep(c, s, act);
    ConservedStep(c, s, act);
    ClockReadsStep(c, s, act);
    ReadsAdvanceStep(c, s, act);
  }

  /** Every state of every run, in every interleaving, satisfies the invariant. */
  lemma {:induction false} Reachable(c: Config, states: seq<State>, acts: seq<Action>, n: nat)
    requires c.capacity >= 1 && c.timeout < UINT64_MAX
    requires IsRun(c, states, acts) && states[0] == Init && n < |states|
    ensures Inv(c, states[n])
  {
    if n == 0 {
      InvInit(c);
    } else {
      Reachable(c, states, acts, n - 1);
      InvStep(c, states[n - 1], acts[n - 1]);
    }
  }

  /** A state that some interleaving leads to. */
  ghost predicate Reached(c: Config, s: State) {
    c.capacity >= 1 && c.timeout < UINT64_MAX
    && exists states, acts :: IsRun(c, states, acts) && states[0] == Init && states[|acts|] == s
  }

  /** A run, one step longer. */
  lemma OneMoreStep(c: Config, states: seq<State>, acts: seq<Action>, act: Action)
    returns (states': seq<State>, acts': seq<Action>)
    requires IsRun(c, states, acts) && Enabled(c, states[|acts|], act)
    ensures IsRun(c, states', acts') && states'[0] == states[0]
    ensures states'[|acts'|] == Next(c, states[|acts|], act)
  {
    states', acts' := states + [Next(c, states[|acts|], act)], acts + [act];
  }

  lemma ReachedInit(c: Config)
    requires c.capacity >= 1 && c.timeout < UINT64_MAX
    ensures Reached(c, Init)
  {
    var states, acts: seq<Action> := [Init], [];
    assert IsRun(c, states, acts) && states[|acts|] == Init;
  }

  /** A step from a reachable state leads to one. */
  lemma ReachedNext(c: Config, s: State, act: Action)
    requires Reached(c, s) && Enabled(c, s, act)
    ensures Reached(c, Next(c, s, act))
  {
    hide Enabled, Next;
    var states, acts :| IsRun(c, states, acts) && states[0] == Init && states[|acts|] == s;
    var states', acts' := OneMoreStep(c, states, acts, act);
  }

  /** Only a push adds to what was pushed, and the clock only advances. */
  lemma OnlyPushPushes(c: Config, s: State, act: Action)
    requires Enabled(c, s, act)
    ensures !act.Push? ==> Next(c, s, act).pushed == s.pushed
    ensures Ms(s.clock) <= Ms(Next(c, s, act).clock)
  {
  }

  lemma ReachedInv(c: Config, s: State)
    requires Reached(c, s)
    ensures Inv(c, s)
  {
    var states, acts :| IsRun(c, states, acts) && states[0] == Init && states[|acts|] == s;
    Reachable(c, states, acts, |acts|);
  }

  // ---------------------------------------------------------------- what follows

  /**
   Wakeups. A worker asleep with work to do, or after shutdown, always has a notification on its
   way, and delivering it wakes the worker.
   */
  lemma AsleepWithWorkIsWoken(c: Config, s: State)
    requires Reached(c, s) && s.worker.Asleep? && (s.queue != [] || s.stopped)
    ensures || (Enabled(c, s, PushNotifies) && Next(c, s, PushNotifies).worker.Checking?)
            || (Enabled(c, s, MainNotifies) && Next(c, s, MainNotifies).worker.Checking?)
  {
    ReachedInv(c, s);
  }

  /** Over any run, pushes = sent + in flight + queued + superseded + evicted + cleared. */
  lemma PushesConserved(c: Config, s: State)
    requires Reached(c, s)
    ensures |s.pushed| == |s.sent| + |InFlight(s.worker)| + |s.queue| + |s.superseded| + |s.evicted| + |s.cleared|
  {
    ReachedInv(c, s);
    IdsCount(Timeline(s));
    assert |Accounted(s)| == |s.pushed|;
  }

  lemma {:induction false} IdsCount(q: seq<Entry<Report>>)
    ensures |Ids(q)| == |q|
  {
    if q != [] {
      IdsCount(q[..|q| - 1]);
    }
  }

  lemma SameIdTwice(line: seq<Entry<Report>>, i: nat, j: nat)
    requires i < j < |line| && line[i].item.id == line[j].item.id
    ensures Ids(line)[line[i].item.id] >= 2
  {
    IdsAround(line, j, line[j]);
    var rest := line[..j] + line[j + 1..];
    assert rest[i] == line[i];
    IdsAround(rest, i, rest[i]);
  }

  /** What is sent was pushed: the very report, for the very address, with its own receive stamp. */
  lemma SentWasPushed(c: Config, s: State, i: nat)
    requires Reached(c, s) && i < |s.sent|
    ensures var e := s.sent[i].entry; e.item.id < |s.pushed| && s.pushed[e.item.id] == e
  {
    ReachedInv(c, s);
    assert Timeline(s)[i] == s.sent[i].entry;
  }

  /** No push is sent twice. */
  lemma SentOnce(c: Config, s: State, i: nat, j: nat)
    requires Reached(c, s) && i < j < |s.sent|
    ensures s.sent[i].entry.item.id != s.sent[j].entry.item.id
  {
    ReachedInv(c, s);
    var line := Timeline(s);
    assert line[i] == s.sent[i].entry && line[j] == s.sent[j].entry;
    assert Accounted(s)[line[i].item.id] <= 1;
    if line[i].item.id == line[j].item.id {
      SameIdTwice(line, i, j);
    }
  }

  // ---------------------------------------------------------------- bounded drain

  /** The drain deadline is stored and has passed. */
  predicate Expired(s: State) {
    DeadlineStored(s) && Ms(s.clock) >= s.deadline
  }

  /** How many sends the worker can still complete once the deadline has passed. */
  function Budget(s: State): (b: nat)
    ensures b <= 1
  {
    match s.worker
    case Clearing => 0
    case Exited => 0
    case Judging(now, limit) =>
      if (now == None || now.value >= s.deadline) && (limit == None || limit.value == s.deadline) then 0 else 1
    case _ => 1
  }

  lemma ExpiredStep(c: Config, s: State, act: Action)
    requires Phases(s) && WorkerPhases(s) && Expired(s) && Enabled(c, s, act)
    ensures Expired(Next(c, s, act))
    ensures |Next(c, s, act).sent| + Budget(Next(c, s, act)) <= |s.sent| + Budget(s)
  {
  }

  lemma StepOfRun(c: Config, states: seq<State>, acts: seq<Action>, i: nat)
    requires IsRun(c, states, acts) && i + 1 < |states|
    ensures i < |acts| && Enabled(c, states[i], acts[i]) && states[i + 1] == Next(c, states[i], acts[i])
  {
  }

  lemma PhasesReachable(c: Config, states: seq<State>, acts: seq<Action>, n: nat)
    requires c.capacity >= 1 && c.timeout < UINT64_MAX
    requires IsRun(c, states, acts) && states[0] == Init && n < |states|
    ensures Phases(states[n]) && WorkerPhases(states[n])
  {
    Reachable(c, states, acts, n);
  }

  /**
   Bounded drain. From any reachable state in which the deadline is stored and has passed, at most
   one further send returns, in whatever order the worker reads the clock and the deadline.
   */
  lemma {:induction false} AtMostOneMoreSend(c: Config, states: seq<State>, acts: seq<Action>, m: nat, n: nat)
    requires c.capacity >= 1 && c.timeout < UINT64_MAX
    requires IsRun(c, states, acts) && states[0] == Init
    requires m <= n < |states| && Expired(states[m])
    ensures Expired(states[n]) && |states[n].sent| + Budget(states[n]) <= |states[m].sent| + Budget(states[m])
    ensures |states[n].sent| <= |states[m].sent| + 1
  {
    hide *;
    if m < n {
      AtMostOneMoreSend(c, states, acts, m, n - 1);
      PhasesReachable(c, states, acts, n - 1);
      StepOfRun(c, states, acts, n - 1);
      ExpiredStep(c, states[n - 1], acts[n - 1]);
    }
  }

  /** stop() has read the clock, and made of it this deadline. */
  predicate Promises(s: State, deadline: nat) {
    if s.main.Storing? then s.main.limit == deadline else DeadlineStored(s) && s.deadline == deadline
  }

  lemma PromiseStep(c: Config, s: State, act: Action, deadline: nat)
    requires Enabled(c, s, act) && Promises(Next(c, s, act), deadline)
    ensures Promises(s, deadline)
         || (act.MainReadsClock? && IngestionOver(s) && Ms(s.clock) + c.timeout == deadline)
  {
  }

  /** The deadline is a reading of the clock by stop(), and the timeout. */
  lemma {:induction false} DeadlineOfStop(c: Config, states: seq<State>, acts: seq<Action>, n: nat, deadline: nat)
    requires IsRun(c, states, acts) && states[0] == Init && n < |states| && Promises(states[n], deadline)
    ensures exists i | 0 <= i < |acts| && i < n ::
              acts[i].MainReadsClock? && IngestionOver(states[i]) && Ms(states[i].clock) + c.timeout == deadline
  {
    if n > 0 {
      StepOfRun(c, states, acts, n - 1);
      hide *;
      PromiseStep(c, states[n - 1], acts[n - 1], deadline);
      if Promises(states[n - 1], deadline) {
        DeadlineOfStop(c, states, acts, n - 1, deadline);
      }
    }
  }

  /** No report is given up before the whole drain timeout has passed since stop() was called, ingestion being over. */
  lemma DrainGetsItsTime(c: Config, states: seq<State>, acts: seq<Action>, n: nat)
    requires c.capacity >= 1 && c.timeout < UINT64_MAX
    requires IsRun(c, states, acts) && states[0] == Init && n < |states| && states[n].cleared != multiset{}
    ensures exists i | 0 <= i < |acts| && i < n ::
              && acts[i].MainReadsClock? && IngestionOver(states[i])
              && Ms(states[n].clock) >= Ms(states[i].clock) + c.timeout
  {
    PhasesReachable(c, states, acts, n);
    DeadlineOfStop(c, states, acts, n, states[n].deadline);
  }

  // ---------------------------------------------------------------- progress of the shutdown

  function WorkerRank(w: WorkerPc): nat {
    match w
    case Popped(_) => 9
    case Timed(_, _) => 8
    case Sending(_, _, _) => 7
    case Judging(now, limit) => 4 + (if now == None then 1 else 0) + (if limit == None then 1 else 0)
    case Checking => 3
    case Asleep => 2
    case Clearing => 2
    case Exited => 0
  }

  function MainRank(m: MainPc): nat {
    match m
    case Looping => 7
    case Disconnecting => 6
    case Stopping => 5
    case Storing(_) => 4
    case ShuttingDown => 3
    case Waking => 2
    case Joining => 1
    case Finished => 0
  }

  /** What is left to do once ingestion is over: above all, the reports still queued. */
  function Remaining(s: State): nat {
    10 * |s.queue| + WorkerRank(s.worker) + 2 * MainRank(s.main)
  }

  /** A step of the program proper: not the passing of time, and not a spurious wakeup. */
  predicate Working(act: Action) {
    !act.Tick? && !act.SpuriousWake?
  }

  lemma IngestionStaysOver(c: Config, s: State, act: Action)
    requires Phases(s) && IngestionOver(s) && Enabled(c, s, act)
    ensures IngestionOver(Next(c, s, act))
    ensures !act.Push? && !act.PushNotifies? && !act.ReceiverStarts?
  {
  }

  lemma DrainAdvances(c: Config, s: State, act: Action)
    requires Phases(s) && IngestionOver(s) && Enabled(c, s, act)
    ensures Remaining(Next(c, s, act)) <= Remaining(s) + (if act.SpuriousWake? then 1 else if act.Tick? then 0 else -1)
  {
    IngestionStaysOver(c, s, act);
  }

  /** The step that can be taken next, for as long as the shutdown has not finished. */
  function NextUp(s: State): Action {
    match s.main
    case Stopping => MainReadsClock
    case Storing(_) => MainStores
    case ShuttingDown => MainSetsStopped
    case Waking => MainNotifies
    case _ =>
      match s.worker
      case Checking => Check
      case Popped(_) => ReadMono
      case Timed(_, _) => ReadWall
      case Sending(_, _, _) => SendReturns
      case Judging(now, limit) => if now == None then ReadNow else if limit == None then ReadLimit else Judge
      case Clearing => ClearQueue
      case _ => MainJoinsWorker
  }

  /**
   The shutdown never deadlocks: once ingestion is over there is a step of the program to take until
   the main thread has joined the worker, and then the worker has exited and the queue is empty.
   */
  lemma DrainNeverStuck(c: Config, s: State)
    requires Reached(c, s) && IngestionOver(s)
    ensures if s.main.Finished? then s.worker.Exited? && s.queue == []
            else Enabled(c, s, NextUp(s)) && Working(NextUp(s))
  {
    ReachedInv(c, s);
  }

  /** The shutdown can begin at any time: once the receive thread has gone, ingestion is over and the drain begins. */
  lemma ShutdownBegins(c: Config, s: State)
    requires Reached(c, s) && s.main.Looping? && !s.receiver.Notifying?
    ensures Enabled(c, s, MainDisconnects)
    ensures var s1 := Next(c, s, MainDisconnects);
            (s1.receiver.Listening? ==> Enabled(c, s1, ReceiverExits)) &&
            var s2 := if s1.receiver.Listening? then Next(c, s1, ReceiverExits) else s1;
            Enabled(c, s2, MainJoinsReceiver) &&
            var s3 := Next(c, s2, MainJoinsReceiver);
            IngestionOver(s3) && s3.queue == s.queue && s3.worker == s.worker
  {
  }

  /** While the main thread runs, a receive thread that has gone is replaced, and can push what it receives now. */
  lemma IngestionResumes(c: Config, s: State, a: nat, p: Records.PositionReport)
    requires Reached(c, s) && s.main.Looping? && s.receiver.Gone?
    ensures Enabled(c, s, ReceiverStarts)
    ensures Enabled(c, Next(c, s, ReceiverStarts), Action.Push(a, p, Ms(s.clock)))
  {
    ReachedInv(c, s);
    assert s.pushed != [] ==> s.pushed[|s.pushed| - 1].item.received <= Ms(s.clock);
  }

  function WorkDone(acts: seq<Action>): nat {
    if acts == [] then 0 else WorkDone(acts[..|acts| - 1]) + if Working(acts[|acts| - 1]) then 1 else 0
  }

  /** A spurious wakeup costs one more look at an empty queue. */
  function Spurious(acts: seq<Action>): nat {
    if acts == [] then 0 else Spurious(acts[..|acts| - 1]) + if acts[|acts| - 1].SpuriousWake? then 1 else 0
  }

  lemma {:induction false} DrainRun(c: Config, states: seq<State>, acts: seq<Action>, n: nat)
    requires IsRun(c, states, acts) && n <= |acts|
    requires Phases(states[0]) && ClockRoom(c, states[0]) && IngestionOver(states[0])
    ensures Phases(states[n]) && ClockRoom(c, states[n]) && IngestionOver(states[n])
    ensures WorkDone(acts[..n]) + Remaining(states[n]) <= Remaining(states[0]) + Spurious(acts[..n])
  {
    if n > 0 {
      DrainRun(c, states, acts, n - 1);
      PhasesStep(c, states[n - 1], acts[n - 1]);
      IngestionStaysOver(c, states[n - 1], acts[n - 1]);
      DrainAdvances(c, states[n - 1], acts[n - 1]);
      assert acts[..n][..n - 1] == acts[..n - 1];
    }
  }

  /** So the shutdown ends: the steps it takes are bounded by what remained when ingestion stopped. */
  lemma DrainTerminates(c: Config, states: seq<State>, acts: seq<Action>)
    requires IsRun(c, states, acts) && Reached(c, states[0]) && IngestionOver(states[0])
    ensures WorkDone(acts) + Remaining(states[|acts|]) <= Remaining(states[0]) + Spurious(acts)
  {
    ReachedInv(c, states[0]);
    DrainRun(c, states, acts, |acts|);
    assert acts[..|acts|] == acts;
  }

  // ---------------------------------------------------------------- the order of stop()

  /** stop() has stored the deadline by the time anyone can see the queue shut down. */
  lemma DeadlineBeforeShutdown(c: Config, s: State)
    requires Reached(c, s) && (s.stopped || s.worker.Exited?)
    ensures s.deadline < UINT64_MAX
  {
    ReachedInv(c, s);
  }
}
