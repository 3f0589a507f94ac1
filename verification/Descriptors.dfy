/**
 Who owns the socket descriptor: the main thread, which connects, reconnects and disconnects, and the
 receive thread it spawns for each connection (src/dump1090.cpp, lines 455-482 and 645-724). Every
 access to the shared atomic `fd` is a step of its own, and descriptor numbers are reused.
 */
module Descriptors {
  import opened Wrappers

  datatype ThreadPc =
    | NoThread            // not joinable
    | Loading             // to read fd
    | Receiving(n: nat)   // in recv
    | Delivering          // handing the received lines on
    | Dropped             // recv returned no data; to exchange fd for -1
    | Owning(n: nat)      // won the exchange; to close
    | Done                // returned; joinable

  datatype MainPc =
    | Idle
    | ConnectJoin                 // connect: to join a previous receive thread
    | Opening                     // to open a connection
    | Opened(n: nat)              // to store the descriptor in fd
    | Spawning                    // to start the receive thread
    | Shutting(n: nat)            // disconnect: took the descriptor; to shut the socket down
    | DisconnectJoin(cur: Option<nat>)
    | Closing(n: nat)             // joined; to close

  datatype State = State(
    fd: Option<nat>,
    main: MainPc,
    thread: ThreadPc,
    open: map<nat, nat>,    // the connection, by number, that each open descriptor belongs to
    count: nat,            // how many connections were ever opened
    serving: nat,           // the connection the current receive thread was started for
    shut: set<nat>,         // the connections that were shut down
    closed: multiset<nat>)  // the connections that were closed

  /** The constructor goes straight to connect_to_dump1090. */
  const Init := State(None, ConnectJoin, NoThread, map[], 0, 0, {}, multiset{})

  datatype Action =
    | SeesNoConnection | JoinsOld | OpenFails | Opens(n: nat) | StoresFd | Spawns
    | Takes | ShutsDown | JoinsForDisconnect | MainCloses
    | Loads | GetsData | GetsNothing | Delivers | ThreadTakes | ThreadCloses

  predicate Finished(t: ThreadPc) {
    t.NoThread? || t.Done?
  }

  predicate Enabled(s: State, act: Action) {
    match act
    case SeesNoConnection => s.main.Idle? && s.fd == None
    case JoinsOld => s.main.ConnectJoin? && Finished(s.thread)
    case OpenFails => s.main.Opening?
    case Opens(n) => s.main.Opening? && n !in s.open
    case StoresFd => s.main.Opened?
    case Spawns => s.main.Spawning?
    case Takes => s.main.Idle?
    case ShutsDown => s.main.Shutting?
    case JoinsForDisconnect => s.main.DisconnectJoin? && Finished(s.thread)
    case MainCloses => s.main.Closing?
    case Loads => s.thread.Loading?
    case GetsData => s.thread.Receiving?
    case GetsNothing => s.thread.Receiving?
    case Delivers => s.thread.Delivering?
    case ThreadTakes => s.thread.Dropped?
    case ThreadCloses => s.thread.Owning?
  }

  /** close(2): whichever connection the descriptor belongs to at this moment. */
  function Close(s: State, n: nat): State {
    if n in s.open then s.(open := s.open - {n}, closed := s.closed + multiset{s.open[n]}) else s
  }

  function ConnectionOf(s: State, n: nat): set<nat> {
    if n in s.open then {s.open[n]} else {}
  }

  function Next(s: State, act: Action): State
    requires Enabled(s, act)
  {
    match act
    case SeesNoConnection => s.(main := ConnectJoin)
    case JoinsOld => s.(main := Opening, thread := NoThread)
    case OpenFails => s.(main := Idle)
    case Opens(n) => s.(main := Opened(n), open := s.open[n := s.count], count := s.count + 1)
    case StoresFd => s.(main := Spawning, fd := Some(s.main.n))
    case Spawns =>
      s.(main := Idle, thread := Loading,
         serving := if s.fd.Some? && s.fd.value in s.open then s.open[s.fd.value] else 0)
    case Takes =>
      (match s.fd
       case None => s.(main := DisconnectJoin(None))
       case Some(n) => s.(main := Shutting(n), fd := None))
    case ShutsDown => s.(main := DisconnectJoin(Some(s.main.n)), shut := s.shut + ConnectionOf(s, s.main.n))
    case JoinsForDisconnect =>
      s.(thread := NoThread, main := if s.main.cur.Some? then Closing(s.main.cur.value) else Idle)
    case MainCloses => Close(s, s.main.n).(main := Idle)
    case Loads => s.(thread := if s.fd == None then Done else Receiving(s.fd.value))
    case GetsData => s.(thread := Delivering)
    case GetsNothing => s.(thread := Dropped)
    case Delivers => s.(thread := Loading)
    case ThreadTakes =>
      (match s.fd
       case None => s.(thread := Done)
       case Some(n) => s.(thread := Owning(n), fd := None))
    case ThreadCloses => Close(s, s.thread.n).(thread := Done)
  }

  // ---------------------------------------------------------------- invariant

  /** The descriptor the main thread has in hand. */
  function MainHolds(m: MainPc): Option<nat> {
    match m
    case Opened(n) => Some(n)
    case Shutting(n) => Some(n)
    case DisconnectJoin(cur) => cur
    case Closing(n) => Some(n)
    case _ => None
  }

  function ThreadHolds(t: ThreadPc): Option<nat> {
    match t
    case Owning(n) => Some(n)
    case _ => None
  }

  /** At most one of three places holds a descriptor; that descriptor is the only one open. */
  function Held(s: State): set<nat> {
    (if s.fd.Some? then {s.fd.value} else {})
    + (if MainHolds(s.main).Some? then {MainHolds(s.main).value} else {})
    + (if ThreadHolds(s.thread).Some? then {ThreadHolds(s.thread).value} else {})
  }

  function AsCount(b: bool): nat { if b then 1 else 0 }

  predicate Ownership(s: State) {
    && s.open.Keys == Held(s)
    && AsCount(s.fd.Some?) + AsCount(MainHolds(s.main).Some?) + AsCount(ThreadHolds(s.thread).Some?) <= 1
  }

  /** A receive thread runs only for the connection in fd, or one that disconnect has taken and is joining it for. */
  predicate Threads(s: State) {
    match s.main
    case Idle => if s.fd == None then s.thread.Owning? || Finished(s.thread)
                 else && !Finished(s.thread) && (s.thread.Receiving? ==> s.thread.n == s.fd.value)
    case ConnectJoin => s.fd == None && (s.thread.Owning? || Finished(s.thread))
    case Opening => s.fd == None && s.thread.NoThread?
    case Opened(_) => s.fd == None && s.thread.NoThread?
    case Spawning => s.fd.Some? && s.thread.NoThread?
    case Shutting(n) => s.fd == None && (s.thread.Receiving? ==> s.thread.n == n)
    case DisconnectJoin(cur) =>
      && s.fd == None
      && (cur == None ==> s.thread.Owning? || Finished(s.thread))
      && (s.thread.Receiving? ==> cur == Some(s.thread.n))
    case Closing(_) => s.fd == None && s.thread.NoThread?
  }

  /** The open descriptor is that of the newest connection; every earlier one was closed, once. */
  ghost predicate Serials(s: State) {
    && (forall n | n in s.open :: s.open[n] + 1 == s.count)
    && (forall k: nat :: s.closed[k] == if k + 1 < s.count || (k + 1 == s.count && s.open == map[]) then 1 else 0)
    && (!Finished(s.thread) ==> s.serving + 1 == s.count)
    && (s.main.DisconnectJoin? && s.main.cur.Some? ==> s.count - 1 in s.shut)
  }

  ghost predicate Inv(s: State) {
    Ownership(s) && Threads(s) && Serials(s)
  }

  lemma OwnershipStep(s: State, act: Action)
    requires Ownership(s) && Threads(s) && Enabled(s, act)
    ensures Ownership(Next(s, act))
  {
  }

  lemma ThreadsStep(s: State, act: Action)
    requires Ownership(s) && Threads(s) && Enabled(s, act)
    ensures Threads(Next(s, act))
  {
  }

  lemma SerialsStep(s: State, act: Action)
    requires Ownership(s) && Threads(s) && Serials(s) && Enabled(s, act)
    ensures Serials(Next(s, act))
  {
  }

  // ---------------------------------------------------------------- every interleaving

  ghost predicate IsRun(states: seq<State>, acts: seq<Action>) {
    && |states| == |acts| + 1 && states[0] == Init
    && forall i | 0 <= i < |acts| :: Enabled(states[i], acts[i]) && states[i + 1] == Next(states[i], acts[i])
  }

  lemma {:induction false} Reachable(states: seq<State>, acts: seq<Action>, i: nat)
    requires IsRun(states, acts) && i < |states|
    ensures Inv(states[i])
  {
    if i > 0 {
      Reachable(states, acts, i - 1);
      OwnershipStep(states[i - 1], acts[i - 1]);
      ThreadsStep(states[i - 1], acts[i - 1]);
      SerialsStep(states[i - 1], acts[i - 1]);
    }
  }

  /** A state that some interleaving leads to. */
  ghost predicate Reached(s: State) {
    exists states, acts :: IsRun(states, acts) && states[|acts|] == s
  }

  lemma ReachedInv(s: State)
    requires Reached(s)
    ensures Inv(s)
  {
    var states, acts :| IsRun(states, acts) && states[|acts|] == s;
    Reachable(states, acts, |acts|);
  }

  /** recv only ever runs on a descriptor that is open, and open for the connection the thread serves. */
  lemma RecvIsOnOpenDescriptor(s: State)
    requires Reached(s) && s.thread.Receiving?
    ensures s.thread.n in s.open && s.open[s.thread.n] == s.serving && s.closed[s.serving] == 0
  {
    ReachedInv(s);
  }

  /** Whoever closes, closes a descriptor that is open; so each close is the first of its connection. */
  lemma CloseIsOfOpenDescriptor(s: State, act: Action)
    requires Reached(s) && Enabled(s, act) && (act.MainCloses? || act.ThreadCloses?)
    ensures var n := if act.MainCloses? then s.main.n else s.thread.n;
            n in s.open && s.closed[s.open[n]] == 0 && Next(s, act).closed == s.closed + multiset{s.open[n]}
  {
    ReachedInv(s);
  }

  /** fd is overwritten with a new descriptor only while it is -1 and no receive thread is alive. */
  lemma FdOverwrittenOnlyWhenFree(s: State)
    requires Reached(s) && Enabled(s, StoresFd)
    ensures s.fd == None && s.thread.NoThread?
  {
    ReachedInv(s);
  }

  /** Nothing leaks: with no connection, no thread and nothing in hand, every connection was closed exactly once. */
  lemma NoDescriptorLeaks(s: State)
    requires Reached(s) && s.main.Idle? && s.fd == None && Finished(s.thread)
    ensures s.open == map[] && forall k: nat :: s.closed[k] == if k < s.count then 1 else 0
  {
    ReachedInv(s);
    assert s.open.Keys == {};
  }

  /** disconnect leaves no thread and nothing open, whatever state it was called in. */
  lemma DisconnectLeavesNothing(s: State, act: Action)
    requires Reached(s) && Enabled(s, act) && (act.JoinsForDisconnect? || act.MainCloses?) && Next(s, act).main.Idle?
    ensures var t := Next(s, act); t.fd == None && t.thread.NoThread? && t.open == map[]
  {
    ReachedInv(s);
    OwnershipStep(s, act);
    assert Next(s, act).open.Keys == {};
  }

  // ---------------------------------------------------------------- joins

  predicate MainJoins(s: State) {
    s.main.ConnectJoin? || s.main.DisconnectJoin?
  }

  /** The thread's next step does not wait for the peer. */
  predicate CanAdvance(s: State) {
    s.thread.Receiving? ==> s.thread.n in s.open && s.open[s.thread.n] in s.shut
  }

  function Rank(t: ThreadPc): nat {
    match t
    case Receiving(_) => 4
    case Delivering => 3
    case Loading => 2
    case Dropped => 2
    case Owning(_) => 1
    case _ => 0
  }

  /** The thread a join waits for has taken the descriptor, or will find it gone; in recv, its socket is shut down. */
  lemma JoinedThreadCanFinish(s: State)
    requires Reached(s) && MainJoins(s)
    ensures s.fd == None && CanAdvance(s)
    ensures !Finished(s.thread) ==> exists act :: Enabled(s, act) && Next(s, act).main == s.main
  {
    ReachedInv(s);
    if !Finished(s.thread) {
      var act := match s.thread
                 case Loading => Loads
                 case Receiving(_) => GetsNothing
                 case Delivering => Delivers
                 case Dropped => ThreadTakes
                 case _ => ThreadCloses;
      assert Enabled(s, act) && Next(s, act).main == s.main;
    }
  }

  /** And each step it takes brings it nearer its end, so no join waits for ever. */
  lemma JoinedThreadFinishes(s: State, act: Action)
    requires Reached(s) && MainJoins(s) && Enabled(s, act)
    ensures Next(s, act).main == s.main ==> Rank(Next(s, act).thread) < Rank(s.thread)
    ensures Next(s, act).main != s.main ==> Finished(s.thread)
  {
    ReachedInv(s);
  }

  // ---------------------------------------------------------------- what the protocol is for

  /** After a drop, once the receive thread is done, the main thread can connect again, with a thread to serve it. */
  lemma CanReconnect(s: State, n: nat)
    requires Reached(s) && s.main.Idle? && s.fd == None && Finished(s.thread)
    ensures n !in s.open && Enabled(s, SeesNoConnection)
    ensures var s1 := Next(s, SeesNoConnection);
            Enabled(s1, JoinsOld) &&
            var s2 := Next(s1, JoinsOld);
            Enabled(s2, Opens(n)) &&
            var s3 := Next(s2, Opens(n));
            Enabled(s3, StoresFd) &&
            var s4 := Next(s3, StoresFd);
            Enabled(s4, Spawns) &&
            var s5 := Next(s4, Spawns);
            && s5.main.Idle? && s5.fd == Some(n) && s5.thread.Loading?
            && s5.open == map[n := s.count] && s5.serving == s.count
  {
    ReachedInv(s);
    assert s.open.Keys == {};
    assert s.open == map[];
  }

  /** A receive thread that has its data goes back to receiving from the same connection. */
  lemma ReceivesOn(s: State)
    requires Reached(s) && s.main.Idle? && s.thread.Receiving?
    ensures Enabled(s, GetsData)
    ensures var s1 := Next(s, GetsData);
            Enabled(s1, Delivers) && Enabled(Next(s1, Delivers), Loads) && Next(Next(s1, Delivers), Loads) == s
  {
    ReachedInv(s);
  }

  /** And one whose connection is dropped closes it, and leaves nothing open. */
  lemma DropIsClosed(s: State)
    requires Reached(s) && s.main.Idle? && s.thread.Receiving?
    ensures Enabled(s, GetsNothing)
    ensures var s1 := Next(s, GetsNothing);
            Enabled(s1, ThreadTakes) &&
            var s2 := Next(s1, ThreadTakes);
            Enabled(s2, ThreadCloses) &&
            var s3 := Next(s2, ThreadCloses);
            s3.fd == None && s3.thread.Done? && s3.open == map[] && s3.closed[s.serving] == 1
  {
    ReachedInv(s);
    var s3 := Next(Next(Next(s, GetsNothing), ThreadTakes), ThreadCloses);
    assert s3.open.Keys == {};
  }
}
