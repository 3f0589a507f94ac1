/**
 The bounded, least-recently-heard registry of aircraft (src/aircraft_registry.cpp), as a function
 of the whole history of messages and sweeps. Class AircraftRegistry is proved against this.
 */
module Registry {
  import opened Wrappers
  import opened Records
  import opened Replay

  datatype State = State(known: map<nat, AdsbRecord>, evictions: nat)

  /** A message folded, or a sweep for stale aircraft. */
  datatype Event = Heard(msg: AdsbRecord) | Sweep(now: nat, window: nat)

  /** The aircraft that std::min_element picks: the oldest last_seen, the lowest address among equals. */
  ghost predicate LeastRecent(known: map<nat, AdsbRecord>, a: nat) {
    a in known && forall b | b in known ::
      known[a].lastSeen < known[b].lastSeen || (known[a].lastSeen == known[b].lastSeen && a <= b)
  }

  lemma {:induction false} SomeLeastRecent(known: map<nat, AdsbRecord>) returns (a: nat)
    requires known != map[]
    ensures LeastRecent(known, a)
    decreases |known|
  {
    a :| a in known;
    var rest := known - {a};
    assert forall b | b in known :: b == a || b in rest;
    if rest != map[] {
      var b := SomeLeastRecent(rest);
      if known[b].lastSeen < known[a].lastSeen || (known[a].lastSeen == known[b].lastSeen && b < a) {
        a := b;
      }
    }
  }

  ghost function Victim(known: map<nat, AdsbRecord>): (a: nat)
    requires known != map[]
    ensures LeastRecent(known, a)
  {
    assert exists a :: LeastRecent(known, a) by { var a := SomeLeastRecent(known); }
    var a :| LeastRecent(known, a); a
  }

  lemma VictimIsUnique(known: map<nat, AdsbRecord>, a: nat)
    requires LeastRecent(known, a)
    ensures known != map[] && Victim(known) == a
  {
  }

  /** Whoever stays was heard later than the one evicted, or at the same time and has a higher address. */
  lemma SparedByEviction(s: State, b: nat)
    requires b in EvictLeastRecent(s).known
    ensures b in s.known && EvictLeastRecent(s).known[b] == s.known[b]
    ensures exists a | a in s.known && a !in EvictLeastRecent(s).known ::
              s.known[a].lastSeen < s.known[b].lastSeen || (s.known[a].lastSeen == s.known[b].lastSeen && a < b)
  {
    var a := Victim(s.known);
    assert a in s.known && a !in EvictLeastRecent(s).known && LeastRecent(s.known, a);
  }

  ghost function EvictLeastRecent(s: State): State {
    if s.known == map[] then s else State(s.known - {Victim(s.known)}, s.evictions + 1)
  }

  /** Room is made before a new aircraft is admitted, and only for a new aircraft. */
  ghost function MakeRoom(s: State, capacity: nat, a: nat): State {
    if a !in s.known && |s.known| >= capacity then EvictLeastRecent(s) else s
  }

  /** The entry of an aircraft, made if it is not there. */
  ghost function Admit(s: State, capacity: nat, a: nat): (t: State)
    ensures a in t.known
  {
    var room := MakeRoom(s, capacity, a);
    if a in room.known then room else room.(known := room.known[a := EmptyRecord(a)])
  }

  ghost function Fold(s: State, capacity: nat, msg: AdsbRecord): State {
    var t := Admit(s, capacity, msg.icao);
    t.(known := t.known[msg.icao := FoldRecord(t.known[msg.icao], msg)])
  }

  ghost function StaleSet(s: State, now: nat, window: nat): set<nat> {
    set a | a in s.known && IsStale(s.known[a], now, window)
  }

  ghost function EvictStale(s: State, now: nat, window: nat): State {
    s.(known := s.known - StaleSet(s, now, window))
  }

  ghost function Step(s: State, capacity: nat, e: Event): State {
    match e
    case Heard(msg) => Fold(s, capacity, msg)
    case Sweep(now, window) => EvictStale(s, now, window)
  }

  ghost function Run(capacity: nat, events: seq<Event>): State {
    if events == [] then State(map[], 0)
    else Step(Run(capacity, events[..|events| - 1]), capacity, events[|events| - 1])
  }

  /** Messages carry non-decreasing receive stamps; a sweep may happen at any time. */
  predicate InStampOrder(events: seq<Event>) {
    forall i, j | 0 <= i < j < |events| && events[i].Heard? && events[j].Heard? ::
      events[i].msg.lastSeen <= events[j].msg.lastSeen
  }

  /** The messages of one aircraft, in order. */
  function MessagesOf(a: nat, events: seq<Event>): seq<AdsbRecord> {
    if events == [] then []
    else
      var e := events[|events| - 1];
      MessagesOf(a, events[..|events| - 1]) + if e.Heard? && e.msg.icao == a then [e.msg] else []
  }

  // ---------------------------------------------------------------- bound, and what a fold keeps

  /** Never above capacity, and each record filed under its own address. */
  ghost predicate WellKept(s: State, capacity: nat) {
    && |s.known| <= capacity
    && forall a | a in s.known :: s.known[a].icao == a
  }

  lemma FoldKeeps(s: State, capacity: nat, msg: AdsbRecord)
    requires capacity >= 1 && WellKept(s, capacity)
    ensures WellKept(Fold(s, capacity, msg), capacity)
  {
    FoldSize(s, capacity, msg);
  }

  lemma SweepKeeps(s: State, capacity: nat, now: nat, window: nat)
    requires WellKept(s, capacity)
    ensures WellKept(EvictStale(s, now, window), capacity)
  {
    SmallerMap(s.known, EvictStale(s, now, window).known);
  }

  lemma {:induction false} Bounded(capacity: nat, events: seq<Event>)
    requires capacity >= 1
    ensures WellKept(Run(capacity, events), capacity)
  {
    if events != [] {
      var front := events[..|events| - 1];
      Bounded(capacity, front);
      match events[|events| - 1]
      case Heard(msg) =>
        FoldKeeps(Run(capacity, front), capacity, msg);
      case Sweep(now, window) =>
        SweepKeeps(Run(capacity, front), capacity, now, window);
    }
  }

  lemma SmallerMap(big: map<nat, AdsbRecord>, small: map<nat, AdsbRecord>)
    requires small.Keys <= big.Keys
    ensures |small| <= |big|
    ensures |big| == |small| + |big.Keys - small.Keys|
  {
    assert big.Keys == small.Keys + (big.Keys - small.Keys);
  }

  /** A message of a known aircraft evicts nothing; a new one evicts at most one, and only when full. */
  lemma FoldSize(s: State, capacity: nat, msg: AdsbRecord)
    requires capacity >= 1
    ensures var t := Fold(s, capacity, msg);
            && msg.icao in t.known
            && (msg.icao in s.known ==> t.known.Keys == s.known.Keys && t.evictions == s.evictions)
            && (msg.icao !in s.known && |s.known| < capacity ==>
                t.known.Keys == s.known.Keys + {msg.icao} && t.evictions == s.evictions && |t.known| == |s.known| + 1)
            && (msg.icao !in s.known && |s.known| >= capacity ==>
                && t.known.Keys == s.known.Keys - {Victim(s.known)} + {msg.icao}
                && t.evictions == s.evictions + 1 && |t.known| == |s.known|)
  {
    var room := MakeRoom(s, capacity, msg.icao);
    var t := Fold(s, capacity, msg);
    assert t.known.Keys == room.known.Keys + {msg.icao};
    if msg.icao !in s.known && |s.known| >= capacity {
      assert s.known.Keys == room.known.Keys + {Victim(s.known)};
    }
  }

  /** A fold keeps the record of every other aircraft it keeps, and folds the message into its own. */
  lemma FoldRecords(s: State, capacity: nat, msg: AdsbRecord)
    requires capacity >= 1
    ensures var t := Fold(s, capacity, msg);
            && (forall a | a in t.known && a != msg.icao :: a in s.known && t.known[a] == s.known[a])
            && msg.icao in t.known
            && t.known[msg.icao]
            == FoldRecord(if msg.icao in s.known then s.known[msg.icao] else EmptyRecord(msg.icao), msg)
  {
  }

  // ---------------------------------------------------------------- accounting

  /** How many messages of the history admitted an aircraft. */
  ghost function Admissions(capacity: nat, events: seq<Event>): nat {
    if events == [] then 0
    else
      var front, e := events[..|events| - 1], events[|events| - 1];
      Admissions(capacity, front) + if e.Heard? && e.msg.icao !in Run(capacity, front).known then 1 else 0
  }

  /** How many addresses the sweeps of the history returned. */
  ghost function Swept(capacity: nat, events: seq<Event>): nat {
    if events == [] then 0
    else
      var front, e := events[..|events| - 1], events[|events| - 1];
      Swept(capacity, front) + if e.Sweep? then |StaleSet(Run(capacity, front), e.now, e.window)| else 0
  }

  /** Every aircraft ever admitted is still tracked, or was evicted for room, or was swept: no other way out. */
  lemma {:induction false} EveryAdmissionAccounted(capacity: nat, events: seq<Event>)
    requires capacity >= 1
    ensures Admissions(capacity, events)
         == |Run(capacity, events).known| + Run(capacity, events).evictions + Swept(capacity, events)
  {
    if events != [] {
      var front, e := events[..|events| - 1], events[|events| - 1];
      EveryAdmissionAccounted(capacity, front);
      var s := Run(capacity, front);
      match e
      case Heard(msg) =>
        FoldSize(s, capacity, msg);
      case Sweep(now, window) =>
        var t := EvictStale(s, now, window);
        SmallerMap(s.known, t.known);
        assert s.known.Keys - t.known.Keys == StaleSet(s, now, window);
    }
  }

  // ---------------------------------------------------------------- recency

  /** The stamp of the last message heard from an aircraft, if there was one. */
  function LastHeard(events: seq<Event>, a: nat): Option<nat> {
    if events == [] then None
    else
      var e := events[|events| - 1];
      if e.Heard? && e.msg.icao == a then Some(e.msg.lastSeen) else LastHeard(events[..|events| - 1], a)
  }

  lemma {:induction false} LastHeardIsPast(events: seq<Event>, a: nat, stamp: nat)
    requires forall i | 0 <= i < |events| :: events[i].Heard? ==> events[i].msg.lastSeen <= stamp
    ensures LastHeard(events, a).Some? ==> LastHeard(events, a).value <= stamp
  {
    if events != [] {
      LastHeardIsPast(events[..|events| - 1], a, stamp);
    }
  }

  /** last_seen of a tracked aircraft is the stamp of the last message heard from it. */
  lemma {:induction false} TrackedSinceHeard(capacity: nat, events: seq<Event>, a: nat)
    requires capacity >= 1 && a in Run(capacity, events).known
    ensures LastHeard(events, a) == Some(Run(capacity, events).known[a].lastSeen)
  {
    if events != [] && !(events[|events| - 1].Heard? && events[|events| - 1].msg.icao == a) {
      TrackedSinceHeard(capacity, events[..|events| - 1], a);
    }
  }

  /**
   A sweep goes by when an aircraft was last heard and by nothing else: one heard less than the
   window ago stays, with its record; any other goes.
   */
  lemma SweepGoesByAge(capacity: nat, events: seq<Event>, now: nat, window: nat, a: nat)
    requires capacity >= 1 && a in Run(capacity, events).known
    ensures var swept := Run(capacity, events + [Sweep(now, window)]);
            && LastHeard(events, a).Some?
            && (a in swept.known <==> LastHeard(events, a).value > now - window)
            && (a in swept.known ==> swept.known[a] == Run(capacity, events).known[a])
            && swept.evictions == Run(capacity, events).evictions
  {
    assert (events + [Sweep(now, window)])[..|events|] == events;
    TrackedSinceHeard(capacity, events, a);
  }

  /**
   Recency dominance. An aircraft that was heard and is not tracked, whether it went for room or in
   a sweep, was last heard no later than every aircraft that is tracked.
   */
  lemma {:induction false} UntrackedIsOlder(capacity: nat, events: seq<Event>, gone: nat, kept: nat)
    requires capacity >= 1 && InStampOrder(events)
    requires gone !in Run(capacity, events).known && LastHeard(events, gone).Some?
    requires kept in Run(capacity, events).known
    ensures LastHeard(events, gone).value <= Run(capacity, events).known[kept].lastSeen
  {
    var front, e := events[..|events| - 1], events[|events| - 1];
    var s := Run(capacity, front);
    if gone in s.known {
      TrackedSinceHeard(capacity, front, gone);
    }
    if e.Heard? && e.msg.icao == kept {
      LastHeardIsPast(events, gone, e.msg.lastSeen);
    } else if gone !in s.known {
      UntrackedIsOlder(capacity, front, gone, kept);
    }
  }

  // ---------------------------------------------------------------- refinement of history

  /** The index of the message that began the current track of an aircraft. */
  ghost function AdmittedAt(capacity: nat, events: seq<Event>, a: nat): (i: nat)
    requires capacity >= 1 && a in Run(capacity, events).known
    ensures i < |events|
  {
    var front := events[..|events| - 1];
    if a in Run(capacity, front).known then AdmittedAt(capacity, front, a) else |events| - 1
  }

  /** An aircraft was admitted by a message of its own. */
  lemma {:induction false} AdmittedByOwnMessage(capacity: nat, events: seq<Event>, a: nat)
    requires capacity >= 1 && a in Run(capacity, events).known
    ensures var i := AdmittedAt(capacity, events, a);
            events[i].Heard? && events[i].msg.icao == a && a !in Run(capacity, events[..i]).known
  {
    var front, i := events[..|events| - 1], AdmittedAt(capacity, events, a);
    if a in Run(capacity, front).known {
      AdmittedByOwnMessage(capacity, front, a);
      assert front[..i] == events[..i];
    }
  }

  /** And has been tracked ever since. */
  lemma {:induction false} TrackedSinceAdmission(capacity: nat, events: seq<Event>, a: nat, j: nat)
    requires capacity >= 1 && a in Run(capacity, events).known
    requires AdmittedAt(capacity, events, a) < j <= |events|
    ensures a in Run(capacity, events[..j]).known
  {
    if j < |events| {
      var front := events[..|events| - 1];
      TrackedSinceAdmission(capacity, front, a, j);
      assert front[..j] == events[..j];
    } else {
      assert events[..j] == events;
    }
  }

  lemma MessagesSince(a: nat, events: seq<Event>, i: nat)
    requires i < |events|
    ensures var e := events[|events| - 1];
            var earlier := MessagesOf(a, events[..|events| - 1][i..]);
            MessagesOf(a, events[i..]) == earlier + if e.Heard? && e.msg.icao == a then [e.msg] else []
  {
    assert events[i..][..|events| - 1 - i] == events[..|events| - 1][i..];
  }

  /**
   The registry refines its history. A tracked aircraft was admitted by a message of its own, was
   not tracked before it and has been tracked ever since; and its record is the last-writer-wins
   replay of exactly its messages from then on. Nothing from an earlier track survives.
   */
  lemma {:induction false} RecordsReplayHistory(capacity: nat, events: seq<Event>, a: nat)
    requires capacity >= 1 && a in Run(capacity, events).known
    ensures var i := AdmittedAt(capacity, events, a);
            && events[i].Heard? && events[i].msg.icao == a
            && a !in Run(capacity, events[..i]).known
            && (forall j | i < j <= |events| :: a in Run(capacity, events[..j]).known)
            && Run(capacity, events).known[a] == ReplayOf(a, MessagesOf(a, events[i..]))
  {
    AdmittedByOwnMessage(capacity, events, a);
    forall j | AdmittedAt(capacity, events, a) < j <= |events| ensures a in Run(capacity, events[..j]).known {
      TrackedSinceAdmission(capacity, events, a, j);
    }
    RecordIsReplay(capacity, events, a);
  }

  lemma {:induction false} RecordIsReplay(capacity: nat, events: seq<Event>, a: nat)
    requires capacity >= 1 && a in Run(capacity, events).known
    ensures Run(capacity, events).known[a] == ReplayOf(a, MessagesOf(a, events[AdmittedAt(capacity, events, a)..]))
  {
    var front, i := events[..|events| - 1], AdmittedAt(capacity, events, a);
    var before := MessagesOf(a, front[i..]);
    if a in Run(capacity, front).known {
      RecordIsReplay(capacity, front, a);
    } else {
      assert before == [];
    }
    RecordReplaysOneMore(Run(capacity, front), capacity, events[|events| - 1], a, before);
    MessagesSince(a, events, i);
  }

  lemma RecordReplaysOneMore(s: State, capacity: nat, e: Event, a: nat, msgs: seq<AdsbRecord>)
    requires capacity >= 1 && a in Step(s, capacity, e).known
    requires if a in s.known then s.known[a] == ReplayOf(a, msgs) else msgs == []
    ensures a !in s.known ==> e.Heard? && e.msg.icao == a
    ensures Step(s, capacity, e).known[a] == ReplayOf(a, msgs + if e.Heard? && e.msg.icao == a then [e.msg] else [])
  {
    if e.Heard? {
      FoldRecords(s, capacity, e.msg);
      if e.msg.icao == a {
        ReplayExtends(a, msgs, e.msg);
      } else {
        assert msgs + [] == msgs;
      }
    } else {
      assert msgs + [] == msgs;
    }
  }

  // ---------------------------------------------------------------- inclusion between capacities

  predicate FieldWithin<T(==)>(small: Field<T>, large: Field<T>) {
    small.valid ==> small == large
  }

  /** Everything the small record knows the large one knows too, with the same value and time. */
  predicate RecordWithin(small: AdsbRecord, large: AdsbRecord) {
    && small.icao == large.icao && small.lastSeen == large.lastSeen
    && FieldWithin(small.callsign, large.callsign) && FieldWithin(small.altitude, large.altitude)
    && FieldWithin(small.speed, large.speed) && FieldWithin(small.heading, large.heading)
    && FieldWithin(small.vertVel, large.vertVel) && FieldWithin(small.squawk, large.squawk)
  }

  /** The inductive invariant: the smaller registry is a part of the larger, and full unless they agree. */
  ghost predicate Included(capacity: nat, small: State, large: State) {
    && small.known.Keys <= large.known.Keys
    && (|small.known| >= capacity || small.known.Keys == large.known.Keys)
    && forall a | a in small.known :: RecordWithin(small.known[a], large.known[a])
  }

  lemma FoldWithin(small: AdsbRecord, large: AdsbRecord, msg: AdsbRecord)
    requires small.icao == large.icao
    requires RecordWithin(small, large) || small == EmptyRecord(small.icao)
    ensures RecordWithin(FoldRecord(small, msg), FoldRecord(large, msg))
  {
  }

  /** The part of the invariant that decides who is evicted. */
  ghost predicate KeysIncluded(capacity: nat, small: map<nat, AdsbRecord>, large: map<nat, AdsbRecord>) {
    && small.Keys <= large.Keys
    && (|small| >= capacity || small.Keys == large.Keys)
    && forall a | a in small :: small[a].lastSeen == large[a].lastSeen
  }

  /** When the larger registry evicts an aircraft the smaller one holds, the smaller evicts the same one. */
  lemma SameVictim(capacity: nat, small: map<nat, AdsbRecord>, large: map<nat, AdsbRecord>)
    requires KeysIncluded(capacity, small, large) && small != map[]
    ensures large != map[]
    ensures Victim(large) in small ==> Victim(small) == Victim(large)
  {
    var a :| a in small;
    assert a in large;
    var v := Victim(large);
    if v in small {
      assert LeastRecent(small, v);
    }
  }

  lemma KeysIncludedAfterFold(c1: nat, c2: nat, small: State, large: State, msg: AdsbRecord)
    requires 1 <= c1 <= c2 && |small.known| <= c1
    requires KeysIncluded(c1, small.known, large.known)
    ensures var small', large' := Fold(small, c1, msg), Fold(large, c2, msg);
            && small'.known.Keys <= large'.known.Keys
            && (|small'.known| >= c1 || small'.known.Keys == large'.known.Keys)
  {
    FoldSize(small, c1, msg);
    FoldSize(large, c2, msg);
    SmallerMap(large.known, small.known);
    if msg.icao !in large.known && |large.known| >= c2 {
      SameVictim(c1, small.known, large.known);
    }
  }

  lemma IncludedAfterFold(c1: nat, c2: nat, small: State, large: State, msg: AdsbRecord)
    requires 1 <= c1 <= c2 && |small.known| <= c1
    requires Included(c1, small, large)
    requires msg.icao in large.known ==> large.known[msg.icao].icao == msg.icao
    ensures Included(c1, Fold(small, c1, msg), Fold(large, c2, msg))
  {
    KeysIncludedAfterFold(c1, c2, small, large, msg);
    var small', large' := Fold(small, c1, msg), Fold(large, c2, msg);
    forall a | a in small'.known ensures RecordWithin(small'.known[a], large'.known[a]) {
      FoldRecords(small, c1, msg);
      FoldRecords(large, c2, msg);
      if a == msg.icao {
        FoldWithin(if a in small.known then small.known[a] else EmptyRecord(a),
                   if a in large.known then large.known[a] else EmptyRecord(a), msg);
      }
    }
  }

  /** A sweep that takes nothing of the smaller registry leaves it a part of the larger. */
  lemma NothingStale(capacity: nat, small: State, large: State, now: nat, window: nat)
    requires KeysIncluded(capacity, small.known, large.known) && StaleSet(small, now, window) == {}
    ensures KeysIncluded(capacity, small.known, EvictStale(large, now, window).known)
  {
    forall a | a in small.known ensures a in EvictStale(large, now, window).known {
      assert a !in StaleSet(small, now, window);
    }
  }

  /** A sweep that takes the whole difference between the two leaves the same aircraft in both. */
  lemma SameLeft(small: State, large: State, now: nat, window: nat)
    requires small.known.Keys <= large.known.Keys
    requires forall a | a in small.known :: small.known[a].lastSeen == large.known[a].lastSeen
    requires large.known.Keys - small.known.Keys <= StaleSet(large, now, window)
    ensures EvictStale(small, now, window).known.Keys == EvictStale(large, now, window).known.Keys
    ensures forall a | a in EvictStale(small, now, window).known ::
              EvictStale(small, now, window).known[a].lastSeen == EvictStale(large, now, window).known[a].lastSeen
  {
  }

  /** A sweep that reaches into the smaller registry has already emptied the difference between the two. */
  lemma KeysIncludedAfterSweep(capacity: nat, small: State, large: State, now: nat, window: nat)
    requires KeysIncluded(capacity, small.known, large.known)
    requires forall a, b | a in small.known && b in large.known && b !in small.known ::
               large.known[b].lastSeen <= small.known[a].lastSeen
    ensures KeysIncluded(capacity, EvictStale(small, now, window).known, EvictStale(large, now, window).known)
  {
    if StaleSet(small, now, window) == {} {
      assert EvictStale(small, now, window).known == small.known;
      NothingStale(capacity, small, large, now, window);
    } else {
      var a :| a in StaleSet(small, now, window);
      forall b | b in large.known && b !in small.known ensures b in StaleSet(large, now, window) {
        assert large.known[b].lastSeen <= small.known[a].lastSeen;
      }
      SameLeft(small, large, now, window);
    }
  }

  /**
   LRU inclusion. Two registries that see the same messages and sweeps: the one with the smaller
   capacity always tracks a subset of the aircraft, and each of its records is part of the other's.
   */
  lemma {:induction false} SmallerIsIncluded(c1: nat, c2: nat, events: seq<Event>)
    requires 1 <= c1 <= c2 && InStampOrder(events)
    ensures Included(c1, Run(c1, events), Run(c2, events))
  {
    if events != [] {
      var front, e := events[..|events| - 1], events[|events| - 1];
      SmallerIsIncluded(c1, c2, front);
      Bounded(c1, front);
      Bounded(c2, front);
      var small, large := Run(c1, front), Run(c2, front);
      match e
      case Heard(msg) =>
        IncludedAfterFold(c1, c2, small, large, msg);
      case Sweep(now, window) =>
        forall a, b | a in small.known && b in large.known && b !in small.known
          ensures large.known[b].lastSeen <= small.known[a].lastSeen
        {
          TrackedSinceHeard(c2, front, b);
          UntrackedIsOlder(c1, front, b, a);
        }
        KeysIncludedAfterSweep(c1, small, large, now, window);
    }
  }

  /** The report that folding a message after a history returns. */
  ghost function ReportFor(capacity: nat, events: seq<Event>, msg: AdsbRecord): Option<PositionReport>
    requires capacity >= 1
  {
    FoldSize(Run(capacity, events), capacity, msg);
    BuildReport(Fold(Run(capacity, events), capacity, msg).known[msg.icao], msg)
  }

  /** Whatever a report of the smaller registry vouches for, the same report of the larger does too, equally. */
  lemma SmallerReportsLess(c1: nat, c2: nat, events: seq<Event>, msg: AdsbRecord)
    requires 1 <= c1 <= c2 && InStampOrder(events + [Heard(msg)])
    ensures ReportFor(c1, events, msg).Some? <==> ReportFor(c2, events, msg).Some?
    ensures ReportFor(c1, events, msg).Some? ==>
              var r1, r2 := ReportFor(c1, events, msg).value, ReportFor(c2, events, msg).value;
              && r1.position == r2.position && r1.icao == r2.icao
              && r1.flags & r2.flags == r1.flags
              && (HasBit(r1.flags, VALID_ALTITUDE) ==> r1.altitude == r2.altitude)
              && (HasBit(r1.flags, VALID_HEADING) ==> r1.heading == r2.heading)
              && (HasBit(r1.flags, VALID_SPEED) ==> r1.horVel == r2.horVel)
              && (HasBit(r1.flags, VALID_CALLSIGN) ==> r1.callsign == r2.callsign)
              && (HasBit(r1.flags, VALID_SQUAWK) ==> r1.squawk == r2.squawk)
              && (HasBit(r1.flags, VALID_VERTVEL) ==> r1.verVel == r2.verVel)
  {
    var all := events + [Heard(msg)];
    assert all[..|events|] == events;
    SmallerIsIncluded(c1, c2, all);
    FoldSize(Run(c1, events), c1, msg);
    FlagsWithin(Run(c1, all).known[msg.icao], Run(c2, all).known[msg.icao], msg.lastSeen);
  }

  lemma FlagsWithin(small: AdsbRecord, large: AdsbRecord, asOf: nat)
    requires RecordWithin(small, large)
    ensures var f1, f2 := ReportFlags(small, asOf), ReportFlags(large, asOf);
            && f1 & f2 == f1
            && (HasBit(f1, VALID_ALTITUDE) ==> small.altitude == large.altitude)
            && (HasBit(f1, VALID_HEADING) ==> small.heading == large.heading)
            && (HasBit(f1, VALID_SPEED) ==> small.speed == large.speed)
            && (HasBit(f1, VALID_CALLSIGN) ==> small.callsign == large.callsign)
            && (HasBit(f1, VALID_SQUAWK) ==> small.squawk == large.squawk)
            && (HasBit(f1, VALID_VERTVEL) ==> small.vertVel == large.vertVel)
  {
    FlagsDecode(small, asOf);
    FlagsDecode(large, asOf);
  }

  // ---------------------------------------------------------------- what a report says

  /** The messages of the triggering aircraft since its current admission, the triggering one included. */
  ghost function TrackMessages(capacity: nat, events: seq<Event>, msg: AdsbRecord): seq<AdsbRecord>
    requires capacity >= 1
  {
    var all := events + [Heard(msg)];
    FoldIsLastStep(capacity, events, msg);
    MessagesOf(msg.icao, all[AdmittedAt(capacity, all, msg.icao)..])
  }

  lemma FoldIsLastStep(capacity: nat, events: seq<Event>, msg: AdsbRecord)
    requires capacity >= 1
    ensures Run(capacity, events + [Heard(msg)]) == Fold(Run(capacity, events), capacity, msg)
    ensures msg.icao in Run(capacity, events + [Heard(msg)]).known
  {
    assert (events + [Heard(msg)])[..|events|] == events;
  }

  /** Every report is the one built from the replay of its aircraft's current track. */
  lemma ReportIsOfReplay(capacity: nat, events: seq<Event>, msg: AdsbRecord)
    requires capacity >= 1
    ensures ReportFor(capacity, events, msg)
         == BuildReport(ReplayOf(msg.icao, TrackMessages(capacity, events, msg)), msg)
  {
    FoldIsLastStep(capacity, events, msg);
    RecordsReplayHistory(capacity, events + [Heard(msg)], msg.icao);
  }

  /** So every report tells what the messages of its aircraft's current track carried last. */
  lemma ReportTellsTrack(capacity: nat, events: seq<Event>, msg: AdsbRecord)
    requires capacity >= 1 && msg.position.Some?
    ensures ReportFor(capacity, events, msg).Some?
    ensures var p := ReportFor(capacity, events, msg).value;
            && p.position == msg.position.value && p.icao == msg.icao
            && ReportTells(p, TrackMessages(capacity, events, msg))
  {
    hide ReportTells, TrackMessages;
    ReportIsOfReplay(capacity, events, msg);
    ReportOfReplayTells(msg.icao, TrackMessages(capacity, events, msg), msg);
  }

  ghost predicate StampedUpTo(events: seq<Event>, stamp: nat) {
    forall i | 0 <= i < |events| && events[i].Heard? :: Stamped(events[i].msg) && events[i].msg.lastSeen <= stamp
  }

  lemma {:induction false} MessagesInOrder(a: nat, events: seq<Event>, stamp: nat)
    requires InStampOrder(events) && StampedUpTo(events, stamp)
    ensures var msgs := MessagesOf(a, events);
            && InOrder(msgs)
            && forall i | 0 <= i < |msgs| :: Stamped(msgs[i]) && msgs[i].lastSeen <= stamp
  {
    if events != [] {
      var front, e := events[..|events| - 1], events[|events| - 1];
      MessagesInOrder(a, front, if e.Heard? then e.msg.lastSeen else stamp);
    }
  }

  lemma SuffixInOrder(events: seq<Event>, i: nat, stamp: nat)
    requires i <= |events| && InStampOrder(events) && StampedUpTo(events, stamp)
    ensures InStampOrder(events[i..]) && StampedUpTo(events[i..], stamp)
  {
  }

  /**
   What the flags of a report mean over a whole run: a motion bit is set exactly when a message of
   the aircraft's current track, less than a minute old at the fix, carried that field; an identity
   bit exactly when one less than five minutes old carried a squawk or an acceptable callsign.
   */
  lemma FlagsMeanFreshness(capacity: nat, events: seq<Event>, msg: AdsbRecord)
    requires capacity >= 1 && msg.position.Some?
    requires InStampOrder(events + [Heard(msg)]) && StampedUpTo(events + [Heard(msg)], msg.lastSeen)
    ensures FlagsSayRecent(ReportFor(capacity, events, msg).value.flags, TrackMessages(capacity, events, msg),
                           msg.lastSeen)
  {
    var all := events + [Heard(msg)];
    FoldIsLastStep(capacity, events, msg);
    ReportIsOfReplay(capacity, events, msg);
    SuffixInOrder(all, AdmittedAt(capacity, all, msg.icao), msg.lastSeen);
    MessagesInOrder(msg.icao, all[AdmittedAt(capacity, all, msg.icao)..], msg.lastSeen);
    FlagsMeanHeardRecently(msg.icao, TrackMessages(capacity, events, msg), msg.lastSeen);
  }
}
