/**
 When dump1090::reconnect tries again (src/dump1090.cpp, lines 658-692; src/dump1090.hpp, lines
 146-149), over any history of once-a-second calls and dropped connections.
 */
module Backoff {
  import opened Limits
  import opened Numerals

  const RETRY_DELAY_START := 1000
  const RETRY_DELAY_CAP := 30000

  datatype State = State(connected: bool, delay: nat, lastTried: nat)

  /** What the constructor leaves, whether or not its own first connection succeeded. */
  function Initial(connected: bool): State {
    State(connected, RETRY_DELAY_START, 0)
  }

  /** A call of reconnect at `now`, where a connection attempt would succeed or not; or a lost connection. */
  datatype Event = Called(now: nat, connects: bool) | Dropped

  /** The difference of two uint64_t. */
  function Elapsed(now: nat, since: nat): nat {
    (now - since) % UINT64_RANGE
  }

  /** It is the 64-bit number that, added to the earlier time with wrap-around, gives the later. */
  lemma ElapsedWraps(now: nat, since: nat)
    requires now < UINT64_RANGE && since < UINT64_RANGE
    ensures Elapsed(now, since) < UINT64_RANGE && (since + Elapsed(now, since)) % UINT64_RANGE == now
    ensures since <= now ==> Elapsed(now, since) == now - since
  {
  }

  predicate Tries(s: State, e: Event) {
    e.Called? && !s.connected && Elapsed(e.now, s.lastTried) > s.delay
  }

  function Min(x: nat, y: nat): nat {
    if y < x then y else x
  }

  function Step(s: State, e: Event): State {
    if Tries(s, e) then
      State(e.connects, if e.connects then RETRY_DELAY_START else Min(s.delay * 2, RETRY_DELAY_CAP), e.now)
    else if e.Dropped? then s.(connected := false)
    else s
  }

  function Run(s: State, events: seq<Event>): State {
    if events == [] then s else Step(Run(s, events[..|events| - 1]), events[|events| - 1])
  }

  /** The calls that made an attempt, in order. */
  function Attempts(s: State, events: seq<Event>): (tried: seq<Event>)
    ensures forall i | 0 <= i < |tried| :: tried[i].Called?
  {
    if events == [] then []
    else
      var front, e := events[..|events| - 1], events[|events| - 1];
      Attempts(s, front) + if Tries(Run(s, front), e) then [e] else []
  }

  lemma AttemptsExtend(s: State, events: seq<Event>, e: Event)
    ensures Attempts(s, events + [e]) == Attempts(s, events) + if Tries(Run(s, events), e) then [e] else []
    ensures Run(s, events + [e]) == Step(Run(s, events), e)
  {
    assert (events + [e])[..|events|] == events;
  }

  /** How many of the last attempts failed one after the other. */
  function Failures(tried: seq<Event>): nat {
    if tried == [] || (tried[|tried| - 1].Called? && tried[|tried| - 1].connects) then 0
    else 1 + Failures(tried[..|tried| - 1])
  }

  /** 1000 doubled n times, but no more than 30000. */
  function DelayAfter(n: nat): nat {
    Min(1000 * Pow(2, n), 30000)
  }

  lemma DelayDoubles(n: nat)
    ensures DelayAfter(n + 1) == Min(DelayAfter(n) * 2, RETRY_DELAY_CAP)
    ensures RETRY_DELAY_START <= DelayAfter(n) <= RETRY_DELAY_CAP
  {
    PowMonotone(2, 0, n);
    assert Pow(2, n + 1) == 2 * Pow(2, n);
  }

  lemma AttemptsSnoc(tried: seq<Event>, e: Event)
    ensures Failures(tried + [e]) == if e.Called? && e.connects then 0 else 1 + Failures(tried)
  {
    assert (tried + [e])[..|tried|] == tried;
  }

  /**
   The backoff law. After n consecutive failed attempts the delay is 1000 doubled n times, capped
   at exactly 30000; a success puts it back to 1000; and so it always lies between the two.
   */
  lemma {:induction false} DelayLaw(connected: bool, events: seq<Event>)
    ensures var s, tried := Run(Initial(connected), events), Attempts(Initial(connected), events);
            && s.delay == DelayAfter(Failures(tried))
            && RETRY_DELAY_START <= s.delay <= RETRY_DELAY_CAP
            && s.lastTried == if tried == [] then 0 else tried[|tried| - 1].now
  {
    DelayDoubles(Failures(Attempts(Initial(connected), events)));
    if events != [] {
      var front, e := events[..|events| - 1], events[|events| - 1];
      DelayLaw(connected, front);
      var tried := Attempts(Initial(connected), front);
      DelayDoubles(Failures(tried));
      AttemptsSnoc(tried, e);
      assert tried + [] == tried;
    }
  }

  /** When the last attempt was made; 0 if there was none. */
  function LastAttempt(tried: seq<Event>): nat
    requires forall i | 0 <= i < |tried| :: tried[i].Called?
  {
    if tried == [] then 0 else tried[|tried| - 1].now
  }

  /**
   An attempt is made exactly when there is no connection and the last attempt is longer ago than the
   delay in force. It is then that call that decides whether there is a connection; otherwise the call
   changes nothing.
   */
  lemma AttemptsWhenDue(connected: bool, events: seq<Event>, now: nat, connects: bool)
    requires LastAttempt(Attempts(Initial(connected), events)) <= now < UINT64_RANGE
    ensures var call := Called(now, connects);
            var s, tried := Run(Initial(connected), events), Attempts(Initial(connected), events);
            var t := Run(Initial(connected), events + [call]);
            if !s.connected && now - LastAttempt(tried) > DelayAfter(Failures(tried))
            then Attempts(Initial(connected), events + [call]) == tried + [call] && t.connected == connects
            else Attempts(Initial(connected), events + [call]) == tried && t == s
  {
    DelayLaw(connected, events);
    AttemptsExtend(Initial(connected), events, Called(now, connects));
  }

  /** A connection is lost only by being dropped, and had only by an attempt that succeeds. */
  lemma ConnectedByAttempt(connected: bool, events: seq<Event>, e: Event)
    ensures var s, t := Run(Initial(connected), events), Run(Initial(connected), events + [e]);
            && (s.connected && !t.connected ==> e.Dropped?)
            && (!s.connected && t.connected ==>
                  e.Called? && e.connects
                  && Attempts(Initial(connected), events + [e]) == Attempts(Initial(connected), events) + [e])
            && (e.Dropped? ==> !t.connected)
  {
    AttemptsExtend(Initial(connected), events, e);
  }

  /** The clock is monotonic and fits its type. */
  ghost predicate ClockInOrder(events: seq<Event>) {
    && (forall i | 0 <= i < |events| && events[i].Called? :: events[i].now < UINT64_RANGE)
    && (forall i, j | 0 <= i < j < |events| && events[i].Called? && events[j].Called? :: events[i].now <= events[j].now)
  }

  lemma {:induction false} AttemptsArePast(s: State, events: seq<Event>, now: nat)
    requires forall i | 0 <= i < |events| && events[i].Called? :: events[i].now <= now
    ensures forall i | 0 <= i < |Attempts(s, events)| :: Attempts(s, events)[i].now <= now
  {
    if events != [] {
      AttemptsArePast(s, events[..|events| - 1], now);
    }
  }

  /** Two successive attempts are further apart than the delay that was in force between them. */
  lemma {:induction false} AttemptsAreApart(connected: bool, events: seq<Event>, i: nat)
    requires ClockInOrder(events) && i + 1 < |Attempts(Initial(connected), events)|
    ensures var tried := Attempts(Initial(connected), events);
            tried[i + 1].now - tried[i].now > DelayAfter(Failures(tried[..i + 1]))
  {
    var front, e := events[..|events| - 1], events[|events| - 1];
    var earlier, tried := Attempts(Initial(connected), front), Attempts(Initial(connected), events);
    if i + 1 < |earlier| {
      AttemptsAreApart(connected, front, i);
      assert tried[..i + 1] == earlier[..i + 1];
    } else {
      DelayLaw(connected, front);
      AttemptsArePast(Initial(connected), front, e.now);
      assert tried[..i + 1] == earlier;
    }
  }

  /** The delays in force after each of the attempts from i up to j. */
  function DelaysBetween(tried: seq<Event>, i: nat, j: nat): nat
    requires i <= j <= |tried|
  {
    if i == j then 0 else DelaysBetween(tried, i, j - 1) + DelayAfter(Failures(tried[..j]))
  }

  /** From one attempt to a later one takes more than all the delays between them. */
  lemma {:induction false} AttemptsTakeTime(connected: bool, events: seq<Event>, i: nat, j: nat)
    requires ClockInOrder(events) && i < j < |Attempts(Initial(connected), events)|
    ensures var tried := Attempts(Initial(connected), events);
            tried[j].now - tried[i].now >= DelaysBetween(tried, i, j) + (j - i)
    decreases j
  {
    AttemptsAreApart(connected, events, j - 1);
    if i < j - 1 {
      AttemptsTakeTime(connected, events, i, j - 1);
    }
  }

  /** 2000 + 4000 + 8000 + 16000 + 30000 + 30000 + ... : the delays of k failures in a row. */
  function DelaysOfFailures(k: nat): nat {
    if k == 0 then 0 else DelaysOfFailures(k - 1) + DelayAfter(k)
  }

  lemma {:induction false} FailuresInARow(tried: seq<Event>, i: nat, k: nat)
    requires i + k <= |tried| && Failures(tried[..i]) == 0
    requires forall m | i <= m < i + k :: tried[m].Called? && !tried[m].connects
    ensures Failures(tried[..i + k]) == k
    ensures DelaysBetween(tried, i, i + k) == DelaysOfFailures(k)
  {
    if k > 0 {
      FailuresInARow(tried, i, k - 1);
      assert tried[..i + k][..i + k - 1] == tried[..i + (k - 1)];
    }
  }

  /** An outage: k failures in a row keep the next attempt away for more than the sum of their delays. */
  lemma OutageTakesTime(connected: bool, events: seq<Event>, i: nat, k: nat)
    requires ClockInOrder(events) && k >= 1 && i + k < |Attempts(Initial(connected), events)|
    requires var tried := Attempts(Initial(connected), events);
             Failures(tried[..i]) == 0 && forall m | i <= m < i + k :: !tried[m].connects
    ensures var tried := Attempts(Initial(connected), events);
            tried[i + k].now - tried[i].now > DelaysOfFailures(k)
  {
    FailuresInARow(Attempts(Initial(connected), events), i, k);
    AttemptsTakeTime(connected, events, i, i + k);
  }
}
