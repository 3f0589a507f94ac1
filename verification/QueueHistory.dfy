/**
 What the report queue means: one ordered list with at most one entry per aircraft address, and
 what holds of it over any history of pushes, pops and clears (src/report_queue.hpp, lines 25-34).
 Class ReportQueue, a map and a deque, is proved against these operations.
 */
module QueueHistory {
  import opened Wrappers

  datatype Entry<T> = Entry(address: nat, item: T)

  /** Where an address stands in line; the length of the line when it is not queued. */
  function Position<T>(q: seq<Entry<T>>, a: nat): (i: nat)
    ensures i <= |q|
    ensures i < |q| ==> q[i].address == a
    ensures forall j | 0 <= j < i :: q[j].address != a
  {
    if q == [] then 0 else if q[0].address == a then 0 else 1 + Position(q[1..], a)
  }

  predicate Queued<T>(q: seq<Entry<T>>, a: nat) {
    Position(q, a) < |q|
  }

  predicate Distinct<T>(q: seq<Entry<T>>) {
    forall i, j | 0 <= i < j < |q| :: q[i].address != q[j].address
  }

  /** The line is at capacity and a new address arrives. */
  predicate Overflows<T>(q: seq<Entry<T>>, capacity: nat, a: nat) {
    !Queued(q, a) && |q| >= capacity && q != []
  }

  function PushTo<T>(q: seq<Entry<T>>, capacity: nat, a: nat, item: T): seq<Entry<T>> {
    if Queued(q, a) then q[Position(q, a) := Entry(a, item)]
    else (if Overflows(q, capacity, a) then q[1..] else q) + [Entry(a, item)]
  }

  datatype Op<T> = Push(a: nat, item: T) | Pop | Clear

  function Apply<T>(q: seq<Entry<T>>, capacity: nat, op: Op<T>): seq<Entry<T>> {
    match op
    case Push(a, item) => PushTo(q, capacity, a, item)
    case Pop => if q == [] then q else q[1..]
    case Clear => []
  }

  function RunFrom<T>(q: seq<Entry<T>>, capacity: nat, ops: seq<Op<T>>): seq<Entry<T>> {
    if ops == [] then q else Apply(RunFrom(q, capacity, ops[..|ops| - 1]), capacity, ops[|ops| - 1])
  }

  /** What the pops of a history returned, in order. */
  function Popped<T>(q: seq<Entry<T>>, capacity: nat, ops: seq<Op<T>>): seq<Entry<T>> {
    if ops == [] then []
    else
      var before := RunFrom(q, capacity, ops[..|ops| - 1]);
      Popped(q, capacity, ops[..|ops| - 1]) + if ops[|ops| - 1].Pop? && before != [] then [before[0]] else []
  }

  // ---------------------------------------------------------------- one operation

  /** Every operation keeps the line within capacity and free of duplicates. */
  lemma ApplyKeepsDistinct<T>(q: seq<Entry<T>>, capacity: nat, op: Op<T>)
    requires capacity >= 1 && Distinct(q) && |q| <= capacity
    ensures Distinct(Apply(q, capacity, op)) && |Apply(q, capacity, op)| <= capacity
  {
  }

  lemma {:induction false} RunKeepsDistinct<T>(q: seq<Entry<T>>, capacity: nat, ops: seq<Op<T>>)
    requires capacity >= 1 && Distinct(q) && |q| <= capacity
    ensures Distinct(RunFrom(q, capacity, ops)) && |RunFrom(q, capacity, ops)| <= capacity
  {
    if ops != [] {
      RunKeepsDistinct(q, capacity, ops[..|ops| - 1]);
      ApplyKeepsDistinct(RunFrom(q, capacity, ops[..|ops| - 1]), capacity, ops[|ops| - 1]);
    }
  }

  // ---------------------------------------------------------------- fairness

  function Pops<T>(ops: seq<Op<T>>): nat {
    if ops == [] then 0 else Pops(ops[..|ops| - 1]) + if ops[|ops| - 1].Pop? then 1 else 0
  }

  /** The address is in line after every prefix of the history. */
  ghost predicate StaysQueued<T>(q: seq<Entry<T>>, capacity: nat, ops: seq<Op<T>>, a: nat) {
    forall n | 0 <= n <= |ops| :: Queued(RunFrom(q, capacity, ops[..n]), a)
  }

  lemma PositionAppend<T>(q: seq<Entry<T>>, e: Entry<T>, a: nat)
    ensures Position(q + [e], a) == if Queued(q, a) then Position(q, a) else if e.address == a then |q| else |q| + 1
  {
    if q != [] {
      PositionAppend(q[1..], e, a);
      assert (q + [e])[1..] == q[1..] + [e];
    }
  }

  lemma PositionUpdate<T>(q: seq<Entry<T>>, i: nat, e: Entry<T>, a: nat)
    requires i < |q| && q[i].address == e.address
    ensures Position(q[i := e], a) == Position(q, a)
  {
    if i > 0 {
      PositionUpdate(q[1..], i - 1, e, a);
      assert q[i := e][1..] == q[1..][i - 1 := e];
    } else {
      assert q[i := e][1..] == q[1..];
    }
  }

  /** Once the head is gone its address is no longer in line. */
  lemma HeadGone<T>(q: seq<Entry<T>>)
    requires Distinct(q) && q != []
    ensures !Queued(q[1..], q[0].address)
  {
  }

  /** One operation: the address advances if it was a pop, and never moves back, whoever is pushed. */
  lemma NeverMovesBack<T>(q: seq<Entry<T>>, capacity: nat, op: Op<T>, a: nat)
    requires Distinct(q) && Queued(q, a) && Queued(Apply(q, capacity, op), a)
    ensures Position(Apply(q, capacity, op), a) + (if op.Pop? then 1 else 0) <= Position(q, a)
  {
    HeadGone(q);
    if op.Push? {
      var e := Entry(op.a, op.item);
      if Queued(q, op.a) {
        PositionUpdate(q, Position(q, op.a), e, a);
      } else {
        PositionAppend(q, e, a);
        PositionAppend(q[1..], e, a);
      }
    }
  }

  /**
   No starvation. While an address stays in line its position falls by one with every pop and never
   rises, whatever is pushed meanwhile. So an address at position k is out of the line, sent or
   dropped, by the (k+1)-st pop.
   */
  lemma {:induction false} NoStarvation<T>(q: seq<Entry<T>>, capacity: nat, ops: seq<Op<T>>, a: nat)
    requires capacity >= 1 && Distinct(q) && |q| <= capacity && StaysQueued(q, capacity, ops, a)
    ensures Position(RunFrom(q, capacity, ops), a) + Pops(ops) <= Position(q, a)
  {
    assert ops[..|ops|] == ops;
    if ops != [] {
      var front := ops[..|ops| - 1];
      assert forall n | 0 <= n <= |front| :: front[..n] == ops[..n];
      assert ops[..|front|] == front;
      NoStarvation(q, capacity, front, a);
      RunKeepsDistinct(q, capacity, front);
      NeverMovesBack(RunFrom(q, capacity, front), capacity, ops[|ops| - 1], a);
    }
  }

  // ---------------------------------------------------------------- what is popped

  /** Everything ever pushed for one address, in order. */
  function PushesOf<T>(ops: seq<Op<T>>, a: nat): seq<T> {
    if ops == [] then []
    else
      var op := ops[|ops| - 1];
      PushesOf(ops[..|ops| - 1], a) + if op.Push? && op.a == a then [op.item] else []
  }

  function ItemsOf<T>(entries: seq<Entry<T>>, a: nat): seq<T> {
    if entries == [] then []
    else
      var e := entries[|entries| - 1];
      ItemsOf(entries[..|entries| - 1], a) + if e.address == a then [e.item] else []
  }

  /** s can be had from t by leaving elements out; each element of t is used at most once. */
  predicate IsSubsequence<T(==)>(s: seq<T>, t: seq<T>)
    decreases |t|
  {
    s == [] || (t != [] && (|| (s[|s| - 1] == t[|t| - 1] && IsSubsequence(s[..|s| - 1], t[..|t| - 1]))
                            || IsSubsequence(s, t[..|t| - 1])))
  }

  lemma SubsequenceOfLonger<T>(s: seq<T>, t: seq<T>, x: T)
    requires IsSubsequence(s, t)
    ensures IsSubsequence(s, t + [x]) && IsSubsequence(s + [x], t + [x])
  {
    assert (t + [x])[..|t|] == t && (s + [x])[..|s|] == s;
  }

  /** What is in line for an address. */
  function Waiting<T>(q: seq<Entry<T>>, a: nat): Option<T> {
    if Queued(q, a) then Some(q[Position(q, a)].item) else None
  }

  lemma WaitingIs<T>(q: seq<Entry<T>>, i: nat)
    requires Distinct(q) && i < |q|
    ensures Waiting(q, q[i].address) == Some(q[i].item)
  {
  }

  /** The head leaving the line takes its own address with it and no other. */
  lemma WaitingAfterHead<T>(q: seq<Entry<T>>, a: nat)
    requires Distinct(q) && q != []
    ensures Waiting(q[1..], a) == if a == q[0].address then None else Waiting(q, a)
  {
  }

  lemma WaitingAppend<T>(q: seq<Entry<T>>, b: nat, item: T, a: nat)
    requires !Queued(q, b)
    ensures Waiting(q + [Entry(b, item)], a) == if a == b then Some(item) else Waiting(q, a)
  {
    if q != [] {
      WaitingAppend(q[1..], b, item, a);
      assert (q + [Entry(b, item)])[1..] == q[1..] + [Entry(b, item)];
    }
  }

  lemma WaitingUpdate<T>(q: seq<Entry<T>>, b: nat, item: T, a: nat)
    requires Queued(q, b)
    ensures Waiting(q[Position(q, b) := Entry(b, item)], a) == if a == b then Some(item) else Waiting(q, a)
  {
    if q[0].address != b {
      WaitingUpdate(q[1..], b, item, a);
      assert q[Position(q, b) := Entry(b, item)][1..] == q[1..][Position(q[1..], b) := Entry(b, item)];
    }
  }

  /** A push coalesces into its own entry, and touches another only by evicting the head of a full line. */
  lemma WaitingAfterPush<T>(q: seq<Entry<T>>, capacity: nat, b: nat, item: T, a: nat)
    requires Distinct(q)
    ensures Waiting(PushTo(q, capacity, b, item), a)
         == if a == b then Some(item)
            else if Overflows(q, capacity, b) && q[0].address == a then None
            else Waiting(q, a)
  {
    if Queued(q, b) {
      WaitingUpdate(q, b, item, a);
    } else if Overflows(q, capacity, b) {
      WaitingAfterHead(q, a);
      WaitingAfterHead(q, b);
      WaitingAppend(q[1..], b, item, a);
    } else {
      WaitingAppend(q, b, item, a);
    }
  }

  /** The inductive invariant: what waits is the newest push, and only older pushes were popped. */
  ghost predicate PoppedInOrder<T>(waiting: Option<T>, pushes: seq<T>, popped: seq<T>) {
    match waiting
    case None => IsSubsequence(popped, pushes)
    case Some(item) => pushes != [] && item == pushes[|pushes| - 1] && IsSubsequence(popped, pushes[..|pushes| - 1])
  }

  lemma ItemsOfSnoc<T>(entries: seq<Entry<T>>, e: Entry<T>, a: nat)
    ensures ItemsOf(entries + [e], a) == ItemsOf(entries, a) + if e.address == a then [e.item] else []
  {
    assert (entries + [e])[..|entries|] == entries;
  }

  lemma DropWaiting<T>(item: T, pushes: seq<T>, popped: seq<T>)
    requires PoppedInOrder(Some(item), pushes, popped)
    ensures PoppedInOrder(None, pushes, popped) && PoppedInOrder(None, pushes, popped + [item])
  {
    SubsequenceOfLonger(popped, pushes[..|pushes| - 1], item);
    assert pushes == pushes[..|pushes| - 1] + [item];
  }

  lemma PushStep<T>(q: seq<Entry<T>>, capacity: nat, b: nat, item: T, a: nat, pushes: seq<T>, popped: seq<T>)
    requires Distinct(q) && PoppedInOrder(Waiting(q, a), pushes, popped)
    ensures PoppedInOrder(Waiting(PushTo(q, capacity, b, item), a), pushes + if b == a then [item] else [], popped)
  {
    if Queued(q, a) {
      DropWaiting(Waiting(q, a).value, pushes, popped);
    }
    WaitingAfterPush(q, capacity, b, item, a);
    assert (pushes + [item])[..|pushes|] == pushes && pushes + [] == pushes;
  }

  lemma PopStep<T>(q: seq<Entry<T>>, a: nat, pushes: seq<T>, popped: seq<T>)
    requires Distinct(q) && q != [] && PoppedInOrder(Waiting(q, a), pushes, popped)
    ensures PoppedInOrder(Waiting(q[1..], a), pushes, popped + if q[0].address == a then [q[0].item] else [])
  {
    if Queued(q, a) {
      DropWaiting(Waiting(q, a).value, pushes, popped);
    }
    WaitingAfterHead(q, a);
    WaitingIs(q, 0);
    assert popped + [] == popped;
  }

  lemma {:induction false} QueuedOrPopped<T>(capacity: nat, ops: seq<Op<T>>, a: nat)
    requires capacity >= 1
    ensures PoppedInOrder(Waiting(RunFrom([], capacity, ops), a), PushesOf(ops, a),
                          ItemsOf(Popped([], capacity, ops), a))
  {
    if ops != [] {
      var front, op := ops[..|ops| - 1], ops[|ops| - 1];
      QueuedOrPopped(capacity, front, a);
      RunKeepsDistinct<T>([], capacity, front);
      var q := RunFrom([], capacity, front);
      var pushes, out := PushesOf(front, a), Popped([], capacity, front);
      if op.Push? {
        PushStep(q, capacity, op.a, op.item, a, pushes, ItemsOf(out, a));
        assert out + [] == out;
      } else if op.Pop? && q != [] {
        PopStep(q, a, pushes, ItemsOf(out, a));
        ItemsOfSnoc(out, q[0], a);
        assert pushes + [] == pushes;
      } else {
        if Queued(q, a) {
          DropWaiting(Waiting(q, a).value, pushes, ItemsOf(out, a));
        }
        assert pushes + [] == pushes && out + [] == out;
      }
    }
  }

  /** What a pop would return for an address is the newest item pushed for that address. */
  lemma NewestIsPopped<T>(capacity: nat, ops: seq<Op<T>>, i: nat)
    requires capacity >= 1 && i < |RunFrom([], capacity, ops)|
    ensures var e := RunFrom([], capacity, ops)[i];
            var pushes := PushesOf(ops, e.address);
            pushes != [] && e.item == pushes[|pushes| - 1]
  {
    RunKeepsDistinct<T>([], capacity, ops);
    var q := RunFrom([], capacity, ops);
    QueuedOrPopped(capacity, ops, q[i].address);
    WaitingIs(q, i);
  }

  /** Per address, what was popped is a subsequence of what was pushed: nothing twice, nothing out of order. */
  lemma PoppedIsSubsequence<T>(capacity: nat, ops: seq<Op<T>>, a: nat)
    requires capacity >= 1
    ensures IsSubsequence(ItemsOf(Popped([], capacity, ops), a), PushesOf(ops, a))
  {
    QueuedOrPopped(capacity, ops, a);
    match Waiting(RunFrom([], capacity, ops), a)
    case None =>
    case Some(item) => DropWaiting(item, PushesOf(ops, a), ItemsOf(Popped([], capacity, ops), a));
  }

  // ---------------------------------------------------------------- eviction

  function AddressesPushed<T>(ops: seq<Op<T>>): set<nat> {
    if ops == [] then {}
    else
      var op := ops[|ops| - 1];
      AddressesPushed(ops[..|ops| - 1]) + if op.Push? then {op.a} else {}
  }

  /** How many entries the pushes of a history evicted. */
  function Evictions<T>(capacity: nat, ops: seq<Op<T>>): nat {
    if ops == [] then 0
    else
      var front, op := ops[..|ops| - 1], ops[|ops| - 1];
      Evictions(capacity, front) + if op.Push? && Overflows(RunFrom([], capacity, front), capacity, op.a) then 1 else 0
  }

  function Addresses<T>(q: seq<Entry<T>>): set<nat> {
    set i | 0 <= i < |q| :: q[i].address
  }

  lemma {:induction false} DistinctCount<T>(q: seq<Entry<T>>)
    requires Distinct(q)
    ensures |Addresses(q)| == |q|
  {
    if q != [] {
      var front, last := q[..|q| - 1], q[|q| - 1];
      DistinctCount(front);
      assert Addresses(q) == Addresses(front) + {last.address};
      assert last.address !in Addresses(front);
    }
  }

  lemma {:induction false} OnlyPushedIsQueued<T>(capacity: nat, ops: seq<Op<T>>)
    requires capacity >= 1
    ensures Addresses(RunFrom([], capacity, ops)) <= AddressesPushed(ops)
  {
    if ops != [] {
      OnlyPushedIsQueued(capacity, ops[..|ops| - 1]);
    }
  }

  lemma SubsetCount(small: set<nat>, large: set<nat>)
    requires small <= large
    ensures |small| <= |large|
  {
    assert large == small + (large - small);
  }

  /** As long as no more distinct addresses than the capacity were ever pushed, no entry is evicted. */
  lemma {:induction false} NoEvictionBelowCapacity<T>(capacity: nat, ops: seq<Op<T>>)
    requires capacity >= 1 && |AddressesPushed(ops)| <= capacity
    ensures Evictions(capacity, ops) == 0
  {
    if ops != [] {
      var front, op := ops[..|ops| - 1], ops[|ops| - 1];
      SubsetCount(AddressesPushed(front), AddressesPushed(ops));
      NoEvictionBelowCapacity(capacity, front);
      var q := RunFrom([], capacity, front);
      if op.Push? && Overflows(q, capacity, op.a) {
        RunKeepsDistinct<T>([], capacity, front);
        OnlyPushedIsQueued(capacity, front);
        DistinctCount(q);
        assert op.a !in Addresses(q);
        SubsetCount(Addresses(q) + {op.a}, AddressesPushed(ops));
      }
    }
  }

  /** The line never grows longer than this. */
  ghost predicate StaysWithin<T>(capacity: nat, ops: seq<Op<T>>, bound: nat) {
    forall n | 0 <= n <= |ops| :: |RunFrom([], capacity, ops[..n])| <= bound
  }

  lemma StaysWithinFront<T>(capacity: nat, ops: seq<Op<T>>, bound: nat)
    requires ops != []
    ensures StaysWithin(capacity, ops, bound)
       <==> StaysWithin(capacity, ops[..|ops| - 1], bound) && |RunFrom([], capacity, ops)| <= bound
  {
    hide RunFrom;
    var front := ops[..|ops| - 1];
    assert ops[..|ops|] == ops;
    assert forall n | 0 <= n <= |front| :: ops[..n] == front[..n];
    if StaysWithin(capacity, front, bound) && |RunFrom([], capacity, ops)| <= bound {
      forall n | 0 <= n <= |ops| ensures |RunFrom([], capacity, ops[..n])| <= bound {
        if n < |ops| {
          assert ops[..n] == front[..n];
        }
      }
    }
  }

  /** A push that overflows neither line leaves the same in both. */
  lemma SamePush<T>(q: seq<Entry<T>>, small: nat, large: nat, op: Op<T>)
    requires op.Push? ==> !Overflows(q, small, op.a) && !Overflows(q, large, op.a)
    ensures Apply(q, small, op) == Apply(q, large, op)
  {
  }

  /** In a line with room for it, a new address makes the line longer. */
  lemma OverflowGrows<T>(q: seq<Entry<T>>, small: nat, large: nat, a: nat, item: T)
    requires Overflows(q, small, a) && !Overflows(q, large, a)
    ensures |PushTo(q, large, a, item)| > small
  {
  }

  /** Without an eviction, a line is as if there were room for every address that is ever pushed. */
  lemma {:induction false} AsIfRoomForAll<T>(capacity: nat, room: nat, ops: seq<Op<T>>)
    requires 1 <= capacity <= room && |AddressesPushed(ops)| <= room
    ensures Evictions(capacity, ops) == 0 <==> StaysWithin(room, ops, capacity)
    ensures Evictions(capacity, ops) == 0 ==> RunFrom([], capacity, ops) == RunFrom([], room, ops)
  {
    if ops == [] {
      assert ops[..0] == [];
    } else {
      hide StaysWithin, Overflows, Apply, PushTo;
      var front, op := ops[..|ops| - 1], ops[|ops| - 1];
      SubsetCount(AddressesPushed(front), AddressesPushed(ops));
      AsIfRoomForAll(capacity, room, front);
      StaysWithinFront(room, ops, capacity);
      NoEvictionBelowCapacity(room, ops);
      var q := RunFrom([], room, front);
      if Evictions(capacity, front) == 0 {
        if op.Push? && Overflows(q, capacity, op.a) {
          OverflowGrows(q, capacity, room, op.a, op.item);
          ApplyPush(q, room, op);
        } else {
          SamePush(q, capacity, room, op);
          RunKeepsDistinct<T>([], capacity, ops);
        }
      }
    }
  }

  lemma ApplyPush<T>(q: seq<Entry<T>>, capacity: nat, op: Op<T>)
    requires op.Push?
    ensures Apply(q, capacity, op) == PushTo(q, capacity, op.a, op.item)
  {
  }

  /**
   When exactly nothing is dropped: a queue drops nothing if and only if, with room for every address
   ever pushed, no more than its capacity would ever wait at once.
   */
  lemma NothingDroppedExactly<T>(capacity: nat, room: nat, ops: seq<Op<T>>)
    requires 1 <= capacity <= room && |AddressesPushed(ops)| <= room
    ensures Evictions(capacity, ops) == 0 <==> forall n | 0 <= n <= |ops| :: |RunFrom([], room, ops[..n])| <= capacity
  {
    AsIfRoomForAll(capacity, room, ops);
  }

  lemma {:induction false} PrefixEvictions<T>(capacity: nat, ops: seq<Op<T>>, n: nat)
    requires n <= |ops| && Evictions(capacity, ops) == 0
    ensures Evictions(capacity, ops[..n]) == 0
  {
    if n == |ops| {
      assert ops[..n] == ops;
    } else {
      PrefixEvictions(capacity, ops[..|ops| - 1], n);
      assert ops[..|ops| - 1][..n] == ops[..n];
    }
  }

  lemma {:induction false} PrefixAddresses<T>(ops: seq<Op<T>>, n: nat)
    requires n <= |ops|
    ensures AddressesPushed(ops[..n]) <= AddressesPushed(ops)
  {
    if n == |ops| {
      assert ops[..n] == ops;
    } else {
      PrefixAddresses(ops[..|ops| - 1], n);
      assert ops[..|ops| - 1][..n] == ops[..n];
    }
  }

  lemma SameBefore<T>(capacity: nat, room: nat, ops: seq<Op<T>>, n: nat)
    requires 1 <= capacity <= room && |AddressesPushed(ops)| <= room && n <= |ops|
    requires Evictions(capacity, ops) == 0
    ensures RunFrom([], capacity, ops[..n]) == RunFrom([], room, ops[..n])
  {
    hide RunFrom;
    PrefixEvictions(capacity, ops, n);
    PrefixAddresses(ops, n);
    SubsetCount(AddressesPushed(ops[..n]), AddressesPushed(ops));
    AsIfRoomForAll(capacity, room, ops[..n]);
  }

  /** A line that drops an entry has been full. */
  lemma {:induction false} FullBeforeDropping<T>(capacity: nat, ops: seq<Op<T>>)
    requires capacity >= 1 && StaysWithin(capacity, ops, capacity - 1)
    ensures Evictions(capacity, ops) == 0
  {
    if ops != [] {
      StaysWithinFront(capacity, ops, capacity - 1);
      FullBeforeDropping(capacity, ops[..|ops| - 1]);
      assert ops[..|ops| - 1][..|ops| - 1] == ops[..|ops| - 1];
      assert |RunFrom([], capacity, ops[..|ops| - 1][..|ops| - 1])| <= capacity - 1;
    }
  }

  /** And when exactly it never fills: fewer than its capacity would ever wait at once. */
  lemma NeverFullExactly<T>(capacity: nat, room: nat, ops: seq<Op<T>>)
    requires 1 <= capacity <= room && |AddressesPushed(ops)| <= room
    ensures (forall n | 0 <= n <= |ops| :: |RunFrom([], capacity, ops[..n])| < capacity)
       <==> (forall n | 0 <= n <= |ops| :: |RunFrom([], room, ops[..n])| < capacity)
  {
    hide RunFrom;
    if forall n | 0 <= n <= |ops| :: |RunFrom([], capacity, ops[..n])| < capacity {
      FullBeforeDropping(capacity, ops);
    }
    if forall n | 0 <= n <= |ops| :: |RunFrom([], room, ops[..n])| < capacity {
      NothingDroppedExactly(capacity, room, ops);
    }
    if Evictions(capacity, ops) == 0 {
      forall n | 0 <= n <= |ops| ensures RunFrom([], capacity, ops[..n]) == RunFrom([], room, ops[..n]) {
        SameBefore(capacity, room, ops, n);
      }
    }
  }
}
