/**
 report_queue (src/report_queue.hpp, .cpp): a map of pending reports and a deque of addresses that
 must stay in step. Each method is proved against the single ordered list of QueueHistory.
 */
module ReportQueues {
  import opened Wrappers
  import opened Records
  import opened QueueHistory

  /** A report on its way out, with the receive stamp of the message that triggered it. */
  datatype PendingReport = PendingReport(report: PositionReport, received: nat)

  /** The map and the deque agree: the deque holds each key of the map, exactly once. */
  ghost predicate InStep<T>(items: map<nat, T>, order: seq<nat>) {
    && (forall i, j | 0 <= i < j < |order| :: order[i] != order[j])
    && (forall i | 0 <= i < |order| :: order[i] in items)
    && (forall a | a in items :: a in order)
  }

  /** The two together, as one list. */
  ghost function Line<T>(items: map<nat, T>, order: seq<nat>): (q: seq<Entry<T>>)
    requires InStep(items, order)
    ensures |q| == |order| && Distinct(q)
    ensures forall i | 0 <= i < |q| :: q[i] == Entry(order[i], items[order[i]])
  {
    seq(|order|, i requires 0 <= i < |order| => Entry(order[i], items[order[i]]))
  }

  lemma SizesAgree<T>(items: map<nat, T>, order: seq<nat>)
    requires InStep(items, order)
    ensures |items| == |order|
  {
    var q := Line(items, order);
    DistinctCount(q);
    assert items.Keys == Addresses(q);
  }

  lemma KnownIsQueued<T>(items: map<nat, T>, order: seq<nat>, a: nat)
    requires InStep(items, order)
    ensures Queued(Line(items, order), a) <==> a in items
  {
    if a in items {
      var i :| 0 <= i < |order| && order[i] == a;
      assert Line(items, order)[i].address == a;
    }
  }

  lemma CoalescedLine<T>(items: map<nat, T>, order: seq<nat>, a: nat, item: T)
    requires InStep(items, order) && a in items
    ensures InStep(items[a := item], order)
    ensures Queued(Line(items, order), a)
    ensures Line(items[a := item], order) == Line(items, order)[Position(Line(items, order), a) := Entry(a, item)]
  {
    KnownIsQueued(items, order, a);
  }

  lemma AppendedLine<T>(items: map<nat, T>, order: seq<nat>, a: nat, item: T)
    requires InStep(items, order) && a !in items
    ensures InStep(items[a := item], order + [a])
    ensures Line(items[a := item], order + [a]) == Line(items, order) + [Entry(a, item)]
  {
    assert forall b | b in items :: b in order;
  }

  lemma HeadlessLine<T>(items: map<nat, T>, order: seq<nat>)
    requires InStep(items, order) && order != []
    ensures InStep(items - {order[0]}, order[1..])
    ensures Line(items - {order[0]}, order[1..]) == Line(items, order)[1..]
  {
    forall b | b in items - {order[0]} ensures b in order[1..] {
      var i :| 0 <= i < |order| && order[i] == b;
      assert order[1..][i - 1] == b;
    }
  }

  class ReportQueue {
    var items: map<nat, PendingReport>
    var order: seq<nat>
    const capacity: nat
    var stopped: bool

    ghost predicate Valid()
      reads this
    {
      1 <= capacity && |order| <= capacity && InStep(items, order)
    }

    /** The queue as one list. */
    ghost function Contents(): (q: seq<Entry<PendingReport>>)
      requires Valid()
      reads this
    {
      Line(items, order)
    }

    constructor (capacity: nat)
      requires capacity >= 1
      ensures Valid() && this.capacity == capacity && Contents() == [] && !stopped
    {
      this.capacity := capacity;
      items, order, stopped := map[], [], false;
    }

    method Push(a: nat, item: PendingReport)
      requires Valid()
      modifies this
      ensures Valid() && stopped == old(stopped)
      ensures Contents() == PushTo(old(Contents()), capacity, a, item)
    {
      SizesAgree(items, order);
      KnownIsQueued(items, order, a);
      if a in items {
        CoalescedLine(items, order, a, item);
        items := items[a := item];
      } else {
        if |items| >= capacity && order != [] {
          HeadlessLine(items, order);
          var oldest := order[0];
          order := order[1..];
          items := items - {oldest};
        }
        AppendedLine(items, order, a, item);
        items := items[a := item];
        order := order + [a];
      }
    }

    /**
     pop, from the moment its wait is over: something is queued, or the queue was shut down. The
     blocking itself is part of the protocol in module Worker.
     */
    method Pop() returns (item: Option<PendingReport>)
      requires Valid() && (stopped || order != [])
      modifies this
      ensures Valid() && stopped == old(stopped)
      ensures Contents() == Apply(old(Contents()), capacity, QueueHistory.Pop)
      ensures item == None <==> old(Contents()) == []
      ensures item.Some? ==> item.value == old(Contents())[0].item
    {
      if order == [] {
        return None;
      }
      HeadlessLine(items, order);
      var a := order[0];
      order := order[1..];
      item := Some(items[a]);
      items := items - {a};
    }

    method Shutdown()
      requires Valid()
      modifies this
      ensures Valid() && stopped && Contents() == old(Contents())
    {
      stopped := true;
    }

    method Clear()
      requires Valid()
      modifies this
      ensures Valid() && stopped == old(stopped) && Contents() == []
    {
      items := map[];
      order := [];
    }

    method Size() returns (n: nat)
      requires Valid()
      ensures n == |Contents()|
    {
      SizesAgree(items, order);
      n := |items|;
    }
  }
}
