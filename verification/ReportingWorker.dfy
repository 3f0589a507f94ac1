/**
 reporting_worker (src/reporting_worker.hpp, .cpp) once ingestion has stopped: stop() stores the
 deadline and shuts the queue down, and run() works through what is queued. How run() and the other
 threads interleave before and during that is module Worker.
 */
module ReportingWorkers {
  import opened Limits
  import opened Wrappers
  import opened Records
  import opened QueueHistory
  import opened ReportQueues

  /** The clock reads around one send: monotonic and wall before it, monotonic after it. */
  datatype Reads = Reads(mono: nat, wall: nat, after: nat)

  /** A report as it is handed to reportAircraft. */
  datatype Outgoing = Outgoing(report: PositionReport, tslc: nat, timestamp: nat)

  function OutgoingOf(item: PendingReport, mono: nat, wall: nat): Outgoing {
    Outgoing(item.report, DeriveTslc(item.received, mono), DeriveReportTimestamp(item.received, mono, wall))
  }

  /** What is sent is the report that was queued, dated back to its receipt, with the age it has when it is sent. */
  lemma SentWithItsAge(item: PendingReport, mono: nat, wall: nat)
    requires item.received <= mono <= wall
    ensures var out, age := OutgoingOf(item, mono, wall), mono - item.received;
            && out.report == item.report && out.timestamp + age == wall
            && (if out.tslc < 255 then out.tslc * 1000 <= age < (out.tslc + 1) * 1000 else age >= 255000)
            && out.tslc <= 255
  {
  }

  /** The first n reports of a queue, each with its own clock reads. */
  function Sends(q: seq<Entry<PendingReport>>, clocks: nat -> Reads, n: nat): (sends: seq<Outgoing>)
    requires n <= |q|
    ensures |sends| == n && forall i | 0 <= i < n :: sends[i] == OutgoingOf(q[i].item, clocks(i).mono, clocks(i).wall)
  {
    if n == 0 then [] else Sends(q, clocks, n - 1) + [OutgoingOf(q[n - 1].item, clocks(n - 1).mono, clocks(n - 1).wall)]
  }

  /** Each of them with its own age, and in the order of the queue. */
  lemma SendsAreDated(q: seq<Entry<PendingReport>>, clocks: nat -> Reads, n: nat, i: nat)
    requires i < n <= |q| && q[i].item.received <= clocks(i).mono <= clocks(i).wall
    ensures var out, age := Sends(q, clocks, n)[i], clocks(i).mono - q[i].item.received;
            && |Sends(q, clocks, n)| == n
            && out.report == q[i].item.report && out.timestamp == clocks(i).wall - age
            && (if out.tslc < 255 then out.tslc * 1000 <= age < (out.tslc + 1) * 1000 else age >= 255000)
  {
    SentWithItsAge(q[i].item, clocks(i).mono, clocks(i).wall);
  }

  /** How many of `total` reports are sent, counting from the i-th: up to the first that ends past the deadline. */
  function Allowed(clocks: nat -> Reads, deadline: nat, i: nat, total: nat): (n: nat)
    requires i <= total
    ensures n <= total - i
    decreases total - i
  {
    if i == total then 0
    else if clocks(i).after >= deadline then 1
    else 1 + Allowed(clocks, deadline, i + 1, total)
  }

  /** Sending goes on exactly until the queue is empty or a send has ended at or past the deadline. */
  lemma {:induction false} AllowedUntilDeadline(clocks: nat -> Reads, deadline: nat, i: nat, total: nat)
    requires i <= total
    ensures var n := Allowed(clocks, deadline, i, total);
            && (forall k | i <= k < i + n - 1 :: clocks(k).after < deadline)
            && (i + n < total ==> n > 0 && clocks(i + n - 1).after >= deadline)
    decreases total - i
  {
    if i < total && clocks(i).after < deadline {
      AllowedUntilDeadline(clocks, deadline, i + 1, total);
    }
  }

  /** No send starts once one has ended at or past the deadline. */
  lemma NoSendAfterLate(clocks: nat -> Reads, deadline: nat, total: nat, late: nat)
    requires late < total && clocks(late).after >= deadline
    ensures Allowed(clocks, deadline, 0, total) <= late + 1
  {
    AllowedUntilDeadline(clocks, deadline, 0, total);
  }

  /** One turn of the loop: the report popped is the next, and whether the loop goes on is its clock's to say. */
  lemma OneMoreSend(q: seq<Entry<PendingReport>>, clocks: nat -> Reads, deadline: nat, i: nat, capacity: nat)
    requires i < |q|
    ensures Apply(q[i..], capacity, QueueHistory.Pop) == q[i + 1..] && q[i..][0] == q[i]
    ensures Sends(q, clocks, i + 1) == Sends(q, clocks, i) + [OutgoingOf(q[i].item, clocks(i).mono, clocks(i).wall)]
    ensures Allowed(clocks, deadline, i, |q|)
         == 1 + if clocks(i).after >= deadline then 0 else Allowed(clocks, deadline, i + 1, |q|)
  {
  }

  lemma NothingLeft(q: seq<Entry<PendingReport>>, clocks: nat -> Reads, deadline: nat, capacity: nat)
    ensures Apply(q[|q|..], capacity, QueueHistory.Pop) == [] && q[|q|..] == []
    ensures Allowed(clocks, deadline, |q|, |q|) == 0
  {
  }

  lemma NothingSent(q: seq<Entry<PendingReport>>, clocks: nat -> Reads)
    ensures Sends(q, clocks, 0) == [] && q[0..] == q
  {
  }

  class ReportingWorker {
    const queue: ReportQueue
    const drainTimeout: nat
    var drainDeadline: nat
    /** What reportAircraft was called with. */
    var sent: seq<Outgoing>

    constructor (queue: ReportQueue, drainTimeout: nat)
      ensures this.queue == queue && this.drainTimeout == drainTimeout
      ensures sent == [] && drainDeadline == UINT64_MAX
    {
      this.queue, this.drainTimeout := queue, drainTimeout;
      drainDeadline, sent := UINT64_MAX, [];
    }

    /** The loop of run(), on a queue that was shut down and that nobody pushes to any more. */
    method Run(clocks: nat -> Reads)
      requires queue.Valid() && queue.stopped
      modifies this`sent, queue
      ensures queue.Valid() && queue.stopped && queue.Contents() == []
      ensures var q := old(queue.Contents());
              sent == old(sent) + Sends(q, clocks, Allowed(clocks, drainDeadline, 0, |q|))
    {
      hide *;
      ghost var q := queue.Contents();
      NothingSent(q, clocks);
      var i := 0;
      while true
        invariant queue.Valid() && queue.stopped
        invariant i <= |q| && queue.Contents() == q[i..]
        invariant sent == old(sent) + Sends(q, clocks, i)
        invariant Allowed(clocks, drainDeadline, 0, |q|) == i + Allowed(clocks, drainDeadline, i, |q|)
        decreases |q| - i
      {
        if i < |q| {
          OneMoreSend(q, clocks, drainDeadline, i, queue.capacity);
        } else {
          NothingLeft(q, clocks, drainDeadline, queue.capacity);
        }
        var item := queue.Pop();
        if item == None {
          break;
        }
        var r := clocks(i);
        sent := sent + [OutgoingOf(item.value, r.mono, r.wall)];
        i := i + 1;
        if r.after >= drainDeadline {
          queue.Clear();
          break;
        }
      }
    }

    /** stop(): the deadline is in place before the worker can be woken by the shutdown. */
    method Stop(now: nat, clocks: nat -> Reads)
      requires queue.Valid()
      modifies this, queue
      ensures queue.Valid() && queue.stopped && queue.Contents() == []
      ensures drainDeadline == (now + drainTimeout) % UINT64_RANGE
      ensures var q := old(queue.Contents());
              sent == old(sent) + Sends(q, clocks, Allowed(clocks, drainDeadline, 0, |q|))
    {
      drainDeadline := (now + drainTimeout) % UINT64_RANGE;
      queue.Shutdown();
      Run(clocks);
    }
  }
}
