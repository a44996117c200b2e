/**
  The deferred restart (DM-RD-B): overlapping requests merged into one pending restart that fires
  once. The timer is proved to refine "the set of requests not yet served", over every run.
 */
module DeferredRestart {
  import opened Wrappers
  import opened Bytes

  datatype Kind = Cold | Warm

  // ---- The timer ------------------------------------------------------------------------------------

  datatype Timer = Timer(pending: bool, dueAt: uint64, kind: Kind)

  /** `uint64_t` addition. */
  function DueAt(now: uint64, delay: uint32): uint64 {
    ((now as int + delay as int) % 0x1_0000_0000_0000_0000) as uint64
  }

  class RestartTimer {
    var pending: bool
    var dueAt: uint64
    var kind: Kind

    ghost function State(): Timer
      reads this
    {
      Timer(pending, dueAt, kind)
    }

    constructor ()
      ensures State() == START
    {
      pending, dueAt, kind := false, 0, Warm;
    }

    /** `now` is the monotonic clock at the call. */
    method RequestRestart(now: uint64, requested: Kind, delayMilliseconds: uint32)
      modifies this
      ensures State() == Apply(old(State()), Request(now, requested, delayMilliseconds)).0
    {
      var due := DueAt(now, delayMilliseconds);
      if pending {
        if due < dueAt {
          dueAt := due;
        }
        if requested == Cold {
          kind := Cold;
        }
        return;
      }
      pending := true;
      dueAt := due;
      kind := requested;
    }

    method RestartDue(now: uint64) returns (due: bool, outKind: Option<Kind>)
      modifies this
      ensures (State(), outKind) == Apply(old(State()), Poll(now))
      ensures due == outKind.Some?
    {
      if !pending || now < dueAt {
        return false, None;
      }
      pending := false;
      return true, Some(kind);
    }
  }

  // ---- Runs -----------------------------------------------------------------------------------------

  datatype Event = Request(now: uint64, kind: Kind, delay: uint32) | Poll(now: uint64)

  const START := Timer(false, 0, Warm)

  /** One call: the new state, and what a poll that fires hands out. */
  function Apply(t: Timer, e: Event): (Timer, Option<Kind>) {
    match e
    case Request(now, kind, delay) =>
      var due := DueAt(now, delay);
      if !t.pending then (Timer(true, due, kind), None)
      else (Timer(true, if due < t.dueAt then due else t.dueAt, if kind == Cold then Cold else t.kind), None)
    case Poll(now) =>
      if t.pending && t.dueAt <= now then (t.(pending := false), Some(t.kind)) else (t, None)
  }

  function Run(es: seq<Event>): Timer {
    if es == [] then START else Apply(Run(es[..|es| - 1]), es[|es| - 1]).0
  }

  /** What the call at index j of a run returned. */
  function Outcome(es: seq<Event>, j: nat): Option<Kind>
    requires j < |es|
  {
    Apply(Run(es[..j]), es[j]).1
  }

  predicate Fired(es: seq<Event>, j: nat)
    requires j < |es|
  {
    Outcome(es, j).Some?
  }

  // ---- The abstraction: requests not yet served -------------------------------------------------------

  /** Index i holds a request that no poll up to index n has served. */
  ghost predicate Unserved(es: seq<Event>, i: int, n: nat)
    requires n <= |es|
  {
    && 0 <= i < n && es[i].Request?
    && forall k :: i < k < n ==> !Fired(es, k)
  }

  /** What the client was promised: its delay after the request, counted past the end of the clock from 0 again. */
  function Deadline(e: Event): uint64
    requires e.Request?
  {
    var due := e.now as int + e.delay as int;
    if due < 0x1_0000_0000_0000_0000 then due as uint64 else (due - 0x1_0000_0000_0000_0000) as uint64
  }

  /** The 64-bit addition gives the deadline. */
  lemma DeadlineComputed(e: Event)
    requires e.Request?
    ensures DueAt(e.now, e.delay) == Deadline(e)
  {
  }

  /** The timer after n calls tells whether a request is unserved, the earliest deadline and whether one is Cold. */
  ghost predicate Refines(es: seq<Event>, n: nat)
    requires n <= |es|
  {
    var t := Run(es[..n]);
    && (t.pending <==> exists i :: Unserved(es, i, n))
    && (t.pending ==>
          && (forall i :: Unserved(es, i, n) ==> t.dueAt <= Deadline(es[i]))
          && (exists i :: Unserved(es, i, n) && t.dueAt == Deadline(es[i]))
          && (t.kind == Cold <==> exists i :: Unserved(es, i, n) && es[i].kind == Cold))
  }

  lemma RunStep(es: seq<Event>, n: nat)
    requires n < |es|
    ensures Run(es[..n + 1]) == Apply(Run(es[..n]), es[n]).0
  {
    var p := es[..n + 1];
    assert p[..|p| - 1] == es[..n] && p[|p| - 1] == es[n];
  }

  lemma UnservedStep(es: seq<Event>, i: int, n: nat)
    requires n < |es|
    ensures Unserved(es, i, n + 1) <==> (i == n && es[n].Request?) || (Unserved(es, i, n) && !Fired(es, n))
  {
    hide Fired;
    if Unserved(es, i, n + 1) && i != n {
      assert !Fired(es, n);
    }
  }

  /** Main result: the timer refines the set of unserved requests after every prefix of every run. */
  lemma {:induction false} TimerRefinesRequests(es: seq<Event>, n: nat)
    requires n <= |es|
    ensures Refines(es, n)
  {
    if n > 0 {
      TimerRefinesRequests(es, n - 1);
      RunStep(es, n - 1);
      forall i
        ensures Unserved(es, i, n)
           <==> (i == n - 1 && es[n - 1].Request?) || (Unserved(es, i, n - 1) && !Fired(es, n - 1))
      {
        UnservedStep(es, i, n - 1);
      }
      RefinesStep(es, n);
    }
  }

  lemma RefinesStep(es: seq<Event>, n: nat)
    requires 0 < n <= |es| && Refines(es, n - 1)
    requires Run(es[..n]) == Apply(Run(es[..n - 1]), es[n - 1]).0
    requires forall i :: Unserved(es, i, n) <==>
               (i == n - 1 && es[n - 1].Request?) || (Unserved(es, i, n - 1) && !Fired(es, n - 1))
    ensures Refines(es, n)
  {
    if es[n - 1].Request? {
      DeadlineComputed(es[n - 1]);
    }
    hide DueAt;
    hide Deadline;
    var t := Run(es[..n - 1]);
    assert Unserved(es, n - 1, n) == es[n - 1].Request?;
    if t.pending {
      var i :| Unserved(es, i, n - 1) && t.dueAt == Deadline(es[i]);
      assert Unserved(es, i, n) == !Fired(es, n - 1);
      if t.kind == Cold {
        var c :| Unserved(es, c, n - 1) && es[c].kind == Cold;
        assert Unserved(es, c, n) == !Fired(es, n - 1);
      }
    }
    hide Run;
    hide Unserved;
  }

  /**
    Exactly once and on time: a poll fires if and only if some request not yet served has reached its
    deadline, and it reports Cold if and only if one of the requests it serves is Cold. Where no deadline
    passes the end of the clock, that is when the delay of one of them has gone by.
   */
  lemma FiresExactlyWhenDue(es: seq<Event>, j: nat)
    requires j < |es| && es[j].Poll?
    ensures Fired(es, j) <==> exists i :: Unserved(es, i, j) && Deadline(es[i]) <= es[j].now
    ensures Fired(es, j) ==>
              (Outcome(es, j) == Some(Cold) <==> exists i :: Unserved(es, i, j) && es[i].kind == Cold)
    ensures Monotonic(es) ==>
              (Fired(es, j)
               <==> exists i :: Unserved(es, i, j) && es[i].now as int + es[i].delay as int <= es[j].now as int)
  {
    TimerRefinesRequests(es, j);
    hide Run;
    hide Unserved;
    var t := Run(es[..j]);
    if t.pending && t.dueAt <= es[j].now {
      var i :| Unserved(es, i, j) && t.dueAt == Deadline(es[i]);
      assert Deadline(es[i]) <= es[j].now;
    }
  }

  /** Between two firings there is a request: no batch fires twice. */
  lemma NeverTwice(es: seq<Event>, j: nat, k: nat)
    requires j < k < |es| && Fired(es, j) && Fired(es, k)
    ensures exists i :: j < i < k && Unserved(es, i, k)
  {
    assert es[k].Poll?;
    FiresExactlyWhenDue(es, k);
    var i :| Unserved(es, i, k) && Deadline(es[i]) <= es[k].now;
    assert i > j;
  }

  /** No request is lost or postponed: a poll at or after its deadline finds it served, then or before. */
  lemma ServedByDeadline(es: seq<Event>, i: nat, j: nat)
    requires i < j < |es| && es[i].Request? && es[j].Poll? && Deadline(es[i]) <= es[j].now
    ensures exists k :: i < k <= j && Fired(es, k)
  {
    FiresExactlyWhenDue(es, j);
    if forall k :: i < k < j ==> !Fired(es, k) {
      assert Unserved(es, i, j);
      assert Fired(es, j);
    }
  }

  /** The clock of the run never goes back, and no deadline wraps. */
  ghost predicate Monotonic(es: seq<Event>) {
    && (forall i, j :: 0 <= i < j < |es| ==> es[i].now <= es[j].now)
    && (forall i :: 0 <= i < |es| && es[i].Request? ==> es[i].now as int + es[i].delay as int < 0x1_0000_0000_0000_0000)
  }

  /**
    Never early and at the first opportunity: in a run with a monotonic clock, every poll k of a batch
    before the one that fires came strictly before the deadlines requested so far, and no later than
    any deadline the batch was still to receive.
   */
  lemma FirstPollAtDeadline(es: seq<Event>, k: nat, j: nat, i: nat)
    requires Monotonic(es)
    requires k < j < |es| && es[k].Poll? && Fired(es, j) && Unserved(es, i, j)
    ensures i < k ==> (es[k].now as int) < es[i].now as int + es[i].delay as int
    ensures k < i ==> es[k].now as int <= es[i].now as int + es[i].delay as int
  {
    if i < k {
      assert !Fired(es, k);
      assert Unserved(es, i, k);
      FiresExactlyWhenDue(es, k);
    }
  }

  // ---- Order of requests ------------------------------------------------------------------------------

  /** All of `rs` requested of a timer. */
  function RequestAll(t: Timer, rs: seq<Event>): Timer {
    if rs == [] then t else Apply(RequestAll(t, rs[..|rs| - 1]), rs[|rs| - 1]).0
  }

  ghost predicate Requests(rs: seq<Event>) {
    forall e :: e in rs ==> e.Request?
  }

  /** What a request promises its client, whenever it was made. */
  function Promise(e: Event): (uint64, Kind)
    requires e.Request?
  {
    (Deadline(e), e.kind)
  }

  /** The pending restart a batch amounts to: its least deadline, and Cold iff it contains a Cold. */
  ghost predicate Merges(t: Timer, rs: seq<Event>)
    requires Requests(rs)
  {
    && t.pending
    && (forall e :: e in rs ==> t.dueAt <= Promise(e).0)
    && (exists e :: e in rs && t.dueAt == Promise(e).0)
    && (t.kind == Cold <==> exists e :: e in rs && Promise(e).1 == Cold)
  }

  lemma {:induction false} MergedBatch(t: Timer, rs: seq<Event>)
    requires !t.pending && Requests(rs) && rs != []
    ensures Merges(RequestAll(t, rs), rs)
  {
    hide DueAt;
    hide Deadline;
    var front, last := rs[..|rs| - 1], rs[|rs| - 1];
    assert rs == front + [last];
    assert last in rs;
    DeadlineComputed(last);
    if front == [] {
      assert RequestAll(t, front) == t;
      assert last in rs;
    } else {
      MergedBatch(t, front);
      MergesMore(RequestAll(t, front), front, last);
    }
  }

  lemma MergesMore(t: Timer, front: seq<Event>, last: Event)
    requires Requests(front) && last.Request? && Merges(t, front)
    ensures Requests(front + [last]) && Merges(Apply(t, last).0, front + [last])
  {
    hide DueAt;
    hide Deadline;
    DeadlineComputed(last);
    var rs := front + [last];
    assert forall e :: e in rs <==> e in front || e == last;
    var e :| e in front && t.dueAt == Promise(e).0;
    assert e in rs && last in rs;
    if t.kind == Cold {
      var c :| c in front && Promise(c).1 == Cold;
      assert c in rs;
    }
  }

  ghost function Promises(rs: seq<Event>): set<(uint64, Kind)>
    requires Requests(rs)
  {
    set e | e in rs :: Promise(e)
  }

  /**
    The merge depends on the promises only: not on their order, their repetition, when they were made,
    nor on what an idle timer still holds from before.
   */
  lemma MergeOrderIndependent(t: Timer, rs: seq<Event>, u: Timer, qs: seq<Event>)
    requires !t.pending && !u.pending
    requires Requests(rs) && Requests(qs) && rs != [] && Promises(rs) == Promises(qs)
    ensures RequestAll(t, rs) == RequestAll(u, qs)
  {
    assert Promise(rs[0]) in Promises(rs);
    hide Promise;
    MergedBatch(t, rs);
    MergedBatch(u, qs);
    MergesLe(RequestAll(t, rs), rs, RequestAll(u, qs), qs);
    MergesLe(RequestAll(u, qs), qs, RequestAll(t, rs), rs);
  }

  lemma MergesLe(t: Timer, rs: seq<Event>, u: Timer, qs: seq<Event>)
    requires Requests(rs) && Requests(qs) && Promises(rs) <= Promises(qs) && Merges(t, rs) && Merges(u, qs)
    ensures u.dueAt <= t.dueAt && (t.kind == Cold ==> u.kind == Cold)
  {
    hide Promise;
    var e :| e in rs && t.dueAt == Promise(e).0;
    assert Promise(e) in Promises(qs);
    if t.kind == Cold {
      var c :| c in rs && Promise(c).1 == Cold;
      assert Promise(c) in Promises(qs);
    }
  }
}
