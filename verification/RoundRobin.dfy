/**
  What the rotating index achieves: nothing waits for ever, nothing is lost, everything is attributed
  to the socket it came from, and a reply leaves by that socket.
 */
module RoundRobin {
  import opened Wrappers
  import opened Bytes
  import opened UdpTable

  // ---- One polling round ------------------------------------------------------------------------------

  /** How many slots are polled before slot i. */
  function Place(next: nat, i: nat, n: nat): nat
    requires next < n && i < n
  {
    if i >= next then i - next else i + n - next
  }

  lemma ModOnce(x: nat, n: nat)
    requires n <= x < 2 * n
    ensures x % n == x - n
  {
  }

  lemma PlaceOfSlot(next: nat, k: nat, n: nat)
    requires next < n && k < n
    ensures SlotAt(next, k, n) == (if next + k < n then next + k else next + k - n)
    ensures SlotAt(next, k, n) < n && Place(next, SlotAt(next, k, n), n) == k
  {
    if next + k >= n {
      ModOnce(next + k, n);
    }
  }

  /** Polling this binding ends the round. */
  predicate Serves(b: Binding, maxLength: nat) {
    b.Ready() && b.socket.pending != [] && b.socket.pending[0].data != [] && maxLength > 0
  }

  /** The last place polled. */
  function LastPlace(bs: seq<Binding>, next: nat, r: Option<(nat, Datagram)>): nat
    requires next < |bs| && (r.Some? ==> r.value.0 < |bs|)
  {
    if r.Some? then Place(next, r.value.0, |bs|) else |bs| - 1
  }

  /**
    What a round from place k on does: it ends on the first slot in cyclic order that serves, with the
    head of that slot's queue, and takes one datagram off every slot up to there.
   */
  ghost predicate Round(bs: seq<Binding>, next: nat, k: nat, maxLength: nat,
                        cs: seq<Binding>, r: Option<(nat, Datagram)>)
    requires next < |bs| && |cs| == |bs| && (r.Some? ==> r.value.0 < |bs|)
  {
    && (r.Some? ==>
          && Serves(bs[r.value.0], maxLength) && r.value.1 == bs[r.value.0].socket.pending[0]
          && Place(next, r.value.0, |bs|) >= k)
    && (forall j :: 0 <= j < |bs| && k <= Place(next, j, |bs|) <= LastPlace(bs, next, r) && r.Some? && j != r.value.0
          ==> !Serves(bs[j], maxLength))
    && (forall j :: 0 <= j < |bs| && k <= Place(next, j, |bs|) && r.None? ==> !Serves(bs[j], maxLength))
    && (forall j :: 0 <= j < |bs| ==>
          cs[j] == if k <= Place(next, j, |bs|) <= LastPlace(bs, next, r) then TakeOne(bs[j]).0 else bs[j])
  }

  lemma RoundStep(bs: seq<Binding>, next: nat, k: nat, maxLength: nat, i: nat,
                  cs: seq<Binding>, r: Option<(nat, Datagram)>)
    requires next < |bs| && |cs| == |bs| && (r.Some? ==> r.value.0 < |bs|)
    requires i < |bs| && k == Place(next, i, |bs|) && !Serves(bs[i], maxLength)
    requires Round(bs[i := TakeOne(bs[i]).0], next, k + 1, maxLength, cs, r)
    ensures Round(bs, next, k, maxLength, cs, r)
  {
    var bs' := bs[i := TakeOne(bs[i]).0];
    assert forall j :: 0 <= j < |bs| && j != i ==> bs'[j] == bs[j] && Place(next, j, |bs|) != k;
    assert r.Some? ==> r.value.0 != i;
    assert cs[i] == bs'[i];
    hide Serves;
    hide TakeOne;
  }

  lemma {:induction false} PollExact(bs: seq<Binding>, next: nat, k: nat, maxLength: nat)
    requires next < |bs|
    ensures var (cs, r) := PollFrom(bs, next, k, maxLength); Round(bs, next, k, maxLength, cs, r)
    decreases |bs| - k
  {
    if k < |bs| {
      var i := SlotAt(next, k, |bs|);
      PlaceOfSlot(next, k, |bs|);
      hide SlotAt;
      if !Serves(bs[i], maxLength) {
        PollExact(bs[i := TakeOne(bs[i]).0], next, k + 1, maxLength);
        var (cs, r) := PollFrom(bs, next, k, maxLength);
        RoundStep(bs, next, k, maxLength, i, cs, r);
        hide Round;
      }
    }
  }

  /** A receive returns 0 exactly when no socket that is polled has a non-empty datagram at its head. */
  lemma IdleExact(s: State, maxLength: nat, maxCs: nat)
    requires Invariant(s) && maxLength > 0 && maxCs >= 6
    ensures ReceiveMessage(s, maxLength, maxCs).1 == None
       <==> forall i :: 0 <= i < |s.bindings| && s.bindings[i].Ready() ==>
              s.bindings[i].socket.pending == [] || s.bindings[i].socket.pending[0].data == []
  {
    if s.bindings != [] {
      PollExact(s.bindings, s.next, 0, maxLength);
      hide PollFrom;
      forall i | 0 <= i < |s.bindings|
        ensures Serves(s.bindings[i], maxLength) <==>
                  && s.bindings[i].Ready() && s.bindings[i].socket.pending != []
                  && s.bindings[i].socket.pending[0].data != []
      {
      }
    }
  }

  /** Where no zero-length datagram waits, 0 means that every polled queue is empty. */
  lemma IdleMeansEmpty(s: State, maxLength: nat, maxCs: nat)
    requires Invariant(s) && maxLength > 0 && maxCs >= 6
    requires forall i, k :: 0 <= i < |s.bindings| && s.bindings[i].socket.Open?
                            && 0 <= k < |s.bindings[i].socket.pending|
                            ==> s.bindings[i].socket.pending[k].data != []
    ensures ReceiveMessage(s, maxLength, maxCs).1 == None
       <==> forall i :: 0 <= i < |s.bindings| && s.bindings[i].Ready() ==> s.bindings[i].socket.pending == []
  {
    IdleExact(s, maxLength, maxCs);
    hide ReceiveMessage;
  }

  /** A zero-length datagram is consumed and reported as "nothing waiting", in front of one that is. */
  lemma ZeroLengthHidesNext(d: Datagram, e: Datagram)
    requires d.data == [] && e.data != []
    ensures var s := State([Binding(Open([d, e]), 47808, 1, true)], 0, 1, 47808);
            var (s', r) := ReceiveMessage(s, 1497, 6);
            r == None && s'.bindings[0].socket == Open([e])
  {
    var s := State([Binding(Open([d, e]), 47808, 1, true)], 0, 1, 47808);
    PollExact(s.bindings, 0, 0, 1497);
    hide PollFrom;
    assert Cut(d.data, 1497) == [];
  }

  /**
    The rotation: after a receive the slot it served is the last to be polled by the next one, and the
    slot it started with when it served none. A receive that may not report an address touches nothing.
   */
  lemma Rotation(s: State, maxLength: nat, maxCs: nat)
    requires Invariant(s)
    ensures var (t, r) := ReceiveMessage(s, maxLength, maxCs);
            var n := |s.bindings|;
            && (maxCs < 6 || n == 0 ==> t == s && r == None)
            && (maxCs >= 6 && n > 0 ==>
                  && t.next < n && Place(t.next, if r.Some? then r.value.0 else s.next, n) == n - 1
                  && t.currentInstance == s.currentInstance && t.currentPort == s.currentPort)
  {
    hide PollFrom;
    if s.bindings != [] {
      NextIndex(s.next, |s.bindings|, PollFrom(s.bindings, s.next, 0, maxLength).1, s.bindings);
    }
  }

  // ---- No starvation ----------------------------------------------------------------------------------

  /** Slot i is polled and a datagram waits at position k of its queue. */
  predicate Waiting(s: State, i: nat, k: nat) {
    i < |s.bindings| && s.bindings[i].Ready() && k < |s.bindings[i].socket.pending|
  }

  /** The measure: a round for every datagram in front, then the cyclic distance of the rotating index. */
  function Wait(s: State, i: nat, k: nat): nat
    requires s.next < |s.bindings| && i < |s.bindings|
  {
    k * |s.bindings| + Place(s.next, i, |s.bindings|)
  }

  /** Traffic: arrivals, sends and receives with a usable buffer; no set-up and no shutdown. */
  ghost predicate Traffic(e: Event) {
    match e
    case Arrival(_, d) => d.Valid()
    case Receive(maxLength, maxCs) => maxLength > 0 && maxCs >= 6
    case Send(_, _, _) => true
    case SetCurrent(_) => true
    case Setup(_, _, _) => false
    case Shutdown => false
  }

  /** A round saved outweighs any cyclic distance gained. */
  lemma MulStep(k: nat, n: nat, p: nat, p': nat)
    requires k > 0 && p' < n
    ensures (k - 1) * n + p' < k * n + p
  {
    assert (k - 1) * n + n == k * n;
  }

  /** One receive either delivers the datagram, or takes the one at the head of its queue, or brings its slot nearer. */
  lemma ReceiveProgress(s: State, i: nat, k: nat, maxLength: nat, maxCs: nat) returns (taken: nat)
    requires Invariant(s) && maxLength > 0 && maxCs >= 6
    requires Waiting(s, i, k) && s.bindings[i].socket.pending[k].data != []
    ensures var pending := s.bindings[i].socket.pending;
            var (s', r) := ReceiveMessage(s, maxLength, maxCs);
            || (k == 0 && r == Some((i, pending[0])))
            || (taken <= k && taken <= 1 && s'.next < |s'.bindings| == |s.bindings| && s'.bindings[i].Ready()
                && s'.bindings[i].socket.pending == pending[taken..] && Wait(s', i, k - taken) < Wait(s, i, k))
  {
    var n := |s.bindings|;
    PollExact(s.bindings, s.next, 0, maxLength);
    var (cs, r) := PollFrom(s.bindings, s.next, 0, maxLength);
    hide PollFrom;
    NextIndex(s.next, n, r, s.bindings);
    var s' := ReceiveMessage(s, maxLength, maxCs).0;
    var p := Place(s.next, i, n);
    taken := 0;
    if p <= LastPlace(s.bindings, s.next, r) {
      assert cs[i] == TakeOne(s.bindings[i]).0;
      if k == 0 {
        assert Serves(s.bindings[i], maxLength);
      } else {
        taken := 1;
        MulStep(k, n, p, Place(s'.next, i, n));
      }
    }
  }

  /** The index goes one past the slot served, or one further when idle; every slot not yet polled gets nearer. */
  lemma NextIndex(next: nat, n: nat, r: Option<(nat, Datagram)>, bs: seq<Binding>)
    requires next < n == |bs| && (r.Some? ==> r.value.0 < n)
    ensures var next' := ((if r.Some? then r.value.0 else next) + 1) % n;
            && next' < n
            && Place(next', if r.Some? then r.value.0 else next, n) == n - 1
            && forall i :: 0 <= i < n && LastPlace(bs, next, r) < Place(next, i, n) ==>
                             Place(next', i, n) < Place(next, i, n)
  {
    var at := if r.Some? then r.value.0 else next;
    assert (at + 1) % n == if at + 1 == n then 0 else at + 1;
  }

  function Receives(es: seq<Event>): nat {
    if es == [] then 0 else Receives(es[..|es| - 1]) + (if es[|es| - 1].Receive? then 1 else 0)
  }

  /** What events so far have added to the queue of slot i. */
  function Arrived(es: seq<Event>, i: nat): seq<Datagram> {
    if es == [] then [] else Arrived(es[..|es| - 1], i) + ArrivedBy(es[|es| - 1], i)
  }

  function ArrivedBy(e: Event, i: nat): seq<Datagram> {
    if e.Arrival? && e.slot == i then [e.datagram] else []
  }

  /** After these events the first m datagrams that waited on slot i are gone, and nothing else is. */
  ghost predicate Taken(s: State, es: seq<Event>, i: nat, m: nat)
    requires i < |s.bindings| && s.bindings[i].socket.Open?
  {
    var t := Run(s, es);
    && m <= |s.bindings[i].socket.pending|
    && i < |t.bindings| == |s.bindings| && t.next < |t.bindings| && t.bindings[i].Ready()
    && t.bindings[i].socket.pending == s.bindings[i].socket.pending[m..] + Arrived(es, i)
  }

  /** The call at index j delivers, off the head of the queue, the datagram that waited at position k. */
  ghost predicate ServedAt(s: State, es: seq<Event>, j: int, i: nat, k: nat)
    requires Waiting(s, i, k)
  {
    && 0 <= j < |es| && es[j].Receive?
    && Taken(s, es[..j], i, k)
    && ReceiveMessage(Run(s, es[..j]), es[j].maxLength, es[j].maxConnectionStringLength).1
       == Some((i, s.bindings[i].socket.pending[k]))
  }

  /** Served by one of the first `calls` receives. */
  ghost predicate ServedWithin(s: State, es: seq<Event>, i: nat, k: nat, calls: nat)
    requires Waiting(s, i, k)
  {
    exists j :: ServedAt(s, es, j, i, k) && Receives(es[..j]) < calls
  }

  /** Still waiting after m datagrams were taken, each receive made having brought it nearer. */
  ghost predicate Approaching(s: State, es: seq<Event>, i: nat, k: nat, m: nat)
    requires Waiting(s, i, k) && s.next < |s.bindings|
  {
    m <= k && Taken(s, es, i, m) && Wait(Run(s, es), i, k - m) + Receives(es) <= Wait(s, i, k)
  }

  /** Position k of the queue at the start is position k - m once m datagrams are gone. */
  lemma QueueAfter(start: seq<Datagram>, arrived: seq<Datagram>, m: nat, k: nat)
    requires m <= k < |start|
    ensures (start[m..] + arrived)[k - m] == start[k]
    ensures (start[m..] + arrived)[1..] == start[m + 1..] + arrived
  {
  }

  /** The queue in terms of the start: the datagram at position k is now at position k - m. */
  lemma TakenMeans(s: State, es: seq<Event>, i: nat, k: nat, m: nat)
    requires Waiting(s, i, k) && m <= k && Taken(s, es, i, m)
    ensures Waiting(Run(s, es), i, k - m)
    ensures Run(s, es).bindings[i].socket.pending[k - m] == s.bindings[i].socket.pending[k]
  {
    hide Run;
    hide Arrived;
    QueueAfter(s.bindings[i].socket.pending, Arrived(es, i), m, k);
  }

  lemma TakenMore(s: State, es: seq<Event>, fs: seq<Event>, i: nat, k: nat, m: nat, taken: nat)
    requires Waiting(s, i, k) && m + taken <= k && taken <= 1 && Taken(s, es, i, m)
    requires Arrived(fs, i) == Arrived(es, i)
    requires var t, t' := Run(s, es), Run(s, fs);
             && t'.next < |t'.bindings| == |t.bindings| && t'.bindings[i].Ready()
             && t'.bindings[i].socket.pending == t.bindings[i].socket.pending[taken..]
    ensures Taken(s, fs, i, m + taken)
  {
    hide Run;
    hide Arrived;
    QueueAfter(s.bindings[i].socket.pending, Arrived(es, i), m, k);
    var pending := s.bindings[i].socket.pending[m..] + Arrived(es, i);
    assert pending[0..] == pending;
  }

  lemma ApproachReceive(s: State, es: seq<Event>, e: Event, i: nat, k: nat, m: nat)
    requires s.next < |s.bindings| && Invariant(Run(s, es))
    requires Waiting(s, i, k) && s.bindings[i].socket.pending[k].data != []
    requires Approaching(s, es, i, k, m) && e.Receive? && Traffic(e)
    requires Run(s, es + [e]) == Apply(Run(s, es), e) && Receives(es + [e]) == Receives(es) + 1
    requires Arrived(es + [e], i) == Arrived(es, i)
    ensures || (m == k && ReceiveMessage(Run(s, es), e.maxLength, e.maxConnectionStringLength).1
                          == Some((i, s.bindings[i].socket.pending[k])))
            || Approaching(s, es + [e], i, k, m)
            || (m < k && Approaching(s, es + [e], i, k, m + 1))
  {
    hide Run;
    hide PollFrom;
    hide ReceiveMessage;
    hide Invariant;
    hide Arrived;
    hide Receives;
    hide Taken;
    hide Wait;
    TakenMeans(s, es, i, k, m);
    var t := Run(s, es);
    var taken := ReceiveProgress(t, i, k - m, e.maxLength, e.maxConnectionStringLength);
    if !(m == k && ReceiveMessage(t, e.maxLength, e.maxConnectionStringLength).1
                   == Some((i, s.bindings[i].socket.pending[k]))) {
      TakenMore(s, es, es + [e], i, k, m, taken);
    }
  }

  lemma ApproachOther(s: State, es: seq<Event>, e: Event, i: nat, k: nat, m: nat)
    requires Waiting(s, i, k) && s.next < |s.bindings|
    requires Approaching(s, es, i, k, m) && !e.Receive? && Traffic(e)
    requires Run(s, es + [e]) == Apply(Run(s, es), e) && Receives(es + [e]) == Receives(es)
    requires Arrived(es + [e], i) == Arrived(es, i) + ArrivedBy(e, i)
    ensures Approaching(s, es + [e], i, k, m)
  {
    var start := s.bindings[i].socket.pending;
    Associate(start[m..], Arrived(es, i), ArrivedBy(e, i));
    assert (start[m..] + Arrived(es, i)) + [] == start[m..] + Arrived(es, i);
    hide Run;
    hide Wait;
    hide Arrived;
    hide Receives;
  }

  lemma EventStep(s: State, es: seq<Event>, e: Event, i: nat)
    ensures Run(s, es + [e]) == Apply(Run(s, es), e)
    ensures Receives(es + [e]) == Receives(es) + (if e.Receive? then 1 else 0)
    ensures Arrived(es + [e], i) == Arrived(es, i) + ArrivedBy(e, i)
  {
    assert (es + [e])[..|es|] == es;
  }

  lemma ServedStays(s: State, es: seq<Event>, e: Event, i: nat, k: nat, calls: nat)
    requires Waiting(s, i, k) && ServedWithin(s, es, i, k, calls)
    ensures ServedWithin(s, es + [e], i, k, calls)
  {
    var j :| ServedAt(s, es, j, i, k) && Receives(es[..j]) < calls;
    assert (es + [e])[..j] == es[..j];
    assert ServedAt(s, es + [e], j, i, k);
  }

  lemma ServedNow(s: State, es: seq<Event>, e: Event, i: nat, k: nat, calls: nat)
    requires Waiting(s, i, k) && Taken(s, es, i, k) && e.Receive? && Receives(es) < calls
    requires ReceiveMessage(Run(s, es), e.maxLength, e.maxConnectionStringLength).1
             == Some((i, s.bindings[i].socket.pending[k]))
    ensures ServedWithin(s, es + [e], i, k, calls)
  {
    assert (es + [e])[..|es|] == es;
    assert ServedAt(s, es + [e], |es|, i, k);
  }

  lemma {:induction false} Progress(s: State, es: seq<Event>, i: nat, k: nat)
    requires Invariant(s) && Waiting(s, i, k) && s.bindings[i].socket.pending[k].data != []
    requires forall e :: e in es ==> Traffic(e)
    ensures Invariant(Run(s, es))
    ensures ServedWithin(s, es, i, k, Wait(s, i, k) + 1) || exists m :: Approaching(s, es, i, k, m)
    decreases es
  {
    if es == [] {
      assert s.bindings[i].socket.pending[0..] + [] == s.bindings[i].socket.pending;
      assert Approaching(s, es, i, k, 0);
    } else {
      var front, e := es[..|es| - 1], es[|es| - 1];
      assert es == front + [e] && e in es && forall f :: f in front ==> f in es;
      Progress(s, front, i, k);
      InvariantStep(Run(s, front), e);
      EventStep(s, front, e, i);
      ProgressStep(s, front, e, i, k);
    }
  }

  lemma ProgressStep(s: State, es: seq<Event>, e: Event, i: nat, k: nat)
    requires Invariant(s) && Invariant(Run(s, es)) && Waiting(s, i, k) && s.bindings[i].socket.pending[k].data != []
    requires Traffic(e)
    requires ServedWithin(s, es, i, k, Wait(s, i, k) + 1) || exists m :: Approaching(s, es, i, k, m)
    ensures ServedWithin(s, es + [e], i, k, Wait(s, i, k) + 1) || exists m :: Approaching(s, es + [e], i, k, m)
  {
    assert s.next < |s.bindings|;
    hide Run;
    hide Receives;
    hide Arrived;
    hide ServedWithin;
    hide ReceiveMessage;
    hide Invariant;
    hide Wait;
    EventStep(s, es, e, i);
    if ServedWithin(s, es, i, k, Wait(s, i, k) + 1) {
      ServedStays(s, es, e, i, k, Wait(s, i, k) + 1);
    } else {
      var m :| Approaching(s, es, i, k, m);
      if e.Receive? {
        assert Arrived(es, i) + [] == Arrived(es, i);
        ApproachReceive(s, es, e, i, k, m);
        if m == k && ReceiveMessage(Run(s, es), e.maxLength, e.maxConnectionStringLength).1
                     == Some((i, s.bindings[i].socket.pending[k])) {
          ServedNow(s, es, e, i, k, Wait(s, i, k) + 1);
        }
      } else {
        ApproachOther(s, es, e, i, k, m);
      }
    }
  }

  /**
    Main result, no starvation: in every run of arrivals and receives, the non-empty datagram at any
    position k of the queue of a bound socket of n is delivered within (k + 1) * n receives; the one at
    the head within n receives, so that at most n - 1 others pass it.
   */
  lemma NoStarvation(s: State, es: seq<Event>, i: nat, k: nat)
    requires Invariant(s) && Waiting(s, i, k) && s.bindings[i].socket.pending[k].data != []
    requires forall e :: e in es ==> Traffic(e)
    requires Receives(es) >= (k + 1) * |s.bindings|
    ensures ServedWithin(s, es, i, k, (k + 1) * |s.bindings|)
  {
    Progress(s, es, i, k);
    OneMoreRound(k, |s.bindings|);
    hide Run;
    hide Receives;
    if ServedWithin(s, es, i, k, Wait(s, i, k) + 1) {
      var j :| ServedAt(s, es, j, i, k) && Receives(es[..j]) < Wait(s, i, k) + 1;
    }
  }

  lemma OneMoreRound(k: nat, n: nat)
    ensures (k + 1) * n == k * n + n
  {
  }

  // ---- Conservation and attribution ---------------------------------------------------------------------

  /** The datagrams a receive can hand on. */
  function NonEmpty(ds: seq<Datagram>): seq<Datagram> {
    if ds == [] then [] else (if ds[0].data != [] then [ds[0]] else []) + NonEmpty(ds[1..])
  }

  lemma {:induction false} NonEmptyConcat(a: seq<Datagram>, b: seq<Datagram>)
    ensures NonEmpty(a + b) == NonEmpty(a) + NonEmpty(b)
  {
    if a == [] {
      assert a + b == b;
    } else {
      assert (a + b)[1..] == a[1..] + b;
      NonEmptyConcat(a[1..], b);
      var first := if a[0].data != [] then [a[0]] else [];
      assert NonEmpty(a + b) == first + NonEmpty(a[1..] + b);
      assert first + (NonEmpty(a[1..]) + NonEmpty(b)) == (first + NonEmpty(a[1..])) + NonEmpty(b);
    }
  }

  lemma NonEmptyAppend(ds: seq<Datagram>, e: Datagram)
    ensures NonEmpty(ds + [e]) == NonEmpty(ds) + (if e.data != [] then [e] else [])
  {
    NonEmptyConcat(ds, [e]);
    assert NonEmpty([e][1..]) == [];
  }

  /** What one event delivers from slot i. */
  function DeliveredBy(s: State, e: Event, i: nat): seq<Datagram> {
    if e.Receive? then
      var r := ReceiveMessage(s, e.maxLength, e.maxConnectionStringLength).1;
      if r.Some? && r.value.0 == i then [r.value.1] else []
    else []
  }

  function Delivered(s: State, es: seq<Event>, i: nat): seq<Datagram> {
    if es == [] then [] else Delivered(s, es[..|es| - 1], i) + DeliveredBy(Run(s, es[..|es| - 1]), es[|es| - 1], i)
  }

  /** Everything but shutting down, setting this instance up again, and receiving into a buffer of no length. */
  ghost predicate LeavesSocket(e: Event, instance: nat) {
    match e
    case Setup(_, other, _) => other != instance
    case Shutdown => false
    case Arrival(_, d) => d.Valid()
    case Receive(maxLength, maxCs) => maxLength > 0 || maxCs < 6
    case _ => true
  }

  lemma ReceiveConserves(s: State, maxLength: nat, maxCs: nat, i: nat)
    requires Invariant(s) && i < |s.bindings| && s.bindings[i].Ready() && maxLength > 0 && maxCs >= 6
    ensures var (t, r) := ReceiveMessage(s, maxLength, maxCs);
            && |t.bindings| == |s.bindings| && t.bindings[i].Ready() && t.bindings[i].instance == s.bindings[i].instance
            && (if r.Some? && r.value.0 == i then [r.value.1] else []) + NonEmpty(t.bindings[i].socket.pending)
               == NonEmpty(s.bindings[i].socket.pending)
  {
    PollExact(s.bindings, s.next, 0, maxLength);
    hide PollFrom;
    hide Invariant;
    var pending := s.bindings[i].socket.pending;
    if pending != [] {
      assert pending[0].data != [] ==> Cut(pending[0].data, maxLength) != [];
    }
  }

  lemma SetupConserves(s: State, port: nat, instance: nat, connects: bool, i: nat)
    requires i < |s.bindings| && s.bindings[i].instance != instance
    ensures i < |SetupUDP(s, port, instance, connects).0.bindings|
    ensures SetupUDP(s, port, instance, connects).0.bindings[i] == s.bindings[i]
  {
  }

  lemma ConservationStep(s: State, e: Event, i: nat)
    requires Invariant(s) && i < |s.bindings| && s.bindings[i].Ready() && LeavesSocket(e, s.bindings[i].instance)
    ensures var t := Apply(s, e);
            && i < |t.bindings| && t.bindings[i].Ready() && t.bindings[i].instance == s.bindings[i].instance
            && DeliveredBy(s, e, i) + NonEmpty(t.bindings[i].socket.pending)
               == NonEmpty(s.bindings[i].socket.pending + ArrivedBy(e, i))
  {
    var pending := s.bindings[i].socket.pending;
    assert pending + [] == pending;
    match e
    case Setup(port, instance, connects) =>
      SetupConserves(s, port, instance, connects, i);
      hide SetupUDP;
    case Receive(maxLength, maxCs) =>
      if maxCs >= 6 {
        ReceiveConserves(s, maxLength, maxCs, i);
        hide ReceiveMessage;
      }
    case Arrival(slot, d) =>
      NonEmptyAppend(pending, d);
    case _ =>
  }

  /**
    Main result, conservation and order: for every bound socket and every run that leaves it open, the datagrams
    delivered from it followed by those still waiting are the ones that were waiting and that arrived,
    in order, none lost and none twice; only zero-length datagrams vanish. Other instances may be set up
    meanwhile.
   */
  lemma {:induction false} Conservation(s: State, es: seq<Event>, i: nat)
    requires Invariant(s) && i < |s.bindings| && s.bindings[i].Ready()
    requires forall e :: e in es ==> LeavesSocket(e, s.bindings[i].instance)
    ensures Invariant(Run(s, es))
    ensures var t := Run(s, es);
            && i < |t.bindings| && t.bindings[i].Ready() && t.bindings[i].instance == s.bindings[i].instance
            && Delivered(s, es, i) + NonEmpty(t.bindings[i].socket.pending)
               == NonEmpty(s.bindings[i].socket.pending + Arrived(es, i))
    decreases es
  {
    var start := s.bindings[i].socket.pending;
    if es == [] {
      assert start + [] == start;
    } else {
      var front, e := es[..|es| - 1], es[|es| - 1];
      var t := Run(s, front);
      assert e in es && forall f :: f in front ==> f in es;
      Conservation(s, front, i);
      InvariantStep(t, e);
      ConservationStep(t, e, i);
      Chain(Delivered(s, front, i), t.bindings[i].socket.pending, start, Arrived(front, i), DeliveredBy(t, e, i),
            Run(s, es).bindings[i].socket.pending, ArrivedBy(e, i));
    }
  }

  lemma Chain(done: seq<Datagram>, waiting: seq<Datagram>, start: seq<Datagram>, arrived: seq<Datagram>,
              now: seq<Datagram>, waiting': seq<Datagram>, more: seq<Datagram>)
    requires done + NonEmpty(waiting) == NonEmpty(start + arrived)
    requires now + NonEmpty(waiting') == NonEmpty(waiting + more)
    ensures (done + now) + NonEmpty(waiting') == NonEmpty(start + (arrived + more))
  {
    hide NonEmpty;
    NonEmptyConcat(waiting, more);
    NonEmptyConcat(start + arrived, more);
    Associate(start, arrived, more);
    Reassociate(done, now, NonEmpty(waiting'), NonEmpty(waiting), NonEmpty(more));
  }

  lemma Associate(a: seq<Datagram>, b: seq<Datagram>, c: seq<Datagram>)
    ensures a + (b + c) == (a + b) + c
  {
  }

  lemma Reassociate(a: seq<Datagram>, b: seq<Datagram>, c: seq<Datagram>, d: seq<Datagram>, e: seq<Datagram>)
    requires b + c == d + e
    ensures (a + b) + c == (a + d) + e
  {
    Associate(a, b, c);
    Associate(a, d, e);
  }

  // ---- The octets handed on -----------------------------------------------------------------------------

  /** The octets one event hands to the stack off slot i. */
  function HandedBy(s: State, e: Event, i: nat): seq<seq<byte>> {
    if e.Receive? then
      var r := ReceiveMessage(s, e.maxLength, e.maxConnectionStringLength).1;
      if r.Some? && r.value.0 == i && r.value.1.Valid() then [DeliveryOf(s, r.value, e.maxLength).data] else []
    else []
  }

  function Handed(s: State, es: seq<Event>, i: nat): seq<seq<byte>> {
    if es == [] then [] else Handed(s, es[..|es| - 1], i) + HandedBy(Run(s, es[..|es| - 1]), es[|es| - 1], i)
  }

  /** The buffer length of each receive that delivered off slot i. */
  function Buffers(s: State, es: seq<Event>, i: nat): seq<nat> {
    if es == [] then []
    else
      var front, e := es[..|es| - 1], es[|es| - 1];
      Buffers(s, front, i) + (if DeliveredBy(Run(s, front), e, i) != [] then [e.maxLength] else [])
  }

  /** These octets are those of the datagram, as far as the buffer had room for them. */
  predicate Fills(octets: seq<byte>, d: Datagram, room: nat) {
    && |octets| == (if |d.data| <= room then |d.data| else room)
    && forall k :: 0 <= k < |octets| ==> octets[k] == d.data[k]
  }

  lemma HandedStep(s: State, e: Event, i: nat)
    requires Invariant(s) && ValidEvent(e)
    ensures |HandedBy(s, e, i)| == |DeliveredBy(s, e, i)| <= 1
    ensures DeliveredBy(s, e, i) != [] ==>
              e.Receive? && Fills(HandedBy(s, e, i)[0], DeliveredBy(s, e, i)[0], e.maxLength)
  {
    if e.Receive? && s.bindings != [] {
      PollSameBut(s.bindings, s.next, 0, e.maxLength);
    }
    hide PollFrom;
    hide Invariant;
  }

  /**
    Main result: over every run, the k-th message handed to the stack off a slot is, octet for octet,
    the k-th datagram delivered off it, cut only where the buffer of that receive ended.
   */
  lemma {:induction false} OctetsHandedOn(s: State, es: seq<Event>, i: nat)
    requires Invariant(s) && forall e :: e in es ==> ValidEvent(e)
    ensures Invariant(Run(s, es))
    ensures |Handed(s, es, i)| == |Delivered(s, es, i)| == |Buffers(s, es, i)|
    ensures forall k :: 0 <= k < |Handed(s, es, i)| ==>
              Fills(Handed(s, es, i)[k], Delivered(s, es, i)[k], Buffers(s, es, i)[k])
    ensures forall room :: room in Buffers(s, es, i) ==> exists e :: e in es && e.Receive? && room == e.maxLength
    decreases es
  {
    if es != [] {
      var front, e := es[..|es| - 1], es[|es| - 1];
      assert e in es && forall f :: f in front ==> f in es;
      OctetsHandedOn(s, front, i);
      InvariantStep(Run(s, front), e);
      HandedStep(Run(s, front), e, i);
      hide HandedBy;
      hide DeliveredBy;
      hide Apply;
      hide Invariant;
      hide Fills;
    }
  }

  function Payloads(ds: seq<Datagram>): seq<seq<byte>> {
    seq(|ds|, k requires 0 <= k < |ds| => ds[k].data)
  }

  lemma {:induction false} NonEmptyMembers(ds: seq<Datagram>)
    ensures forall d :: d in NonEmpty(ds) ==> d in ds
  {
    if ds != [] {
      NonEmptyMembers(ds[1..]);
    }
  }

  /**
    Conservation of octets: with buffers that hold every datagram of a socket, the messages handed to
    the stack, followed by the contents still waiting, are the contents that waited and arrived.
   */
  lemma OctetsConserved(s: State, es: seq<Event>, i: nat)
    requires Invariant(s) && i < |s.bindings| && s.bindings[i].Ready()
    requires forall e :: e in es ==> LeavesSocket(e, s.bindings[i].instance) && ValidEvent(e)
    requires forall e, d :: e in es && e.Receive? && d in s.bindings[i].socket.pending + Arrived(es, i) ==>
                              |d.data| <= e.maxLength
    ensures var t := Run(s, es);
            && i < |t.bindings| && t.bindings[i].Ready()
            && Handed(s, es, i) + Payloads(NonEmpty(t.bindings[i].socket.pending))
               == Payloads(NonEmpty(s.bindings[i].socket.pending + Arrived(es, i)))
  {
    Conservation(s, es, i);
    OctetsHandedOn(s, es, i);
    var all := s.bindings[i].socket.pending + Arrived(es, i);
    NonEmptyMembers(all);
    WholeHanded(Handed(s, es, i), Delivered(s, es, i), Buffers(s, es, i),
                NonEmpty(Run(s, es).bindings[i].socket.pending), all);
    hide Run;
    hide NonEmpty;
    hide Arrived;
    hide Invariant;
    hide Handed;
    hide Delivered;
    hide Buffers;
    hide Payloads;
    hide LeavesSocket;
  }

  lemma WholeHanded(handed: seq<seq<byte>>, delivered: seq<Datagram>, rooms: seq<nat>, waiting: seq<Datagram>,
                    all: seq<Datagram>)
    requires |handed| == |delivered| == |rooms|
    requires forall k :: 0 <= k < |handed| ==> Fills(handed[k], delivered[k], rooms[k])
    requires delivered + waiting == NonEmpty(all) && forall d :: d in NonEmpty(all) ==> d in all
    requires forall room, d :: room in rooms && d in all ==> |d.data| <= room
    ensures handed + Payloads(waiting) == Payloads(NonEmpty(all))
  {
    hide NonEmpty;
    forall k | 0 <= k < |handed|
      ensures handed[k] == delivered[k].data
    {
      assert rooms[k] in rooms;
      assert delivered[k] == NonEmpty(all)[k];
      assert delivered[k] in NonEmpty(all);
      assert Fills(handed[k], delivered[k], rooms[k]);
    }
  }

  // ---- Reply routing ------------------------------------------------------------------------------------

  lemma {:induction false} SlotsGrow(es: seq<Event>, fs: seq<Event>, instance: nat)
    requires instance in AbstractRun(es).slots
    ensures instance in AbstractRun(es + fs).slots
    ensures AbstractRun(es + fs).slots[instance] == AbstractRun(es).slots[instance]
  {
    if fs == [] {
      assert es + fs == es;
    } else {
      var all := es + fs;
      assert all[..|all| - 1] == es + fs[..|fs| - 1];
      SlotsGrow(es, fs[..|fs| - 1], instance);
    }
  }

  /** The six octets give back the address they were made from, for every port. */
  lemma ConnectionStringRoundTrip(d: Datagram)
    requires d.Valid()
    ensures var cs := ConnectionString(d);
            cs[..4] == d.ip && cs[4] as int * 0x100 + cs[5] == d.port
  {
  }

  /** A binding found by its instance in two states of a run is found in the same slot. */
  lemma SameSlotLater(es: seq<Event>, fs: seq<Event>, slot: nat)
    requires forall e :: e in es + fs ==> ValidEvent(e)
    requires slot < |Run(START, es).bindings|
    ensures Find(Run(START, es + fs).bindings, Run(START, es).bindings[slot].instance) == Some(slot)
  {
    assert forall e :: e in es ==> e in es + fs;
    TableInvariant(es);
    TableInvariant(es + fs);
    hide Run;
    hide AbstractRun;
    hide Find;
    hide Invariant;
    SlotsGrow(es, fs, Run(START, es).bindings[slot].instance);
  }

  /**
    Main result, reply routing: the connection string and instance a receive reports, used for a send
    at any later point of the run at which that instance still has its socket, transmit through the
    slot the datagram came from, to the address and port it came from.
   */
  lemma ReplyRouting(es: seq<Event>, fs: seq<Event>, slot: nat, d: Datagram, maxLength: nat, message: seq<byte>)
    requires forall e :: e in es + fs ==> ValidEvent(e)
    requires slot < |Run(START, es).bindings| && d.Valid()
    ensures var delivery := DeliveryOf(Run(START, es), (slot, d), maxLength);
            delivery.instance in AbstractRun(es + fs).open ==>
              SendMessage(Run(START, es + fs), message, delivery.connectionString, delivery.instance)
              == Some(Transmission(slot, d.ip, d.port, message))
  {
    hide Run;
    hide AbstractRun;
    hide Find;
    hide SendMessage;
    hide ConnectionString;
    SameSlotLater(es, fs, slot);
    SendsIffOpen(es + fs, message, ConnectionString(d), Run(START, es).bindings[slot].instance);
    SendGoesTo(Run(START, es + fs), slot, d, message, Run(START, es).bindings[slot].instance);
  }

  lemma SendGoesTo(s: State, slot: nat, d: Datagram, message: seq<byte>, instance: nat)
    requires d.Valid() && Find(s.bindings, instance) == Some(slot)
    ensures SendMessage(s, message, ConnectionString(d), instance).Some? ==>
              SendMessage(s, message, ConnectionString(d), instance) == Some(Transmission(slot, d.ip, d.port, message))
  {
    ConnectionStringRoundTrip(d);
    hide Find;
    hide ConnectionString;
  }

  /** A delivery is off the head of a bound, open slot's queue, and carries that datagram's octets. */
  ghost predicate Delivers(s: State, r: (nat, Datagram), maxLength: nat) {
    && r.0 < |s.bindings| && s.bindings[r.0].Ready()
    && s.bindings[r.0].socket.pending != [] && r.1 == s.bindings[r.0].socket.pending[0] && r.1.Valid()
    && var delivery := DeliveryOf(s, r, maxLength);
       && delivery.slot == r.0 && delivery.instance == s.bindings[r.0].instance
       && Fills(delivery.data, r.1, maxLength) && delivery.data != []
  }

  lemma DeliveryExact(s: State, maxLength: nat, maxCs: nat)
    requires Invariant(s)
    ensures var r := ReceiveMessage(s, maxLength, maxCs).1; r.Some? ==> Delivers(s, r.value, maxLength)
  {
    if s.bindings != [] {
      PollExact(s.bindings, s.next, 0, maxLength);
      hide PollFrom;
      hide TakeOne;
      if ReceiveMessage(s, maxLength, maxCs).1.Some? {
        assert ValidQueue(s.bindings[ReceiveMessage(s, maxLength, maxCs).1.value.0].socket.pending);
      }
    }
  }

  /**
    Every delivery of a run is the valid datagram at the head of a bound, open slot's queue, so its reply
    is routed as above; it names that slot and its instance, and its octets are that datagram's.
   */
  lemma DeliveriesRoutable(es: seq<Event>, maxLength: nat, maxCs: nat)
    requires forall e :: e in es ==> ValidEvent(e)
    ensures var r := ReceiveMessage(Run(START, es), maxLength, maxCs).1;
            r.Some? ==> Delivers(Run(START, es), r.value, maxLength)
  {
    TableInvariant(es);
    DeliveryExact(Run(START, es), maxLength, maxCs);
  }
}
