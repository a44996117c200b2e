/**
  The table of UDP bindings as a value: every call of the transport as a function of the state and
  of what the operating system answers. A socket is its queue of waiting datagrams.
 */
module UdpTable {
  import opened Wrappers
  import opened Bytes

  const MAX_UDP_BINDINGS := 4

  datatype Datagram = Datagram(ip: seq<byte>, port: nat, data: seq<byte>) {
    predicate Valid() {
      |ip| == 4 && port < 0x1_0000
    }
  }

  datatype Socket = Closed | Open(pending: seq<Datagram>)

  datatype Binding = Binding(socket: Socket, port: nat, instance: nat, bound: bool) {
    /** Polled, and able to have something. */
    predicate Ready() {
      bound && socket.Open?
    }
  }

  /** `bindings` is the used part of the table; `next` survives between calls. */
  datatype State = State(bindings: seq<Binding>, next: nat, currentInstance: nat, currentPort: nat)

  const START := State([], 0, 1, 47808)

  // ---- Lookup, set-up, shutdown ---------------------------------------------------------------------

  function FindFrom(bs: seq<Binding>, instance: nat, i: nat): (r: Option<nat>)
    requires i <= |bs|
    ensures r.Some? ==> i <= r.value < |bs| && bs[r.value].instance == instance
    ensures r.None? ==> forall k :: i <= k < |bs| ==> bs[k].instance != instance
    decreases |bs| - i
  {
    if i == |bs| then None else if bs[i].instance == instance then Some(i) else FindFrom(bs, instance, i + 1)
  }

  function Find(bs: seq<Binding>, instance: nat): Option<nat> {
    FindFrom(bs, instance, 0)
  }

  /** `connects` is the outcome of creating and binding the socket. */
  function SetupUDP(s: State, port: nat, instance: nat, connects: bool): (State, bool) {
    var i := Find(s.bindings, instance);
    if i.None? && |s.bindings| >= MAX_UDP_BINDINGS then (s, false)
    else
      var bs := if i.Some? then s.bindings else s.bindings + [Binding(Closed, 0, instance, false)];
      var k := if i.Some? then i.value else |s.bindings|;
      if connects then
        (s.(bindings := bs[k := Binding(Open([]), port, instance, true)],
            currentPort := if instance == s.currentInstance then port else s.currentPort),
         true)
      else (s.(bindings := bs[k := bs[k].(socket := Closed)]), false)
  }

  function ShutOne(b: Binding): Binding {
    if b.bound then b.(socket := Closed, bound := false) else b
  }

  function ShutdownUDP(s: State): State {
    s.(bindings := seq(|s.bindings|, i requires 0 <= i < |s.bindings| => ShutOne(s.bindings[i])))
  }

  // ---- Receiving --------------------------------------------------------------------------------------

  /** What a receive hands to the stack; `slot` is where it came from. */
  datatype Delivery = Delivery(slot: nat, instance: nat, connectionString: seq<byte>, data: seq<byte>)

  function ConnectionString(d: Datagram): (cs: seq<byte>)
    requires d.Valid()
    ensures |cs| == 6
  {
    d.ip + [d.port / 0x100 % 0x100, d.port % 0x100]
  }

  function Cut(data: seq<byte>, maxLength: nat): seq<byte> {
    data[..Min(|data|, maxLength)]
  }

  ghost predicate ValidQueues(bs: seq<Binding>) {
    forall i :: 0 <= i < |bs| && bs[i].socket.Open? ==> ValidQueue(bs[i].socket.pending)
  }

  ghost predicate ValidQueue(ds: seq<Datagram>) {
    forall k :: 0 <= k < |ds| ==> ds[k].Valid()
  }

  /** The slot polled k places after the rotating index. */
  function SlotAt(next: nat, k: nat, n: nat): nat
    requires n > 0
  {
    (next + k) % n
  }

  /**
    One call of `SimpleUDP::Receive` on a binding: a waiting datagram is taken off the queue even when
    nothing of it is handed on (it is empty, or the buffer has no room).
   */
  function TakeOne(b: Binding): (Binding, Option<Datagram>) {
    if b.Ready() && b.socket.pending != [] then (b.(socket := Open(b.socket.pending[1..])), Some(b.socket.pending[0]))
    else (b, None)
  }

  /** The polling loop from its k-th place on: the bindings after it, and the slot and datagram it ends on. */
  function PollFrom(bs: seq<Binding>, next: nat, k: nat, maxLength: nat): (r: (seq<Binding>, Option<(nat, Datagram)>))
    ensures |r.0| == |bs|
    ensures r.1.Some? ==> r.1.value.0 < |bs|
    decreases |bs| - k
  {
    if k >= |bs| then (bs, None)
    else
      var i := SlotAt(next, k, |bs|);
      var (b, d) := TakeOne(bs[i]);
      if d.Some? && Cut(d.value.data, maxLength) != [] then (bs[i := b], Some((i, d.value)))
      else PollFrom(bs[i := b], next, k + 1, maxLength)
  }

  /** None is the source's return value 0. */
  function ReceiveMessage(s: State, maxLength: nat, maxConnectionStringLength: nat)
    : (r: (State, Option<(nat, Datagram)>))
    ensures |r.0.bindings| == |s.bindings|
    ensures r.1.Some? ==> r.1.value.0 < |s.bindings|
  {
    if maxConnectionStringLength < 6 || |s.bindings| == 0 then (s, None)
    else
      var n := |s.bindings|;
      var (bs, r) := PollFrom(s.bindings, s.next, 0, maxLength);
      (s.(bindings := bs, next := ((if r.Some? then r.value.0 else s.next) + 1) % n), r)
  }

  /** The out-parameters of a receive that delivered. */
  function DeliveryOf(s: State, r: (nat, Datagram), maxLength: nat): Delivery
    requires r.0 < |s.bindings| && r.1.Valid()
  {
    Delivery(r.0, s.bindings[r.0].instance, ConnectionString(r.1), Cut(r.1.data, maxLength))
  }

  /** A datagram reaching an open socket waits at the end of its queue. */
  function Arrive(s: State, slot: nat, d: Datagram): (r: State)
    ensures |r.bindings| == |s.bindings|
  {
    if slot < |s.bindings| && s.bindings[slot].socket.Open?
    then s.(bindings := s.bindings[slot := s.bindings[slot].(socket := Open(s.bindings[slot].socket.pending + [d]))])
    else s
  }

  // ---- Sending ----------------------------------------------------------------------------------------

  /** What leaves the machine, and through which slot's socket. */
  datatype Transmission = Transmission(slot: nat, ip: seq<byte>, port: nat, data: seq<byte>)

  function SendMessage(s: State, message: seq<byte>, connectionString: seq<byte>, instance: nat): Option<Transmission> {
    var i := Find(s.bindings, instance);
    if i.None? || !s.bindings[i.value].bound || |connectionString| < 6 || s.bindings[i.value].socket.Closed? then None
    else Some(Transmission(i.value, connectionString[..4],
                           connectionString[4] as int * 0x100 + connectionString[5], message))
  }

  // ---- Invariant and abstract map ---------------------------------------------------------------------

  ghost predicate Invariant(s: State) {
    && |s.bindings| <= MAX_UDP_BINDINGS
    && (forall i, j :: 0 <= i < j < |s.bindings| ==> s.bindings[i].instance != s.bindings[j].instance)
    && (if s.bindings == [] then s.next == 0 else s.next < |s.bindings|)
    && (forall i :: 0 <= i < |s.bindings| && s.bindings[i].socket.Open? ==> s.bindings[i].bound)
    && ValidQueues(s.bindings)
  }

  datatype Event =
    | Setup(port: nat, instance: nat, connects: bool)
    | Shutdown
    | SetCurrent(instance: nat)
    | Arrival(slot: nat, datagram: Datagram)
    | Receive(maxLength: nat, maxConnectionStringLength: nat)
    | Send(message: seq<byte>, connectionString: seq<byte>, instance: nat)

  ghost predicate ValidEvent(e: Event) {
    e.Arrival? ==> e.datagram.Valid()
  }

  function Apply(s: State, e: Event): State {
    match e
    case Setup(port, instance, connects) => SetupUDP(s, port, instance, connects).0
    case Shutdown => ShutdownUDP(s)
    case SetCurrent(instance) => s.(currentInstance := instance)
    case Arrival(slot, d) => Arrive(s, slot, d)
    case Receive(maxLength, maxCs) => ReceiveMessage(s, maxLength, maxCs).0
    case Send(_, _, _) => s
  }

  function Run(s: State, es: seq<Event>): State {
    if es == [] then s else Apply(Run(s, es[..|es| - 1]), es[|es| - 1])
  }

  /** What callers know: the slot of each instance ever set up, which are bound, and whose socket is open. */
  datatype Abstract = Abstract(slots: map<nat, nat>, bound: set<nat>, open: set<nat>)

  function AbstractApply(a: Abstract, e: Event): Abstract {
    match e
    case Setup(_, instance, connects) =>
      if instance !in a.slots && |a.slots| >= MAX_UDP_BINDINGS then a
      else
        var slots := if instance in a.slots then a.slots else a.slots[instance := |a.slots|];
        if connects then Abstract(slots, a.bound + {instance}, a.open + {instance})
        else Abstract(slots, a.bound, a.open - {instance})
    case Shutdown => Abstract(a.slots, {}, {})
    case _ => a
  }

  function AbstractRun(es: seq<Event>): Abstract {
    if es == [] then Abstract(map[], {}, {}) else AbstractApply(AbstractRun(es[..|es| - 1]), es[|es| - 1])
  }

  ghost predicate Agrees(s: State, a: Abstract) {
    && |a.slots| == |s.bindings|
    && (forall instance :: instance in a.slots ==>
                             && a.slots[instance] < |s.bindings|
                             && s.bindings[a.slots[instance]].instance == instance)
    && (forall i :: 0 <= i < |s.bindings| ==>
          && s.bindings[i].instance in a.slots && a.slots[s.bindings[i].instance] == i
          && (s.bindings[i].bound <==> s.bindings[i].instance in a.bound)
          && (s.bindings[i].socket.Open? <==> s.bindings[i].instance in a.open))
    && a.bound <= a.slots.Keys && a.open <= a.slots.Keys
  }

  /** Polling leaves everything but the queues alone, and keeps open what is open. */
  ghost predicate SameBut(bs: seq<Binding>, cs: seq<Binding>) {
    && |bs| == |cs|
    && forall i :: 0 <= i < |bs| ==>
         && cs[i].instance == bs[i].instance && cs[i].bound == bs[i].bound && cs[i].port == bs[i].port
         && cs[i].socket.Open? == bs[i].socket.Open?
  }

  lemma {:induction false} PollSameBut(bs: seq<Binding>, next: nat, k: nat, maxLength: nat)
    requires ValidQueues(bs)
    ensures SameBut(bs, PollFrom(bs, next, k, maxLength).0)
    ensures ValidQueues(PollFrom(bs, next, k, maxLength).0)
    ensures PollFrom(bs, next, k, maxLength).1.Some? ==> PollFrom(bs, next, k, maxLength).1.value.1.Valid()
    decreases |bs| - k
  {
    if k < |bs| {
      var i := SlotAt(next, k, |bs|);
      var (b, d) := TakeOne(bs[i]);
      var cs := bs[i := b];
      assert ValidQueues(cs) by {
        if bs[i].socket.Open? {
          assert ValidQueue(bs[i].socket.pending);
        }
      }
      if !(d.Some? && Cut(d.value.data, maxLength) != []) {
        PollSameBut(cs, next, k + 1, maxLength);
      }
    }
  }

  lemma InvariantStep(s: State, e: Event)
    requires Invariant(s) && ValidEvent(e)
    ensures Invariant(Apply(s, e))
  {
    match e
    case Receive(maxLength, _) =>
      PollSameBut(s.bindings, s.next, 0, maxLength);
      hide PollFrom;
    case Arrival(slot, d) =>
      if slot < |s.bindings| && s.bindings[slot].socket.Open? {
        assert ValidQueue(s.bindings[slot].socket.pending);
      }
    case _ =>
  }

  /** Replacing the binding of one slot by another of the same instance. */
  lemma AgreesUpdate(s: State, a: Abstract, k: nat, b: Binding, s': State, a': Abstract)
    requires Agrees(s, a) && k < |s.bindings| && b.instance == s.bindings[k].instance
    requires s'.bindings == s.bindings[k := b]
    requires a'.slots == a.slots
    requires a'.bound == (if b.bound then a.bound + {b.instance} else a.bound - {b.instance})
    requires a'.open == (if b.socket.Open? then a.open + {b.instance} else a.open - {b.instance})
    ensures Agrees(s', a')
  {
  }

  lemma AgreesAppend(s: State, a: Abstract, instance: nat)
    requires Agrees(s, a) && instance !in a.slots
    ensures Agrees(s.(bindings := s.bindings + [Binding(Closed, 0, instance, false)]),
                   a.(slots := a.slots[instance := |a.slots|]))
  {
    var bs := s.bindings + [Binding(Closed, 0, instance, false)];
    assert bs[..|s.bindings|] == s.bindings;
    assert a.slots[instance := |a.slots|].Keys == a.slots.Keys + {instance};
  }

  lemma AgreesSetup(s: State, a: Abstract, port: nat, instance: nat, connects: bool)
    requires Invariant(s) && Agrees(s, a)
    ensures Agrees(SetupUDP(s, port, instance, connects).0, AbstractApply(a, Setup(port, instance, connects)))
  {
    FindAgrees(s, a, instance);
    var r, a' := SetupUDP(s, port, instance, connects).0, AbstractApply(a, Setup(port, instance, connects));
    if instance in a.slots {
      var k := a.slots[instance];
      assert !connects && !s.bindings[k].bound ==> a.bound - {instance} == a.bound;
      assert s.bindings[k].bound ==> a.bound + {instance} == a.bound;
      AgreesUpdate(s, a, k, r.bindings[k], r, a');
    } else if |s.bindings| < MAX_UDP_BINDINGS {
      AgreesAppend(s, a, instance);
      var k := |s.bindings|;
      var s1 := s.(bindings := s.bindings + [Binding(Closed, 0, instance, false)]);
      assert !connects ==> a.bound - {instance} == a.bound;
      AgreesUpdate(s1, a.(slots := a.slots[instance := k]), k, r.bindings[k], r, a');
    }
    hide Agrees;
    hide Find;
    hide Invariant;
  }

  lemma AgreesSameBut(s: State, a: Abstract, s': State)
    requires Agrees(s, a) && SameBut(s.bindings, s'.bindings)
    ensures Agrees(s', a)
  {
  }

  lemma AgreesStep(s: State, a: Abstract, e: Event)
    requires Invariant(s) && ValidEvent(e) && Agrees(s, a)
    ensures Agrees(Apply(s, e), AbstractApply(a, e))
  {
    match e
    case Setup(port, instance, connects) =>
      AgreesSetup(s, a, port, instance, connects);
      hide Agrees;
    case Receive(maxLength, _) =>
      PollSameBut(s.bindings, s.next, 0, maxLength);
      hide PollFrom;
      AgreesSameBut(s, a, Apply(s, e));
      hide Agrees;
    case Arrival(_, _) =>
      AgreesSameBut(s, a, Apply(s, e));
      hide Agrees;
    case _ =>
      hide ValidQueues;
  }

  /**
    Main result: through any run of calls and arrivals, failed set-ups included, instances stay
    distinct, at most four slots are used, the rotating index stays inside them, and lookup by
    instance is the abstract map.
   */
  lemma {:induction false} TableInvariant(es: seq<Event>)
    requires forall e :: e in es ==> ValidEvent(e)
    ensures Invariant(Run(START, es)) && Agrees(Run(START, es), AbstractRun(es))
    ensures forall instance :: Find(Run(START, es).bindings, instance) ==
              if instance in AbstractRun(es).slots then Some(AbstractRun(es).slots[instance]) else None
  {
    if es != [] {
      var front := es[..|es| - 1];
      TableInvariant(front);
      InvariantStep(Run(START, front), es[|es| - 1]);
      AgreesStep(Run(START, front), AbstractRun(front), es[|es| - 1]);
      hide Apply;
      hide AbstractApply;
    }
    var s, a := Run(START, es), AbstractRun(es);
    forall instance
      ensures Find(s.bindings, instance) == if instance in a.slots then Some(a.slots[instance]) else None
    {
      FindAgrees(s, a, instance);
    }
  }

  lemma FindAgrees(s: State, a: Abstract, instance: nat)
    requires Agrees(s, a)
    ensures Find(s.bindings, instance) == if instance in a.slots then Some(a.slots[instance]) else None
  {
  }

  /**
    A binding sends exactly while its last set-up since the last shutdown succeeded: the whole message,
    through the instance's own slot, to the address and big-endian port the first six octets name. A
    failed set-up of an instance that is already bound leaves it bound with no socket: it then neither
    sends nor receives.
   */
  lemma SendsIffOpen(es: seq<Event>, message: seq<byte>, connectionString: seq<byte>, instance: nat)
    requires forall e :: e in es ==> ValidEvent(e)
    ensures SendMessage(Run(START, es), message, connectionString, instance).Some?
       <==> |connectionString| >= 6 && instance in AbstractRun(es).open
    ensures AbstractRun(es).open <= AbstractRun(es).bound
    ensures var t := SendMessage(Run(START, es), message, connectionString, instance);
            t.Some? ==>
              && instance in AbstractRun(es).slots && t.value.slot == AbstractRun(es).slots[instance]
              && t.value.data == message
              && |t.value.ip| == 4 && t.value.port < 0x1_0000
              && connectionString[..6] == t.value.ip + [t.value.port / 0x100, t.value.port % 0x100]
  {
    TableInvariant(es);
    SendMeans(Run(START, es), message, connectionString, instance);
    hide Run;
    hide AbstractRun;
    hide Find;
    hide Invariant;
    hide SendMessage;
    var s, a := Run(START, es), AbstractRun(es);
    forall i | i in a.open
      ensures i in a.bound
    {
      assert s.bindings[a.slots[i]].socket.Open?;
    }
  }

  lemma SendMeans(s: State, message: seq<byte>, connectionString: seq<byte>, instance: nat)
    ensures var t, slot := SendMessage(s, message, connectionString, instance), Find(s.bindings, instance);
            && (t.Some? <==> |connectionString| >= 6 && slot.Some? && s.bindings[slot.value].bound
                             && s.bindings[slot.value].socket.Open?)
            && (t.Some? ==>
                  && t.value.slot == slot.value && t.value.data == message
                  && |t.value.ip| == 4 && t.value.port < 0x1_0000
                  && connectionString[..6] == t.value.ip + [t.value.port / 0x100, t.value.port % 0x100])
  {
    hide FindFrom;
  }

  lemma FailedRebind(es: seq<Event>, port: nat, instance: nat)
    requires forall e :: e in es ==> ValidEvent(e)
    requires instance in AbstractRun(es).bound
    ensures var after := es + [Setup(port, instance, false)];
            instance in AbstractRun(after).bound && instance !in AbstractRun(after).open
  {
    TableInvariant(es);
    var after := es + [Setup(port, instance, false)];
    assert after[..|after| - 1] == es;
  }

  /**
    The result of a set-up tells whether the instance has a socket afterwards: it connected, and the
    instance had a slot or one of the four was free. The socket is then new, so nothing waits on it.
   */
  lemma SetupTells(es: seq<Event>, port: nat, instance: nat, connects: bool)
    requires forall e :: e in es ==> ValidEvent(e)
    ensures var (s, ok) := SetupUDP(Run(START, es), port, instance, connects);
            var slots := AbstractRun(es).slots;
            && (ok <==> connects && (instance in slots || |slots| < 4))
            && (ok <==> instance in AbstractRun(es + [Setup(port, instance, connects)]).open)
            && (ok ==> Binding(Open([]), port, instance, true) in s.bindings)
  {
    TableInvariant(es);
    hide Run;
    hide Invariant;
    hide Find;
    var after := es + [Setup(port, instance, connects)];
    assert after[..|after| - 1] == es;
    var s, a := Run(START, es), AbstractRun(es);
    assert instance in a.open ==> instance in a.slots;
    var t := SetupUDP(s, port, instance, connects).0;
    if connects && instance in a.slots {
      assert t.bindings[a.slots[instance]].port == port;
    } else if connects && |a.slots| < 4 {
      assert t.bindings[|s.bindings|].port == port;
    }
  }

  // ---- Ports and the current instance ---------------------------------------------------------------

  /** The instance last made current; 1 at the start. */
  function CurrentInstance(es: seq<Event>): nat {
    if es == [] then 1
    else if es[|es| - 1].SetCurrent? then es[|es| - 1].instance
    else CurrentInstance(es[..|es| - 1])
  }

  /** The last event of a run opened a socket for this instance. */
  ghost predicate JustOpened(es: seq<Event>, instance: nat)
    requires es != []
  {
    var e := es[|es| - 1];
    e.Setup? && e.instance == instance && instance in AbstractRun(es).open
  }

  /** The port of the last set-up that opened a socket for what was then the current instance; 47808 before. */
  ghost function CurrentPort(es: seq<Event>): nat {
    if es == [] then 47808
    else if JustOpened(es, CurrentInstance(es)) then es[|es| - 1].port
    else CurrentPort(es[..|es| - 1])
  }

  /** The port of the last set-up that opened a socket for the instance; 0 before. */
  ghost function PortOf(es: seq<Event>, instance: nat): nat {
    if es == [] then 0
    else if JustOpened(es, instance) then es[|es| - 1].port
    else PortOf(es[..|es| - 1], instance)
  }

  ghost predicate PortsMatch(es: seq<Event>) {
    var s := Run(START, es);
    && s.currentInstance == CurrentInstance(es) && s.currentPort == CurrentPort(es)
    && (forall k :: 0 <= k < |s.bindings| ==> s.bindings[k].port == PortOf(es, s.bindings[k].instance))
    && (forall instance :: instance !in AbstractRun(es).slots ==> PortOf(es, instance) == 0)
  }

  /** What the table says of ports and of the current instance is the history of set-ups, over every run. */
  lemma {:induction false} PortsOfHistory(es: seq<Event>)
    requires forall e :: e in es ==> ValidEvent(e)
    ensures Run(START, es).currentInstance == CurrentInstance(es)
    ensures Run(START, es).currentPort == CurrentPort(es)
    ensures forall k :: 0 <= k < |Run(START, es).bindings| ==>
              Run(START, es).bindings[k].port == PortOf(es, Run(START, es).bindings[k].instance)
    ensures PortsMatch(es)
  {
    if es != [] {
      var front, e := es[..|es| - 1], es[|es| - 1];
      assert es == front + [e];
      PortsOfHistory(front);
      hide PortsMatch;
      if e.Setup? {
        PortsMatchSetup(front, e);
      } else {
        PortsMatchOther(front, e);
      }
    }
  }

  lemma PortsMatchOther(es: seq<Event>, e: Event)
    requires PortsMatch(es) && !e.Setup? && forall f :: f in es + [e] ==> ValidEvent(f)
    ensures PortsMatch(es + [e])
  {
    TableInvariant(es);
    SlotsKept(es, e);
    PortsKept(Run(START, es), e);
    hide Apply;
    hide AbstractApply;
    hide Invariant;
    assert (es + [e])[..|es|] == es;
  }

  lemma PortsMatchSetup(es: seq<Event>, e: Event)
    requires PortsMatch(es) && e.Setup? && forall f :: f in es + [e] ==> ValidEvent(f)
    ensures PortsMatch(es + [e])
  {
    assert forall f :: f in es ==> f in es + [e];
    SlotsKept(es, e);
    PortsSetup(es, e);
    HistoryStep(es, e);
    KnownInstances(es);
    hide Run;
    hide Apply;
    hide AbstractRun;
    hide CurrentInstance;
    hide CurrentPort;
    hide PortOf;
    hide JustOpened;
  }

  lemma HistoryStep(es: seq<Event>, e: Event)
    requires e.Setup?
    ensures Run(START, es + [e]) == Apply(Run(START, es), e)
    ensures CurrentInstance(es + [e]) == CurrentInstance(es)
    ensures CurrentPort(es + [e]) == if JustOpened(es + [e], CurrentInstance(es)) then e.port else CurrentPort(es)
    ensures forall i :: JustOpened(es + [e], i) ==> i == e.instance && i in AbstractRun(es + [e]).open
    ensures forall i :: PortOf(es + [e], i) == if JustOpened(es + [e], i) then e.port else PortOf(es, i)
  {
    assert (es + [e])[..|es|] == es;
  }

  lemma KnownInstances(es: seq<Event>)
    requires forall e :: e in es ==> ValidEvent(e)
    ensures forall k :: 0 <= k < |Run(START, es).bindings| ==>
              Run(START, es).bindings[k].instance in AbstractRun(es).slots
  {
    TableInvariant(es);
    hide Run;
    hide AbstractRun;
  }

  /** Slots are never given up, and only an instance with a slot has a socket. */
  lemma SlotsKept(es: seq<Event>, e: Event)
    requires forall f :: f in es + [e] ==> ValidEvent(f)
    ensures AbstractRun(es).slots.Keys <= AbstractRun(es + [e]).slots.Keys
    ensures AbstractRun(es + [e]).open <= AbstractRun(es + [e]).slots.Keys
  {
    TableInvariant(es + [e]);
    hide Run;
    hide Invariant;
    hide FindFrom;
    assert (es + [e])[..|es|] == es;
  }

  lemma PortsKept(s: State, e: Event)
    requires Invariant(s) && !e.Setup?
    ensures var t := Apply(s, e);
            && t.currentPort == s.currentPort
            && t.currentInstance == (if e.SetCurrent? then e.instance else s.currentInstance)
            && |t.bindings| == |s.bindings|
            && forall k :: 0 <= k < |s.bindings| ==>
                 t.bindings[k].port == s.bindings[k].port && t.bindings[k].instance == s.bindings[k].instance
  {
    if e.Receive? {
      PollSameBut(s.bindings, s.next, 0, e.maxLength);
      hide PollFrom;
    }
  }

  lemma PortsSetup(es: seq<Event>, e: Event)
    requires e.Setup? && forall f :: f in es ==> ValidEvent(f)
    ensures var s, t := Run(START, es), Apply(Run(START, es), e);
            var opens := JustOpened(es + [e], e.instance);
            && t.currentInstance == s.currentInstance
            && t.currentPort == (if opens && e.instance == s.currentInstance then e.port else s.currentPort)
            && forall k :: 0 <= k < |t.bindings| ==>
                 && (t.bindings[k].instance == e.instance ==>
                       t.bindings[k].port
                       == if opens then e.port
                          else if k < |s.bindings| then s.bindings[k].port else 0)
                 && (t.bindings[k].instance != e.instance ==>
                       k < |s.bindings| && t.bindings[k] == s.bindings[k])
                 && (k < |s.bindings| ==> t.bindings[k].instance == s.bindings[k].instance)
                 && (k >= |s.bindings| ==> e.instance !in AbstractRun(es).slots)
  {
    SetupTells(es, e.port, e.instance, e.connects);
    TableInvariant(es);
    hide Run;
    hide AbstractRun;
    hide FindFrom;
  }
}
