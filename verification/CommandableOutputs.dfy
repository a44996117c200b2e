/**
  The commandable outputs: three objects with a 16-slot priority array each, the callbacks that
  command and read them as functions of the state, and what a reader can see after any sequence of
  commands. `OutputStation` holds the arrays themselves.
 */
module CommandableOutputs {
  import opened Wrappers
  import opened Bytes

  // ---- Constants of the source --------------------------------------------------------------------

  const ANALOG_INPUT := 0
  const ANALOG_OUTPUT := 1
  const BINARY_INPUT := 3
  const BINARY_OUTPUT := 4
  const DEVICE := 8
  const MULTI_STATE_INPUT := 13
  const MULTI_STATE_OUTPUT := 14
  const NETWORK_PORT := 56

  const NUMBER_OF_STATES := 74
  const OUT_OF_SERVICE := 81
  const POLARITY := 84
  const PRESENT_VALUE := 85
  const PRIORITY_ARRAY := 87
  const RELINQUISH_DEFAULT := 104
  const STATE_TEXT := 110
  const UNITS := 117
  const VENDOR_IDENTIFIER := 120
  const APDU_LENGTH := 399
  const BACNET_IP_MODE := 408
  const BACNET_IP_UDP_PORT := 412
  const REFERENCE_PORT := 483

  const VALUE_OUT_OF_RANGE := 37
  const SLOTS := 16

  // ---- State ----------------------------------------------------------------------------------------

  datatype Slots = Slots(isSet: seq<bool>, value: seq<real>, relinquishDefault: real) {
    predicate Valid() {
      |isSet| == SLOTS && |value| == SLOTS
    }
  }

  /** The three commandable objects, all instance 1. */
  datatype Object = AnalogOutput | BinaryOutput | MultiStateOutput

  datatype Station = Station(
    deviceInstance: nat,
    analogInput1: real,
    udpPort1: nat,
    udpPort2: nat,
    analog: Slots,
    binary: Slots,
    multiState: Slots)
  {
    predicate Valid() {
      analog.Valid() && binary.Valid() && multiState.Valid()
    }

    function Of(o: Object): Slots {
      match o
      case AnalogOutput => analog
      case BinaryOutput => binary
      case MultiStateOutput => multiState
    }

    function With(o: Object, s: Slots): Station {
      match o
      case AnalogOutput => this.(analog := s)
      case BinaryOutput => this.(binary := s)
      case MultiStateOutput => this.(multiState := s)
    }
  }

  function Unset(relinquishDefault: real): (s: Slots)
    ensures s.Valid()
  {
    Slots(seq(SLOTS, _ => false), seq(SLOTS, _ => 0.0), relinquishDefault)
  }

  /** The state the program starts in. */
  function Initial(deviceInstance: nat, analogInput1: real, udpPort1: nat, udpPort2: nat): (st: Station)
    ensures st.Valid()
  {
    Station(deviceInstance, analogInput1, udpPort1, udpPort2, Unset(20.0), Unset(0.0), Unset(1.0))
  }

  function GetCommandable(objectType: nat, objectInstance: nat): Option<Object> {
    if objectType == ANALOG_OUTPUT && objectInstance == 1 then Some(AnalogOutput)
    else if objectType == BINARY_OUTPUT && objectInstance == 1 then Some(BinaryOutput)
    else if objectType == MULTI_STATE_OUTPUT && objectInstance == 1 then Some(MultiStateOutput)
    else None
  }

  /** 1 to 16 as they are; 0 and everything above land in slot 16. */
  function EffectivePriority(priority: byte): (p: nat)
    ensures 1 <= p <= SLOTS
    ensures p == 16 <==> priority == 0 || priority >= 16
    ensures p < 16 ==> p == priority
  {
    if 1 <= priority <= SLOTS then priority else 16
  }

  // ---- Commands -------------------------------------------------------------------------------------

  datatype Target = Target(deviceInstance: nat, objectType: nat, objectInstance: nat, property: nat)

  /** One call of a set callback; the array index arguments are ignored by the source. */
  datatype Command =
    | SetReal(target: Target, newValue: real, priority: byte)
    | SetEnumerated(target: Target, code: nat, priority: byte)
    | SetUnsigned(target: Target, code: nat, priority: byte)
    | SetNull(target: Target, priority: byte)

  /** What an accepted command does: one slot of one object gets a value or loses it. */
  datatype Effect = Effect(output: Object, slot: nat, value: Option<real>)

  function Commanded(st: Station, t: Target): Option<Object> {
    if t.deviceInstance == st.deviceInstance && t.property == PRESENT_VALUE
    then GetCommandable(t.objectType, t.objectInstance)
    else None
  }

  function InRange(c: Command): bool {
    match c
    case SetEnumerated(_, code, _) => code <= 1
    case SetUnsigned(_, code, _) => 1 <= code <= 3
    case _ => true
  }

  /** The object a typed set callback writes; a null write fits all three. */
  function TypedFor(c: Command): Option<Object> {
    match c
    case SetReal(_, _, _) => Some(AnalogOutput)
    case SetEnumerated(_, _, _) => Some(BinaryOutput)
    case SetUnsigned(_, _, _) => Some(MultiStateOutput)
    case SetNull(_, _) => None
  }

  function CommandValue(c: Command): Option<real> {
    match c
    case SetReal(_, value, _) => Some(value)
    case SetEnumerated(_, code, _) => Some(code as real)
    case SetUnsigned(_, code, _) => Some(code as real)
    case SetNull(_, _) => None
  }

  /** None when the callback returns false. */
  function EffectOf(st: Station, c: Command): (e: Option<Effect>)
    ensures e.Some? ==> 1 <= e.value.slot <= SLOTS
  {
    var o := Commanded(st, c.target);
    if o.None? || (TypedFor(c).Some? && TypedFor(c) != o) || !InRange(c) then None
    else Some(Effect(o.value, EffectivePriority(c.priority), CommandValue(c)))
  }

  function ApplyTo(s: Slots, slot: nat, value: Option<real>): (r: Slots)
    requires s.Valid() && 1 <= slot <= SLOTS
    ensures r.Valid()
  {
    if value.Some? then s.(isSet := s.isSet[slot - 1 := true], value := s.value[slot - 1 := value.value])
    else s.(isSet := s.isSet[slot - 1 := false])
  }

  function Step(st: Station, c: Command): (r: Station)
    requires st.Valid()
    ensures r.Valid() && r.deviceInstance == st.deviceInstance
  {
    match EffectOf(st, c)
    case None => st
    case Some(e) => st.With(e.output, ApplyTo(st.Of(e.output), e.slot, e.value))
  }

  function Run(st: Station, cs: seq<Command>): (r: Station)
    requires st.Valid()
    ensures r.Valid() && r.deviceInstance == st.deviceInstance
  {
    if cs == [] then st else Step(Run(st, cs[..|cs| - 1]), cs[|cs| - 1])
  }

  // ---- Reading --------------------------------------------------------------------------------------

  datatype Query = Query(deviceInstance: nat, objectType: nat, objectInstance: nat, property: nat,
                         useArrayIndex: bool, arrayIndex: nat)

  /** `ReadPrioritySlot`: None when the query is not for a slot, else whether it is set and its value. */
  function ReadPrioritySlot(s: Slots, q: Query): Option<(bool, real)>
    requires s.Valid()
  {
    if q.property != PRIORITY_ARRAY || !q.useArrayIndex || q.arrayIndex < 1 || q.arrayIndex > SLOTS then None
    else Some((s.isSet[q.arrayIndex - 1], s.value[q.arrayIndex - 1]))
  }

  /**
    The conversion to `uint32_t`. Outside its range the source's conversion is undefined; no reachable
    state gets there.
   */
  function ToUnsigned(v: real): nat {
    if 0.0 <= v < 4294967296.0 then v.Floor else 0
  }

  function GetPropertyReal(st: Station, q: Query): Option<real>
    requires st.Valid()
  {
    if q.deviceInstance != st.deviceInstance then None
    else if q.objectType == ANALOG_INPUT && q.objectInstance == 1 && q.property == PRESENT_VALUE then
      Some(st.analogInput1)
    else if GetCommandable(q.objectType, q.objectInstance) == Some(AnalogOutput) then
      match ReadPrioritySlot(st.analog, q)
      case Some((isSet, value)) => if isSet then Some(value) else None
      case None => if q.property == RELINQUISH_DEFAULT then Some(st.analog.relinquishDefault) else None
    else None
  }

  function GetPropertyEnumerated(st: Station, q: Query): Option<nat>
    requires st.Valid()
  {
    if q.deviceInstance != st.deviceInstance then None
    else if q.objectType == BINARY_INPUT && q.objectInstance == 1 && q.property in {PRESENT_VALUE, POLARITY} then
      Some(0)
    else
      var c := GetCommandable(q.objectType, q.objectInstance);
      if c == Some(BinaryOutput) && ReadPrioritySlot(st.binary, q).Some? then
        var (isSet, value) := ReadPrioritySlot(st.binary, q).value;
        if isSet then Some(ToUnsigned(value)) else None
      else if c == Some(BinaryOutput) && q.property == RELINQUISH_DEFAULT then
        Some(ToUnsigned(st.binary.relinquishDefault))
      else if c == Some(BinaryOutput) && q.property == POLARITY then Some(0)
      else if q.property == UNITS && q.objectType in {ANALOG_INPUT, ANALOG_OUTPUT} && q.objectInstance == 1 then
        Some(62)
      else if q.objectType == NETWORK_PORT && q.property == BACNET_IP_MODE then Some(0)
      else None
  }

  function NetworkPortUnsigned(udpPort1: nat, udpPort2: nat, q: Query): Option<nat> {
    if q.objectType == NETWORK_PORT && q.objectInstance in {1, 2} then
      if q.property == APDU_LENGTH then Some(1476)
      else if q.property == REFERENCE_PORT then Some(4194303)
      else if q.property == BACNET_IP_UDP_PORT then Some(if q.objectInstance == 1 then udpPort1 else udpPort2)
      else None
    else None
  }

  /** The answers that depend on no commandable object. */
  function FixedUnsigned(deviceInstance: nat, udpPort1: nat, udpPort2: nat, q: Query): Option<nat> {
    if q.objectType == MULTI_STATE_INPUT && q.objectInstance == 1 && q.property == PRESENT_VALUE then Some(1)
    else if q.objectType == MULTI_STATE_INPUT && q.objectInstance == 1
            && (q.property == NUMBER_OF_STATES || (q.property == STATE_TEXT && q.useArrayIndex && q.arrayIndex == 0))
    then
      Some(3)
    else if q.objectType == DEVICE && q.objectInstance == deviceInstance && q.property == VENDOR_IDENTIFIER then
      Some(389)
    else NetworkPortUnsigned(udpPort1, udpPort2, q)
  }

  function GetPropertyUnsignedInteger(st: Station, q: Query): Option<nat>
    requires st.Valid()
  {
    if q.deviceInstance != st.deviceInstance then None
    else if FixedUnsigned(st.deviceInstance, st.udpPort1, st.udpPort2, q).Some? then
      FixedUnsigned(st.deviceInstance, st.udpPort1, st.udpPort2, q)
    else if GetCommandable(q.objectType, q.objectInstance) == Some(MultiStateOutput) then
      match ReadPrioritySlot(st.multiState, q)
      case Some((isSet, value)) => if isSet then Some(ToUnsigned(value)) else None
      case None =>
        if q.property == RELINQUISH_DEFAULT then Some(ToUnsigned(st.multiState.relinquishDefault))
        else if q.property == NUMBER_OF_STATES then Some(3)
        else None
    else None
  }

  function GetPropertyBool(st: Station, q: Query): Option<bool>
    requires st.Valid()
  {
    if q.deviceInstance != st.deviceInstance then None
    else
      var c := GetCommandable(q.objectType, q.objectInstance);
      if c.Some? && q.property == PRIORITY_ARRAY && q.useArrayIndex && 1 <= q.arrayIndex <= SLOTS then
        Some(!st.Of(c.value).isSet[q.arrayIndex - 1])
      else if q.property == OUT_OF_SERVICE
              && q.objectType in {ANALOG_INPUT, BINARY_INPUT, MULTI_STATE_INPUT, ANALOG_OUTPUT, BINARY_OUTPUT,
                                  MULTI_STATE_OUTPUT, NETWORK_PORT} then
        Some(false)
      else None
  }

  // ---- What a reader sees of one object ---------------------------------------------------------------

  /** The object types as Clause 21 numbers them. */
  function ObjectType(o: Object): nat {
    match o
    case AnalogOutput => 1
    case BinaryOutput => 4
    case MultiStateOutput => 14
  }

  /** Priority_Array (87) with an array index. */
  function SlotQuery(st: Station, o: Object, p: nat): Query {
    Query(st.deviceInstance, ObjectType(o), 1, 87, true, p)
  }

  /** Relinquish_Default (104). */
  function DefaultQuery(st: Station, o: Object): Query {
    Query(st.deviceInstance, ObjectType(o), 1, 104, false, 0)
  }

  /** The answer of the object's own typed getter, as a number. */
  function TypedAnswer(st: Station, o: Object, q: Query): Option<real>
    requires st.Valid()
  {
    match o
    case AnalogOutput => GetPropertyReal(st, q)
    case BinaryOutput =>
      (match GetPropertyEnumerated(st, q) case None => None case Some(n) => Some(n as real))
    case MultiStateOutput =>
      (match GetPropertyUnsignedInteger(st, q) case None => None case Some(n) => Some(n as real))
  }

  /** A value the object may legally hold. */
  predicate Legal(o: Object, v: real) {
    match o
    case AnalogOutput => true
    case BinaryOutput => v == 0.0 || v == 1.0
    case MultiStateOutput => v == 1.0 || v == 2.0 || v == 3.0
  }

  ghost predicate LegalSlots(o: Object, s: Slots)
    requires s.Valid()
  {
    Legal(o, s.relinquishDefault) && forall p :: 0 <= p < SLOTS && s.isSet[p] ==> Legal(o, s.value[p])
  }

  ghost predicate LegalState(st: Station)
    requires st.Valid()
  {
    forall o: Object :: LegalSlots(o, st.Of(o))
  }

  lemma StepKeepsLegal(st: Station, c: Command)
    requires st.Valid() && LegalState(st)
    ensures LegalState(Step(st, c))
  {
    var e := EffectOf(st, c);
    if e.Some? {
      assert e.value.value.Some? ==> Legal(e.value.output, e.value.value.value);
      forall o: Object
        ensures LegalSlots(o, Step(st, c).Of(o))
      {
        assert LegalSlots(o, st.Of(o));
      }
    }
  }

  lemma {:induction false} RunKeepsLegal(st: Station, cs: seq<Command>)
    requires st.Valid() && LegalState(st)
    ensures LegalState(Run(st, cs))
  {
    if cs != [] {
      RunKeepsLegal(st, cs[..|cs| - 1]);
      StepKeepsLegal(Run(st, cs[..|cs| - 1]), cs[|cs| - 1]);
    }
  }

  lemma InitialLegal(deviceInstance: nat, analogInput1: real, udpPort1: nat, udpPort2: nat)
    ensures LegalState(Initial(deviceInstance, analogInput1, udpPort1, udpPort2))
    ensures forall o: Object, p :: 0 <= p < SLOTS ==>
              !Initial(deviceInstance, analogInput1, udpPort1, udpPort2).Of(o).isSet[p]
  {
  }

  /** A stored number survives the conversion to `double` and back. */
  lemma LegalReadBack(o: Object, v: real)
    requires Legal(o, v) && o != AnalogOutput
    ensures ToUnsigned(v) as real == v
  {
  }

  /**
    Null agreement: in every legal state the Boolean getter calls a slot null exactly when the typed
    getter declines it, and a slot that is not null is answered with the stored value.
   */
  lemma NullAgreement(st: Station, o: Object, p: nat)
    requires st.Valid() && LegalState(st) && 1 <= p <= SLOTS
    ensures GetPropertyBool(st, SlotQuery(st, o, p)) == Some(TypedAnswer(st, o, SlotQuery(st, o, p)) == None)
    ensures TypedAnswer(st, o, SlotQuery(st, o, p))
            == (if st.Of(o).isSet[p - 1] then Some(st.Of(o).value[p - 1]) else None)
    ensures TypedAnswer(st, o, DefaultQuery(st, o)) == Some(st.Of(o).relinquishDefault)
  {
    assert LegalSlots(o, st.Of(o));
    if o != AnalogOutput {
      LegalReadBack(o, st.Of(o).relinquishDefault);
      if st.Of(o).isSet[p - 1] {
        LegalReadBack(o, st.Of(o).value[p - 1]);
      }
    }
  }

  // ---- The properties of the device, object by object --------------------------------------------------

  /** A value in one of the three datatypes the numeric getters answer in. */
  datatype Value = RealValue(analog: real) | EnumeratedValue(code: nat) | UnsignedValue(number: nat)

  /** Priority_Array (87) with an index of a slot that is set, or Relinquish_Default (104). */
  function OutputValue(s: Slots, q: Query): Option<real>
    requires s.Valid()
  {
    if q.property == 104 then Some(s.relinquishDefault)
    else if q.property == 87 && q.useArrayIndex && 1 <= q.arrayIndex <= 16 then SlotOf(s, q.arrayIndex)
    else None
  }

  /**
    What the device has to say about a property, by object type and property number of Clauses 12 and
    21: Analog Input 0, Analog Output 1, Binary Input 3, Binary Output 4, Device 8, Multi-State Input 13,
    Multi-State Output 14, Network Port 56.
   */
  function Property(st: Station, q: Query): Option<Value>
    requires st.Valid()
  {
    match q.objectType
    case 0 =>
      if q.objectInstance != 1 then None
      else if q.property == 85 then Some(RealValue(st.analogInput1))
      else if q.property == 117 then Some(EnumeratedValue(62))
      else None
    case 1 =>
      if q.objectInstance != 1 then None
      else if q.property == 117 then Some(EnumeratedValue(62))
      else (match OutputValue(st.analog, q) case Some(v) => Some(RealValue(v)) case None => None)
    case 3 =>
      if q.objectInstance == 1 && q.property in {84, 85} then Some(EnumeratedValue(0)) else None
    case 4 =>
      if q.objectInstance != 1 then None
      else if q.property == 84 then Some(EnumeratedValue(0))
      else (match OutputValue(st.binary, q) case Some(v) => Some(EnumeratedValue(ToUnsigned(v))) case None => None)
    case 8 =>
      if q.objectInstance == st.deviceInstance && q.property == 120 then Some(UnsignedValue(389)) else None
    case 13 =>
      if q.objectInstance != 1 then None
      else if q.property == 85 then Some(UnsignedValue(1))
      else if q.property == 74 then Some(UnsignedValue(3))
      else if q.property == 110 && q.useArrayIndex && q.arrayIndex == 0 then Some(UnsignedValue(3))
      else None
    case 14 =>
      if q.objectInstance != 1 then None
      else if q.property == 74 then Some(UnsignedValue(3))
      else (match OutputValue(st.multiState, q) case Some(v) => Some(UnsignedValue(ToUnsigned(v))) case None => None)
    case 56 =>
      if q.property == 408 then Some(EnumeratedValue(0))
      else if q.objectInstance != 1 && q.objectInstance != 2 then None
      else if q.property == 399 then Some(UnsignedValue(1476))
      else if q.property == 412 then Some(UnsignedValue(if q.objectInstance == 1 then st.udpPort1 else st.udpPort2))
      else if q.property == 483 then Some(UnsignedValue(4194303))
      else None
    case _ => None
  }

  /**
    The three numeric getters, organised by datatype, answer exactly what the device has to say of each
    property, organised by object: each in its own datatype, so that no two of them answer one query.
   */
  lemma GettersAnswerProperties(st: Station, q: Query)
    requires st.Valid()
    ensures var p := if q.deviceInstance == st.deviceInstance then Property(st, q) else None;
            && GetPropertyReal(st, q) == (if p.Some? && p.value.RealValue? then Some(p.value.analog) else None)
            && GetPropertyEnumerated(st, q)
               == (if p.Some? && p.value.EnumeratedValue? then Some(p.value.code) else None)
            && GetPropertyUnsignedInteger(st, q)
               == (if p.Some? && p.value.UnsignedValue? then Some(p.value.number) else None)
  {
    hide ToUnsigned;
  }

  /**
    The Boolean getter: whether a slot of an output is null, and Out_Of_Service (81) false for every
    object of the seven types; nothing else, and nothing to another device.
   */
  lemma BooleanAnswers(st: Station, q: Query)
    requires st.Valid()
    ensures GetPropertyBool(st, q) == Some(true)
       <==> && q.deviceInstance == st.deviceInstance
            && exists o: Object, p :: 1 <= p <= 16 && q == SlotQuery(st, o, p) && SlotOf(st.Of(o), p) == None
    ensures GetPropertyBool(st, q) == Some(false)
       <==> && q.deviceInstance == st.deviceInstance
            && ((q.property == 81 && q.objectType in {0, 1, 3, 4, 13, 14, 56})
                || exists o: Object, p :: 1 <= p <= 16 && q == SlotQuery(st, o, p) && SlotOf(st.Of(o), p).Some?)
  {
    if GetPropertyBool(st, q).Some? && q.property == PRIORITY_ARRAY {
      var o := GetCommandable(q.objectType, q.objectInstance).value;
      assert q == SlotQuery(st, o, q.arrayIndex);
    }
  }

  // ---- Command history --------------------------------------------------------------------------------

  /** Present_Value (85) of the object. */
  predicate Addresses(t: Target, o: Object) {
    t.objectType == ObjectType(o) && t.objectInstance == 1 && t.property == 85
  }

  /** A command for this object that the device has to accept: any real, inactive or active, one of three states. */
  predicate Accepted(deviceInstance: nat, c: Command, o: Object) {
    && c.target.deviceInstance == deviceInstance && Addresses(c.target, o)
    && match c
       case SetReal(_, _, _) => o == AnalogOutput
       case SetEnumerated(_, code, _) => o == BinaryOutput && (code == 0 || code == 1)
       case SetUnsigned(_, code, _) => o == MultiStateOutput && (code == 1 || code == 2 || code == 3)
       case SetNull(_, _) => true
  }

  /** A command for the right object with a number it cannot take. */
  predicate OutOfRange(deviceInstance: nat, c: Command) {
    && c.target.deviceInstance == deviceInstance
    && match c
       case SetEnumerated(_, code, _) => Addresses(c.target, BinaryOutput) && code > 1
       case SetUnsigned(_, code, _) => Addresses(c.target, MultiStateOutput) && (code == 0 || code > 3)
       case _ => false
  }

  /** Accepted, and at this priority: 0 and all above 16 count as 16. */
  predicate Touches(st: Station, c: Command, o: Object, p: nat) {
    && Accepted(st.deviceInstance, c, o)
    && 1 <= p <= 16 && (p == c.priority || (p == 16 && (c.priority == 0 || c.priority > 16)))
  }

  /** What an accepted command leaves in its slot: its own number, or nothing. */
  predicate Leaves(c: Command, v: Option<real>) {
    match c
    case SetReal(_, newValue, _) => v == Some(newValue)
    case SetEnumerated(_, code, _) => v == Some(code as real)
    case SetUnsigned(_, code, _) => v == Some(code as real)
    case SetNull(_, _) => v == None
  }

  /** The effect on the slots is that of exactly the accepted commands. */
  lemma AcceptedExactly(st: Station, c: Command)
    ensures EffectOf(st, c).Some? <==> exists o: Object :: Accepted(st.deviceInstance, c, o)
    ensures forall o, p ::
              Touches(st, c, o, p)
              <==> EffectOf(st, c).Some? && EffectOf(st, c).value.output == o && EffectOf(st, c).value.slot == p
    ensures EffectOf(st, c).Some? ==> Leaves(c, EffectOf(st, c).value.value)
  {
    if EffectOf(st, c).Some? {
      assert Accepted(st.deviceInstance, c, EffectOf(st, c).value.output);
    }
  }

  /**
    A write is answered with its own number by the object's typed getter, in its own type, and a
    relinquished slot is declined; the other slots of the three objects answer as before.
   */
  lemma WriteThenRead(st: Station, c: Command, o: Object, p: nat)
    requires st.Valid() && LegalState(st) && 1 <= p <= SLOTS
    ensures var after, q := Step(st, c), SlotQuery(st, o, p);
            if Touches(st, c, o, p) then
              && GetPropertyBool(after, q) == Some(c.SetNull?)
              && match c
                 case SetReal(_, newValue, _) => GetPropertyReal(after, q) == Some(newValue)
                 case SetEnumerated(_, code, _) => GetPropertyEnumerated(after, q) == Some(code)
                 case SetUnsigned(_, code, _) => GetPropertyUnsignedInteger(after, q) == Some(code)
                 case SetNull(_, _) => TypedAnswer(after, o, q) == None
            else
              && GetPropertyBool(after, q) == GetPropertyBool(st, q)
              && TypedAnswer(after, o, q) == TypedAnswer(st, o, q)
  {
    StepKeepsLegal(st, c);
    NullAgreement(st, o, p);
    NullAgreement(Step(st, c), o, p);
    StepSlot(st, c, o, p);
    hide Step;
    hide LegalState;
  }

  /** The value of the last accepted command at slot p of o, if that was a write. */
  ghost predicate LastCommand(st: Station, cs: seq<Command>, o: Object, p: nat, v: Option<real>) {
    if exists i :: 0 <= i < |cs| && Touches(st, cs[i], o, p) then
      exists i :: 0 <= i < |cs| && Touches(st, cs[i], o, p) && Leaves(cs[i], v)
        && forall j :: i < j < |cs| ==> !Touches(st, cs[j], o, p)
    else v == None
  }

  function SlotOf(s: Slots, p: nat): Option<real>
    requires s.Valid() && 1 <= p <= SLOTS
  {
    if s.isSet[p - 1] then Some(s.value[p - 1]) else None
  }

  lemma StepSlot(st: Station, c: Command, o: Object, p: nat)
    requires st.Valid() && 1 <= p <= SLOTS
    ensures if Touches(st, c, o, p) then Leaves(c, SlotOf(Step(st, c).Of(o), p))
            else SlotOf(Step(st, c).Of(o), p) == SlotOf(st.Of(o), p)
  {
    AcceptedExactly(st, c);
    hide EffectOf;
    hide Touches;
    hide Leaves;
  }

  lemma EffectDependsOnDevice(st: Station, st': Station, c: Command)
    requires st.deviceInstance == st'.deviceInstance
    ensures EffectOf(st, c) == EffectOf(st', c)
  {
  }

  lemma LastCommandStep(st: Station, cs: seq<Command>, c: Command, o: Object, p: nat, v: Option<real>)
    requires if Touches(st, c, o, p) then Leaves(c, v) else LastCommand(st, cs, o, p, v)
    ensures LastCommand(st, cs + [c], o, p, v)
  {
    hide Touches;
    hide Leaves;
    var ds := cs + [c];
    assert forall i :: 0 <= i < |cs| ==> ds[i] == cs[i];
    if Touches(st, c, o, p) {
      assert Touches(st, ds[|cs|], o, p);
    } else if i :| 0 <= i < |cs| && Touches(st, cs[i], o, p) {
      assert Touches(st, ds[i], o, p);
      var k :| 0 <= k < |cs| && Touches(st, cs[k], o, p) && Leaves(cs[k], v)
        && forall j :: k < j < |cs| ==> !Touches(st, cs[j], o, p);
      assert Touches(st, ds[k], o, p);
    }
  }

  /**
    Main result: after any sequence of commands on the start-up state, the answers for slot p of an
    object are those of the last accepted command at priority p, judged by its own fields: its number if
    it was a write, null if it was a relinquish or there was none.
   */
  lemma {:induction false} CommandHistory(st: Station, cs: seq<Command>, o: Object, p: nat)
    requires st.Valid() && LegalState(st) && 1 <= p <= SLOTS
    requires forall p' :: 0 <= p' < SLOTS ==> !st.Of(o).isSet[p']
    ensures LegalState(Run(st, cs))
    ensures LastCommand(st, cs, o, p, TypedAnswer(Run(st, cs), o, SlotQuery(st, o, p)))
    decreases cs
  {
    RunKeepsLegal(st, cs);
    NullAgreement(Run(st, cs), o, p);
    HistoryOfSlot(st, cs, o, p);
  }

  lemma {:induction false} HistoryOfSlot(st: Station, cs: seq<Command>, o: Object, p: nat)
    requires st.Valid() && 1 <= p <= SLOTS
    requires forall p' :: 0 <= p' < SLOTS ==> !st.Of(o).isSet[p']
    ensures LastCommand(st, cs, o, p, SlotOf(Run(st, cs).Of(o), p))
  {
    if cs != [] {
      var front, last := cs[..|cs| - 1], cs[|cs| - 1];
      HistoryOfSlot(st, front, o, p);
      StepSlot(Run(st, front), last, o, p);
      LastCommandStep(st, front, last, o, p, SlotOf(Run(st, cs).Of(o), p));
      assert front + [last] == cs;
    }
  }

  // ---- Present_Value, Clause 19.2 ---------------------------------------------------------------------

  /** Resolution from answers alone: the first slot from p on that is not null, else Relinquish_Default. */
  function ResolveFrom(st: Station, o: Object, p: nat): Option<real>
    requires st.Valid() && 1 <= p <= SLOTS + 1
    decreases SLOTS + 1 - p
  {
    if p > SLOTS then TypedAnswer(st, o, DefaultQuery(st, o))
    else if GetPropertyBool(st, SlotQuery(st, o, p)) == Some(false) then TypedAnswer(st, o, SlotQuery(st, o, p))
    else ResolveFrom(st, o, p + 1)
  }

  /** The present value of the object itself: the value of the set slot of highest priority, else the default. */
  ghost predicate IsPresentValue(s: Slots, v: real)
    requires s.Valid()
  {
    || (exists p :: 0 <= p < SLOTS && s.isSet[p] && s.value[p] == v && forall k :: 0 <= k < p ==> !s.isSet[k])
    || ((forall p :: 0 <= p < SLOTS ==> !s.isSet[p]) && v == s.relinquishDefault)
  }

  lemma {:induction false} ResolveFromCorrect(st: Station, o: Object, p: nat)
    requires st.Valid() && LegalState(st) && 1 <= p <= SLOTS + 1
    requires forall k :: 0 <= k < p - 1 ==> !st.Of(o).isSet[k]
    ensures ResolveFrom(st, o, p).Some? && IsPresentValue(st.Of(o), ResolveFrom(st, o, p).value)
    ensures Legal(o, ResolveFrom(st, o, p).value)
    decreases SLOTS + 1 - p
  {
    assert LegalSlots(o, st.Of(o));
    if p > SLOTS {
      NullAgreement(st, o, 1);
    } else {
      NullAgreement(st, o, p);
      if !st.Of(o).isSet[p - 1] {
        ResolveFromCorrect(st, o, p + 1);
      }
    }
  }

  /**
    Main result: after any sequence of commands, resolving Present_Value from the callbacks' answers
    gives the value the object holds, and that value is legal: 0 or 1 for the Binary Output, 1 to 3
    for the Multi-State Output.
   */
  lemma ResolvedValue(st: Station, cs: seq<Command>, o: Object)
    requires st.Valid() && LegalState(st)
    ensures var r := ResolveFrom(Run(st, cs), o, 1);
            r.Some? && IsPresentValue(Run(st, cs).Of(o), r.value) && Legal(o, r.value)
  {
    RunKeepsLegal(st, cs);
    ResolveFromCorrect(Run(st, cs), o, 1);
  }

  /** The value the history leaves in force: the outstanding write of highest priority, or the default. */
  ghost predicate HistoryValue(st: Station, cs: seq<Command>, o: Object, r: Option<real>)
    requires st.Valid()
  {
    && r.Some?
    && ((exists p :: 1 <= p <= SLOTS && LastCommand(st, cs, o, p, r)
           && forall q :: 1 <= q < p ==> LastCommand(st, cs, o, q, None))
        || (r == Some(st.Of(o).relinquishDefault) && forall q :: 1 <= q <= SLOTS ==> LastCommand(st, cs, o, q, None)))
  }

  /**
    Present_Value as a function of the history: the value of the unrelinquished write of highest
    priority, or Relinquish_Default when every slot's last command relinquished it or there was none.
   */
  lemma PresentValueOfHistory(st: Station, cs: seq<Command>, o: Object)
    requires st.Valid() && LegalState(st)
    requires forall p' :: 0 <= p' < SLOTS ==> !st.Of(o).isSet[p']
    ensures HistoryValue(st, cs, o, ResolveFrom(Run(st, cs), o, 1))
  {
    ResolvedValue(st, cs, o);
    DefaultKept(st, cs, o);
    var s, r := Run(st, cs).Of(o), ResolveFrom(Run(st, cs), o, 1);
    forall q | 1 <= q <= SLOTS
      ensures LastCommand(st, cs, o, q, SlotOf(s, q))
    {
      HistoryOfSlot(st, cs, o, q);
    }
    hide LastCommand;
    hide Run;
    hide ResolveFrom;
    if p :| 0 <= p < SLOTS && s.isSet[p] && s.value[p] == r.value && forall k :: 0 <= k < p ==> !s.isSet[k] {
      assert SlotOf(s, p + 1) == r;
      forall q | 1 <= q < p + 1
        ensures LastCommand(st, cs, o, q, None)
      {
        assert SlotOf(s, q) == None;
      }
    } else {
      forall q | 1 <= q <= SLOTS
        ensures LastCommand(st, cs, o, q, None)
      {
        assert SlotOf(s, q) == None;
      }
    }
  }

  lemma {:induction false} DefaultKept(st: Station, cs: seq<Command>, o: Object)
    requires st.Valid()
    ensures Run(st, cs).Of(o).relinquishDefault == st.Of(o).relinquishDefault
  {
    if cs != [] {
      DefaultKept(st, cs[..|cs| - 1], o);
    }
  }

  /**
    From the state the program starts in, after any commands: every slot's answer is its last command,
    and Present_Value is what the history leaves in force over 20.0, inactive and state 1.
   */
  lemma AnswersSinceStartUp(deviceInstance: nat, analogInput1: real, udpPort1: nat, udpPort2: nat,
                            cs: seq<Command>, o: Object)
    ensures var st := Initial(deviceInstance, analogInput1, udpPort1, udpPort2);
            var r := ResolveFrom(Run(st, cs), o, 1);
            && (forall p :: 1 <= p <= SLOTS ==>
                  LastCommand(st, cs, o, p, TypedAnswer(Run(st, cs), o, SlotQuery(st, o, p))))
            && HistoryValue(st, cs, o, r) && Legal(o, r.value)
            && st.Of(o).relinquishDefault == (match o case AnalogOutput => 20.0 case BinaryOutput => 0.0 case _ => 1.0)
  {
    hide LastCommand;
    hide Run;
    hide ResolveFrom;
    hide LegalState;
    InitialLegal(deviceInstance, analogInput1, udpPort1, udpPort2);
    var st := Initial(deviceInstance, analogInput1, udpPort1, udpPort2);
    forall p | 1 <= p <= SLOTS
      ensures LastCommand(st, cs, o, p, TypedAnswer(Run(st, cs), o, SlotQuery(st, o, p)))
    {
      CommandHistory(st, cs, o, p);
    }
    ResolvedValue(st, cs, o);
    PresentValueOfHistory(st, cs, o);
  }

  // ---- Commuting commands -----------------------------------------------------------------------------

  /** Commands at different effective priorities or on different objects commute, stale values included. */
  lemma Commute(st: Station, c: Command, d: Command)
    requires st.Valid()
    requires forall o, p :: !(Touches(st, c, o, p) && Touches(st, d, o, p))
    ensures Step(Step(st, c), d) == Step(Step(st, d), c)
  {
    AcceptedExactly(st, c);
    AcceptedExactly(st, d);
    hide Touches;
    EffectDependsOnDevice(st, Step(st, c), d);
    EffectDependsOnDevice(st, Step(st, d), c);
    var e, f := EffectOf(st, c), EffectOf(st, d);
    if e.Some? && f.Some? {
      assert Touches(st, c, e.value.output, e.value.slot);
      assert Touches(st, d, f.value.output, f.value.slot);
      hide EffectOf;
      if e.value.output == f.value.output {
        ApplyCommutes(st.Of(e.value.output), e.value.slot, e.value.value, f.value.slot, f.value.value);
      }
    }
  }

  lemma ApplyCommutes(s: Slots, p: nat, v: Option<real>, q: nat, w: Option<real>)
    requires s.Valid() && 1 <= p <= SLOTS && 1 <= q <= SLOTS && p != q
    ensures ApplyTo(ApplyTo(s, p, v), q, w) == ApplyTo(ApplyTo(s, q, w), p, v)
  {
    assert s.isSet[p - 1 := v.Some?][q - 1 := w.Some?] == s.isSet[q - 1 := w.Some?][p - 1 := v.Some?];
    if v.Some? && w.Some? {
      assert s.value[p - 1 := v.value][q - 1 := w.value] == s.value[q - 1 := w.value][p - 1 := v.value];
    }
  }

  /** States that differ at most in the stale values of unset slots. */
  ghost predicate SameSlots(s: Slots, t: Slots)
    requires s.Valid() && t.Valid()
  {
    s.relinquishDefault == t.relinquishDefault && forall p :: 1 <= p <= SLOTS ==> SlotOf(s, p) == SlotOf(t, p)
  }

  /** On one slot the later command decides: what was there before cannot be told apart by any reader. */
  lemma LaterCommandDecides(st: Station, c: Command, d: Command, o: Object, p: nat)
    requires st.Valid() && Touches(st, c, o, p) && Touches(st, d, o, p)
    ensures forall o: Object :: SameSlots(Step(Step(st, c), d).Of(o), Step(st, d).Of(o))
  {
    AcceptedExactly(st, c);
    AcceptedExactly(st, d);
    hide Touches;
    EffectDependsOnDevice(st, Step(st, c), d);
    hide EffectOf;
  }

  /** Stale values are invisible: states that agree on what is set answer every query alike. */
  lemma StaleValuesInvisible(st: Station, st': Station, q: Query)
    requires st.Valid() && st'.Valid()
    requires st' == st.(analog := st'.analog, binary := st'.binary, multiState := st'.multiState)
    requires forall o: Object :: SameSlots(st.Of(o), st'.Of(o))
    ensures GetPropertyReal(st, q) == GetPropertyReal(st', q)
    ensures GetPropertyEnumerated(st, q) == GetPropertyEnumerated(st', q)
    ensures GetPropertyUnsignedInteger(st, q) == GetPropertyUnsignedInteger(st', q)
    ensures GetPropertyBool(st, q) == GetPropertyBool(st', q)
  {
    assert SameSlots(st.Of(AnalogOutput), st'.Of(AnalogOutput));
    assert SameSlots(st.Of(BinaryOutput), st'.Of(BinaryOutput));
    assert SameSlots(st.Of(MultiStateOutput), st'.Of(MultiStateOutput));
    if 1 <= q.arrayIndex <= SLOTS {
      forall o: Object
        ensures SlotOf(st.Of(o), q.arrayIndex) == SlotOf(st'.Of(o), q.arrayIndex)
      {
      }
      assert SlotOf(st.analog, q.arrayIndex) == SlotOf(st'.analog, q.arrayIndex);
      assert SlotOf(st.binary, q.arrayIndex) == SlotOf(st'.binary, q.arrayIndex);
      assert SlotOf(st.multiState, q.arrayIndex) == SlotOf(st'.multiState, q.arrayIndex);
    }
  }
}
