/** The arrays behind the commandable outputs and the set callbacks that update them in place. */
module OutputStation {
  import opened Wrappers
  import opened Bytes
  import opened CommandableOutputs

  class Commandable {
    const isSet: array<bool>
    const value: array<real>
    const relinquishDefault: real

    ghost predicate Valid() {
      isSet.Length == SLOTS && value.Length == SLOTS
    }

    ghost function View(): (s: Slots)
      requires Valid()
      reads isSet, value
      ensures s.Valid()
    {
      Slots(isSet[..], value[..], relinquishDefault)
    }

    constructor (relinquishDefault: real)
      ensures Valid() && View() == Unset(relinquishDefault)
      ensures fresh(isSet) && fresh(value)
    {
      isSet := new bool[SLOTS](_ => false);
      value := new real[SLOTS](_ => 0.0);
      this.relinquishDefault := relinquishDefault;
    }

    method CommandWrite(priority: byte, newValue: real)
      requires Valid()
      modifies isSet, value
      ensures View() == ApplyTo(old(View()), EffectivePriority(priority), Some(newValue))
    {
      var p := EffectivePriority(priority);
      isSet[p - 1] := true;
      value[p - 1] := newValue;
    }

    method CommandRelinquish(priority: byte)
      requires Valid()
      modifies isSet
      ensures View() == ApplyTo(old(View()), EffectivePriority(priority), None)
    {
      var p := EffectivePriority(priority);
      isSet[p - 1] := false;
    }
  }

  class Outputs {
    const deviceInstance: nat
    const udpPort1: nat
    const udpPort2: nat
    const analogInput1: real
    const analog: Commandable
    const binary: Commandable
    const multiState: Commandable

    ghost const Arrays: set<object>

    /** The three objects have arrays of their own. */
    ghost predicate Valid() {
      && analog.Valid() && binary.Valid() && multiState.Valid()
      && Arrays == {analog.isSet, analog.value, binary.isSet, binary.value, multiState.isSet, multiState.value}
      && analog.isSet != binary.isSet && analog.isSet != multiState.isSet && binary.isSet != multiState.isSet
      && analog.value != binary.value && analog.value != multiState.value && binary.value != multiState.value
    }

    ghost function View(): (st: Station)
      requires Valid()
      reads Arrays
      ensures st.Valid()
    {
      Station(deviceInstance, analogInput1, udpPort1, udpPort2, analog.View(), binary.View(), multiState.View())
    }

    constructor (deviceInstance: nat, analogInput1: real, udpPort1: nat, udpPort2: nat)
      ensures Valid() && fresh(Arrays)
      ensures View() == Initial(deviceInstance, analogInput1, udpPort1, udpPort2)
    {
      var a := new Commandable(20.0);
      var b := new Commandable(0.0);
      var m := new Commandable(1.0);
      this.deviceInstance, this.analogInput1 := deviceInstance, analogInput1;
      this.udpPort1, this.udpPort2 := udpPort1, udpPort2;
      analog, binary, multiState := a, b, m;
      Arrays := {a.isSet, a.value, b.isSet, b.value, m.isSet, m.value};
    }

    method SetPropertyReal(t: Target, newValue: real, priority: byte) returns (ok: bool, errorCode: Option<nat>)
      requires Valid()
      modifies Arrays
      ensures View() == Step(old(View()), SetReal(t, newValue, priority))
      ensures ok == Accepted(deviceInstance, SetReal(t, newValue, priority), AnalogOutput)
      ensures errorCode == if OutOfRange(deviceInstance, SetReal(t, newValue, priority)) then Some(37) else None
    {
      if t.deviceInstance != deviceInstance {
        return false, None;
      }
      var c := GetCommandable(t.objectType, t.objectInstance);
      if c.Some? && t.objectType == ANALOG_OUTPUT && t.property == PRESENT_VALUE {
        analog.CommandWrite(priority, newValue);
        return true, None;
      }
      return false, None;
    }

    method SetPropertyEnumerated(t: Target, newValue: nat, priority: byte) returns (ok: bool, errorCode: Option<nat>)
      requires Valid()
      modifies Arrays
      ensures View() == Step(old(View()), SetEnumerated(t, newValue, priority))
      ensures ok == Accepted(deviceInstance, SetEnumerated(t, newValue, priority), BinaryOutput)
      ensures errorCode == if OutOfRange(deviceInstance, SetEnumerated(t, newValue, priority)) then Some(37) else None
    {
      if t.deviceInstance != deviceInstance {
        return false, None;
      }
      var c := GetCommandable(t.objectType, t.objectInstance);
      if c.Some? && t.objectType == BINARY_OUTPUT && t.property == PRESENT_VALUE {
        if newValue > 1 {
          return false, Some(VALUE_OUT_OF_RANGE);
        }
        binary.CommandWrite(priority, newValue as real);
        return true, None;
      }
      return false, None;
    }

    method SetPropertyUnsignedInteger(t: Target, newValue: nat, priority: byte)
      returns (ok: bool, errorCode: Option<nat>)
      requires Valid()
      modifies Arrays
      ensures View() == Step(old(View()), SetUnsigned(t, newValue, priority))
      ensures ok == Accepted(deviceInstance, SetUnsigned(t, newValue, priority), MultiStateOutput)
      ensures errorCode == if OutOfRange(deviceInstance, SetUnsigned(t, newValue, priority)) then Some(37) else None
    {
      if t.deviceInstance != deviceInstance {
        return false, None;
      }
      var c := GetCommandable(t.objectType, t.objectInstance);
      if c.Some? && t.objectType == MULTI_STATE_OUTPUT && t.property == PRESENT_VALUE {
        if newValue < 1 || newValue > 3 {
          return false, Some(VALUE_OUT_OF_RANGE);
        }
        multiState.CommandWrite(priority, newValue as real);
        return true, None;
      }
      return false, None;
    }

    method SetPropertyNull(t: Target, priority: byte) returns (ok: bool, errorCode: Option<nat>)
      requires Valid()
      modifies Arrays
      ensures View() == Step(old(View()), SetNull(t, priority))
      ensures ok <==> exists o: Object :: Accepted(deviceInstance, SetNull(t, priority), o)
      ensures errorCode == if OutOfRange(deviceInstance, SetNull(t, priority)) then Some(37) else None
    {
      if t.deviceInstance != deviceInstance {
        return false, None;
      }
      var c := GetCommandable(t.objectType, t.objectInstance);
      if c.Some? && t.property == PRESENT_VALUE {
        match c.value {
          case AnalogOutput => analog.CommandRelinquish(priority);
          case BinaryOutput => binary.CommandRelinquish(priority);
          case MultiStateOutput => multiState.CommandRelinquish(priority);
        }
        assert Accepted(deviceInstance, SetNull(t, priority), c.value);
        return true, None;
      }
      return false, None;
    }

    /** The three slot reads share this; the out-parameters stay unset when it returns false. */
    method ReadPrioritySlotOf(c: Commandable, q: Query) returns (found: bool, slotIsSet: bool, slotValue: real)
      requires c.Valid()
      ensures found == ReadPrioritySlot(c.View(), q).Some?
      ensures found ==> ReadPrioritySlot(c.View(), q) == Some((slotIsSet, slotValue))
    {
      if q.property != PRIORITY_ARRAY || !q.useArrayIndex || q.arrayIndex < 1 || q.arrayIndex > SLOTS {
        return false, false, 0.0;
      }
      return true, c.isSet[q.arrayIndex - 1], c.value[q.arrayIndex - 1];
    }

    method ReadReal(q: Query) returns (answer: Option<real>)
      requires Valid()
      ensures answer == GetPropertyReal(View(), q)
    {
      if q.deviceInstance != deviceInstance {
        return None;
      }
      if q.objectType == ANALOG_INPUT && q.objectInstance == 1 && q.property == PRESENT_VALUE {
        return Some(analogInput1);
      }
      var c := GetCommandable(q.objectType, q.objectInstance);
      if c.Some? && q.objectType == ANALOG_OUTPUT {
        var found, slotIsSet, slotValue := ReadPrioritySlotOf(analog, q);
        if found {
          if !slotIsSet {
            return None;
          }
          return Some(slotValue);
        }
        if q.property == RELINQUISH_DEFAULT {
          return Some(analog.relinquishDefault);
        }
      }
      return None;
    }

    method ReadEnumerated(q: Query) returns (answer: Option<nat>)
      requires Valid()
      ensures answer == GetPropertyEnumerated(View(), q)
    {
      if q.deviceInstance != deviceInstance {
        return None;
      }
      if q.objectType == BINARY_INPUT && q.objectInstance == 1 {
        if q.property == PRESENT_VALUE || q.property == POLARITY {
          return Some(0);
        }
      }
      var c := GetCommandable(q.objectType, q.objectInstance);
      if c.Some? && q.objectType == BINARY_OUTPUT {
        var found, slotIsSet, slotValue := ReadPrioritySlotOf(binary, q);
        if found {
          if !slotIsSet {
            return None;
          }
          return Some(ToUnsigned(slotValue));
        }
        if q.property == RELINQUISH_DEFAULT {
          return Some(ToUnsigned(binary.relinquishDefault));
        }
        if q.property == POLARITY {
          return Some(0);
        }
      }
      if q.property == UNITS && (q.objectType == ANALOG_INPUT || q.objectType == ANALOG_OUTPUT)
         && q.objectInstance == 1 {
        return Some(62);
      }
      if q.objectType == NETWORK_PORT && q.property == BACNET_IP_MODE {
        return Some(0);
      }
      return None;
    }

    method ReadUnsignedInteger(q: Query) returns (answer: Option<nat>)
      requires Valid()
      ensures answer == GetPropertyUnsignedInteger(View(), q)
    {
      if q.deviceInstance != deviceInstance {
        return None;
      }
      var fixed := FixedUnsigned(deviceInstance, udpPort1, udpPort2, q);
      if fixed.Some? {
        return fixed;
      }
      var c := GetCommandable(q.objectType, q.objectInstance);
      if c.Some? && q.objectType == MULTI_STATE_OUTPUT {
        var found, slotIsSet, slotValue := ReadPrioritySlotOf(multiState, q);
        if found {
          if !slotIsSet {
            return None;
          }
          return Some(ToUnsigned(slotValue));
        }
        if q.property == RELINQUISH_DEFAULT {
          return Some(ToUnsigned(multiState.relinquishDefault));
        }
        if q.property == NUMBER_OF_STATES {
          return Some(3);
        }
      }
      return None;
    }

    method ReadBool(q: Query) returns (answer: Option<bool>)
      requires Valid()
      ensures answer == GetPropertyBool(View(), q)
    {
      if q.deviceInstance != deviceInstance {
        return None;
      }
      var c := GetCommandable(q.objectType, q.objectInstance);
      if c.Some? && q.property == PRIORITY_ARRAY && q.useArrayIndex && 1 <= q.arrayIndex && q.arrayIndex <= SLOTS {
        var commandable := match c.value
          case AnalogOutput => analog
          case BinaryOutput => binary
          case MultiStateOutput => multiState;
        return Some(!commandable.isSet[q.arrayIndex - 1]);
      }
      if q.property == OUT_OF_SERVICE
         && q.objectType in {ANALOG_INPUT, BINARY_INPUT, MULTI_STATE_INPUT, ANALOG_OUTPUT, BINARY_OUTPUT,
                             MULTI_STATE_OUTPUT, NETWORK_PORT} {
        return Some(false);
      }
      return None;
    }
  }
}
