/** The binding table in place and the transport calls that update it, proved against `UdpTable`. */
module UdpDispatcher {
  import opened Wrappers
  import opened Bytes
  import opened UdpTable

  class Dispatcher {
    const table: array<Binding>
    var count: nat
    var nextBindingToCheck: nat
    var networkPortInstance: nat
    var port: nat
    /** Everything sent so far. */
    var wire: seq<Transmission>

    ghost predicate Valid()
      reads this, table
    {
      && table.Length == MAX_UDP_BINDINGS
      && count <= table.Length
      && Invariant(View())
    }

    ghost function View(): State
      requires table.Length == MAX_UDP_BINDINGS && count <= table.Length
      reads this, table
    {
      State(table[..count], nextBindingToCheck, networkPortInstance, port)
    }

    constructor ()
      ensures Valid() && fresh(table) && View() == START && wire == []
    {
      table := new Binding[MAX_UDP_BINDINGS](_ => Binding(Closed, 0, 0, false));
      count, nextBindingToCheck, networkPortInstance, port, wire := 0, 0, 1, 47808, [];
    }

    method FindUdpBindingByInstance(instance: nat) returns (slot: Option<nat>)
      requires Valid()
      ensures slot == Find(View().bindings, instance)
    {
      var i := 0;
      while i < count
        invariant 0 <= i <= count
        invariant Find(View().bindings, instance) == FindFrom(View().bindings, instance, i)
      {
        if table[i].instance == instance {
          return Some(i);
        }
        i := i + 1;
      }
      return None;
    }

    /** `connects` is what creating and binding the socket comes to. */
    method SetupUDP(udpPort: nat, instance: nat, connects: bool) returns (ok: bool)
      requires Valid()
      modifies this`count, this`port, table
      ensures Valid()
      ensures (View(), ok) == UdpTable.SetupUDP(old(View()), udpPort, instance, connects)
    {
      ghost var before := View();
      var found := FindUdpBindingByInstance(instance);
      var k: nat;
      if found.Some? {
        k := found.value;
      } else {
        if count >= MAX_UDP_BINDINGS {
          return false;
        }
        k := count;
        table[k] := Binding(Closed, 0, instance, false);
        count := count + 1;
        assert table[..count] == before.bindings + [Binding(Closed, 0, instance, false)];
      }
      InvariantStep(before, Setup(udpPort, instance, connects));
      if !connects {
        table[k] := table[k].(socket := Closed);
        return false;
      }
      table[k] := Binding(Open([]), udpPort, instance, true);
      if instance == networkPortInstance {
        port := udpPort;
      }
      return true;
    }

    method ShutdownUDP()
      requires Valid()
      modifies table
      ensures Valid()
      ensures View() == UdpTable.ShutdownUDP(old(View()))
    {
      ghost var before := View();
      InvariantStep(before, Shutdown);
      hide Invariant;
      var i := 0;
      while i < count
        invariant 0 <= i <= count
        invariant forall k :: 0 <= k < i ==> table[k] == ShutOne(before.bindings[k])
        invariant forall k :: i <= k < count ==> table[k] == before.bindings[k]
      {
        if table[i].bound {
          table[i] := table[i].(socket := Closed, bound := false);
        }
        i := i + 1;
      }
      assert table[..count] == UdpTable.ShutdownUDP(before).bindings;
    }

    method SetNetworkPortInstance(instance: nat)
      requires Valid()
      modifies this`networkPortInstance
      ensures Valid()
      ensures View() == Apply(old(View()), SetCurrent(instance))
    {
      networkPortInstance := instance;
    }

    /** The polling loop: the slot and datagram it ends on, if any. */
    method Poll(n: nat, maxMessageLength: nat) returns (r: Option<(nat, Datagram)>)
      requires table.Length == MAX_UDP_BINDINGS && 0 < n == count <= table.Length
      modifies table
      ensures (table[..n], r) == PollFrom(old(table[..n]), nextBindingToCheck, 0, maxMessageLength)
    {
      hide TakeOne;
      ghost var whole := PollFrom(table[..n], nextBindingToCheck, 0, maxMessageLength);
      var k := 0;
      while k < n
        invariant 0 <= k <= n
        invariant PollFrom(table[..n], nextBindingToCheck, k, maxMessageLength) == whole
      {
        var i := SlotAt(nextBindingToCheck, k, n);
        ghost var bs := table[..n];
        var (b, d) := TakeOne(table[i]);
        table[i] := b;
        assert table[..n] == bs[i := b];
        if d.Some? && |Cut(d.value.data, maxMessageLength)| > 0 {
          return Some((i, d.value));
        }
        k := k + 1;
      }
      return None;
    }

    /** One receive call: the delivery, or None for the source's return value 0. */
    method HelperReceiveMessage(maxMessageLength: nat, maxConnectionStringLength: nat)
      returns (delivery: Option<Delivery>)
      requires Valid()
      modifies this`nextBindingToCheck, table
      ensures Valid()
      ensures var (after, r) := ReceiveMessage(old(View()), maxMessageLength, maxConnectionStringLength);
              && View() == after
              && delivery.Some? == r.Some?
              && (r.Some? ==> r.value.1.Valid() && delivery == Some(DeliveryOf(old(View()), r.value, maxMessageLength)))
    {
      ghost var before := View();
      InvariantStep(before, Receive(maxMessageLength, maxConnectionStringLength));
      PollSameBut(before.bindings, before.next, 0, maxMessageLength);
      hide Invariant;
      hide ValidQueues;
      hide PollFrom;
      hide ConnectionString;
      if maxConnectionStringLength < 6 || count == 0 {
        return None;
      }
      var n := count;
      var r := Poll(n, maxMessageLength);
      if r.None? {
        nextBindingToCheck := (nextBindingToCheck + 1) % n;
        return None;
      }
      var (i, d) := r.value;
      nextBindingToCheck := (i + 1) % n;
      assert table[i] == table[..n][i];
      return Some(Delivery(i, table[i].instance, ConnectionString(d), Cut(d.data, maxMessageLength)));
    }

    /** `accepted` is what the operating system's send reports; 0 or less is a failure. */
    method HelperSendMessage(message: seq<byte>, connectionString: seq<byte>, instance: nat, accepted: int)
      returns (sent: nat)
      requires Valid()
      modifies this`wire
      ensures Valid()
      ensures var t := SendMessage(View(), message, connectionString, instance);
              && wire == old(wire) + (if t.Some? && accepted > 0 then [t.value] else [])
              && sent == (if t.Some? && accepted > 0 then accepted else 0)
    {
      sent := 0;
      var slot := FindUdpBindingByInstance(instance);
      if slot.None? || !table[slot.value].bound || |connectionString| < 6 {
        return;
      }
      var ip := connectionString[..4];
      var udpPort := connectionString[4] as int * 0x100 + connectionString[5] as int;
      if table[slot.value].socket.Open? && accepted > 0 {
        wire := wire + [Transmission(slot.value, ip, udpPort, message)];
        sent := accepted;
      }
    }

    /** A datagram reaching one of the sockets. */
    method Deliver(slot: nat, d: Datagram)
      requires Valid() && d.Valid()
      modifies table
      ensures Valid()
      ensures View() == Arrive(old(View()), slot, d)
    {
      InvariantStep(View(), Arrival(slot, d));
      if slot < count && table[slot].socket.Open? {
        table[slot] := table[slot].(socket := Open(table[slot].socket.pending + [d]));
      }
    }
  }
}
