/**
  The name tables the printers look into, as parameters. What the proofs need of the shipped rows
  is `Valid`: both id tables sorted, the length of the longest name in each table, and no name given
  to two network messages.
 */
module NameTables {
  import opened Wrappers
  import opened Bytes
  import opened Texts
  import opened NameLookup

  /** Every name is at most `n` characters long and needs no escaping. */
  ghost predicate Bounded(names: seq<string>, n: nat) {
    forall i :: 0 <= i < |names| ==> |names[i]| <= n && Plain(names[i])
  }

  ghost predicate BoundedRows(table: seq<IdName>, n: nat) {
    forall i :: 0 <= i < |table| ==> |table[i].name| <= n && Plain(table[i].name)
  }

  datatype Names = Names(
    confirmed: seq<string>,
    unconfirmed: seq<string>,
    reject: seq<string>,
    abort: seq<string>,
    network: map<byte, string>,
    objectTypes: seq<IdName>,
    properties: seq<IdName>)
  {
    /** What the shipped tables satisfy: both id tables sorted, no name of a network message twice. */
    ghost predicate Valid() {
      && ValidServices()
      && Bounded(reject, 27) && Bounded(abort, 33)
      && (forall t :: t in network ==> |network[t]| <= 28 && Plain(network[t]))
      && (forall t, u :: t in network && u in network && network[t] == network[u] ==> t == u)
      && StrictlySorted(objectTypes) && BoundedRows(objectTypes, 22)
      && StrictlySorted(properties) && BoundedRows(properties, 35)
    }

    /** ReadProperty (12) and WriteProperty (15) are the services printed together with a reference. */
    ghost predicate ValidServices() {
      && Bounded(confirmed, 32) && Bounded(unconfirmed, 34)
      && |confirmed| > 15 && |confirmed[12]| <= 13 && |confirmed[15]| <= 13
    }
  }

  /** `name` is the entry of the list at this code, and None only if the list does not reach it. */
  predicate Entry(list: seq<string>, code: nat, name: Option<string>) {
    if code < |list| then name == Some(list[code]) else name == None
  }

  function NameAt(names: seq<string>, code: byte): Option<string> {
    if code < |names| then Some(names[code]) else None
  }

  function NetworkMessageName(names: Names, messageType: byte): Option<string> {
    if messageType in names.network then Some(names.network[messageType]) else None
  }
}
