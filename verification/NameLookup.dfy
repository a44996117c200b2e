/** The id/name tables and the binary search over them. */
module NameLookup {
  import opened Wrappers

  datatype IdName = IdName(id: nat, name: string)

  ghost predicate StrictlySorted(table: seq<IdName>) {
    forall i, j :: 0 <= i < j < |table| ==> table[i].id < table[j].id
  }

  /** The plain reading of a table: the name of the first row with this id. */
  function Scan(table: seq<IdName>, id: nat): Option<string> {
    if table == [] then None
    else if table[0].id == id then Some(table[0].name)
    else Scan(table[1..], id)
  }

  /** In a sorted table every row is found by its own id, so no row hides another. */
  lemma {:induction false} ScanFindsRow(table: seq<IdName>, k: nat)
    requires StrictlySorted(table) && k < |table|
    ensures Scan(table, table[k].id) == Some(table[k].name)
  {
    if k > 0 {
      assert table[0].id < table[k].id;
      ScanFindsRow(table[1..], k - 1);
    }
  }

  lemma {:induction false} ScanMisses(table: seq<IdName>, id: nat)
    ensures Scan(table, id) == None <==> forall k :: 0 <= k < |table| ==> table[k].id != id
  {
    if table != [] {
      ScanMisses(table[1..], id);
      assert forall k :: 0 < k < |table| ==> table[k] == table[1..][k - 1];
    }
  }

  /** `name` is that of a row with this id, and None only if there is no such row. */
  ghost predicate Row(table: seq<IdName>, id: nat, name: Option<string>) {
    if name.Some? then exists k :: 0 <= k < |table| && table[k] == IdName(id, name.value)
    else forall k :: 0 <= k < |table| ==> table[k].id != id
  }

  lemma {:induction false} ScanRow(table: seq<IdName>, id: nat)
    ensures Row(table, id, Scan(table, id))
  {
    ScanMisses(table, id);
    if table != [] && table[0].id != id {
      ScanRow(table[1..], id);
      if Scan(table, id).Some? {
        var k :| 0 <= k < |table[1..]| && table[1..][k] == IdName(id, Scan(table, id).value);
        assert table[k + 1] == IdName(id, Scan(table, id).value);
      }
    } else if table != [] {
      assert table[0] == IdName(id, Scan(table, id).value);
    }
  }

  method LookUpIdName(table: seq<IdName>, id: nat) returns (name: Option<string>)
    requires StrictlySorted(table)
    ensures name == Scan(table, id)
  {
    var lo, hi := 0, |table|;
    while lo < hi
      invariant 0 <= lo <= hi <= |table|
      invariant forall k :: 0 <= k < lo ==> table[k].id < id
      invariant forall k :: hi <= k < |table| ==> id < table[k].id
    {
      var mid := lo + (hi - lo) / 2;
      if table[mid].id == id {
        ScanFindsRow(table, mid);
        return Some(table[mid].name);
      }
      if table[mid].id < id {
        lo := mid + 1;
      } else {
        hi := mid;
      }
    }
    ScanMisses(table, id);
    return None;
  }
}
