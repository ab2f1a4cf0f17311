/** The routing table: for every id below its size, where a message to that id goes. */
module Routing {
  import opened Types

  /** Everywhere; the bridge itself; one interface. */
  datatype Dest<I> = All | Self | Via(port: I)

  // ---------------------------------------------------------------- the table as a value

  function Lookup<I>(table: seq<Dest<I>>, id: byte): Dest<I> {
    if Row(id) < |table| then table[Row(id)] else All
  }

  function Updated<I>(table: seq<Dest<I>>, id: byte, dest: Dest<I>): (r: seq<Dest<I>>)
    ensures |r| == |table|
  {
    if Row(id) < |table| then table[Row(id) := dest] else table
  }

  function Invalidated<I(==)>(table: seq<Dest<I>>, port: I): (r: seq<Dest<I>>)
    ensures |r| == |table|
    ensures forall i | 0 <= i < |table| :: r[i] == if table[i] == Via(port) then All else table[i]
  {
    seq(|table|, i requires 0 <= i < |table| => if table[i] == Via(port) then All else table[i])
  }

  /** The table as the bridge keeps it. */
  class RoutingTable<I(==)> {
    const table: array<Dest<I>>

    /** ndlcomRoutingTableInit, for a table of the given size. */
    constructor (devices: nat)
      ensures table.Length == devices && fresh(table)
      ensures table[..] == seq(devices, i => All)
    {
      table := new Dest<I>[devices](i => All);
    }

    function GetDestination(id: byte): (d: Dest<I>)
      reads table
      ensures d == Lookup(table[..], id)
    {
      if id as nat < table.Length then table[id as nat] else All
    }

    method Update(id: byte, dest: Dest<I>)
      modifies table
      ensures table[..] == Updated(old(table[..]), id, dest)
    {
      if id as nat >= table.Length {
        return;
      }
      table[id as nat] := dest;
    }

    /** Every entry that names the interface is forgotten, all others stay. */
    method InvalidateInterface(port: I)
      modifies table
      ensures table[..] == Invalidated(old(table[..]), port)
    {
      for i := 0 to table.Length
        invariant forall k | 0 <= k < i ::
                    table[k] == if old(table[k]) == Via(port) then All else old(table[k])
        invariant forall k | i <= k < table.Length :: table[k] == old(table[k])
      {
        if table[i] == Via(port) {
          table[i] := All;
        }
      }
    }
  }

  // ---------------------------------------------------------------- laws

  function Row(id: byte): nat {
    id as nat
  }

  lemma SameRow(a: byte, b: byte)
    ensures Row(a) == Row(b) <==> a == b
  {}

  /** A lookup finds the last update of that id, within the table; beyond it, always All. */
  lemma LookupUpdated<I>(table: seq<Dest<I>>, id: byte, dest: Dest<I>, x: byte)
    ensures Lookup(Updated(table, id, dest), x) == if x == id && Row(id) < |table| then dest else Lookup(table, x)
  {
    SameRow(x, id);
    hide Row;
  }

  lemma LookupInvalidated<I>(table: seq<Dest<I>>, port: I, x: byte)
    ensures Lookup(Invalidated(table, port), x) == if Lookup(table, x) == Via(port) then All else Lookup(table, x)
  {}

  /** The promise that the broadcast id never enters the table. */
  ghost predicate BroadcastStaysOut(devices: nat) {
    forall table: seq<Dest<nat>>, dest: Dest<nat> | |table| == devices ::
      Lookup(Updated(table, BROADCAST, dest), BROADCAST) == Lookup(table, BROADCAST)
  }

  /** It is kept exactly by the reduced tables: the default of 256 has a row for the broadcast id. */
  lemma BroadcastStaysOutExactly(devices: nat)
    ensures BroadcastStaysOut(devices) <==> devices <= 255
  {
    assert Row(BROADCAST) == 255;
    if devices > 255 {
      var table: seq<Dest<nat>> := seq(devices, i => All);
      var dest: Dest<nat> := Self;
      assert Lookup(Updated(table, BROADCAST, dest), BROADCAST) == dest != Lookup(table, BROADCAST);
    }
  }
}
