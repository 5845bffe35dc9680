/**
 * The aggregator of startAcquirer: every received BLEDevice appends one Row
 * to the series of its name in valueByName. With the channel reduced to the
 * finite sequence of what it delivered, the loop is a left fold.
 */
module Acquirer {
  import opened Records

  /** valueByName: device name to its samples in arrival order. */
  type Store = map<string, seq<Row>>

  /** Go's valueByName[name]: a missing key reads as the empty (nil) slice. */
  function Lookup(m: Store, name: string): (rows: seq<Row>)
    ensures name in m ==> rows == m[name]
    ensures name !in m ==> rows == []
  {
    if name in m then m[name] else []
  }

  /** One iteration of the loop body on main.go:127. */
  function Step(m: Store, d: BLEDevice): (r: Store)
    ensures r.Keys == m.Keys + {d.name}
    ensures Lookup(r, d.name) == Lookup(m, d.name) + [RowOf(d)]
    ensures forall k :: k != d.name ==> Lookup(r, k) == Lookup(m, k)
  {
    m[d.name := Lookup(m, d.name) + [RowOf(d)]]
  }

  /** The store after the loop has consumed `received`, starting from the empty map of main.go:125. */
  function Aggregate(received: seq<BLEDevice>): (m: Store)
    ensures forall name :: name in m ==> m[name] != []
    ensures received != [] ==> received[|received| - 1].name in m
  {
    if received == [] then map[]
    else Step(Aggregate(received[..|received| - 1]), received[|received| - 1])
  }

  /** Reference definition: the rows of the devices called `name`, in arrival order. */
  function RowsOf(received: seq<BLEDevice>, name: string): seq<Row>
  {
    if received == [] then []
    else (if received[0].name == name then [RowOf(received[0])] else []) + RowsOf(received[1..], name)
  }

  /** The names that occur in `received`. */
  function Names(received: seq<BLEDevice>): set<string>
  {
    set i | 0 <= i < |received| :: received[i].name
  }

  lemma {:induction false} RowsOfSnoc(received: seq<BLEDevice>, d: BLEDevice, name: string)
    ensures RowsOf(received + [d], name) ==
            RowsOf(received, name) + (if d.name == name then [RowOf(d)] else [])
    decreases |received|
  {
    if received == [] {
      assert received + [d] == [d];
    } else {
      assert (received + [d])[1..] == received[1..] + [d];
      RowsOfSnoc(received[1..], d, name);
    }
  }

  lemma {:induction false} RowsOfEmptyIffAbsent(received: seq<BLEDevice>, name: string)
    ensures RowsOf(received, name) == [] <==> name !in Names(received)
    decreases |received|
  {
    if received != [] {
      RowsOfEmptyIffAbsent(received[1..], name);
      assert Names(received) == {received[0].name} + Names(received[1..]);
    }
  }

  /**
   * The store holds, for every name, exactly the rows of the devices with that
   * name in arrival order: nothing is dropped, duplicated or reordered.
   */
  lemma {:induction false} AggregateIsPerNameSubsequence(received: seq<BLEDevice>)
    ensures forall name :: Lookup(Aggregate(received), name) == RowsOf(received, name)
    decreases |received|
  {
    if received != [] {
      var prefix, d := received[..|received| - 1], received[|received| - 1];
      assert received == prefix + [d];
      AggregateIsPerNameSubsequence(prefix);
      forall name
        ensures Lookup(Aggregate(received), name) == RowsOf(received, name)
      {
        RowsOfSnoc(prefix, d, name);
      }
    }
  }

  /** The keys are exactly the names received, and no key maps to an empty series. */
  lemma AggregateKeys(received: seq<BLEDevice>)
    ensures Aggregate(received).Keys == Names(received)
    ensures forall name :: name in Aggregate(received) ==> Aggregate(received)[name] != []
  {
    var m := Aggregate(received);
    AggregateIsPerNameSubsequence(received);
    forall name | name in m
      ensures m[name] != [] && name in Names(received)
    {
      RowsOfEmptyIffAbsent(received, name);
      assert Lookup(m, name) == RowsOf(received, name);
    }
    forall name | name in Names(received)
      ensures name in m
    {
      RowsOfEmptyIffAbsent(received, name);
      assert Lookup(m, name) == RowsOf(received, name);
    }
  }

  /**
   * Consuming one more device appends exactly one row at the tail of its
   * name's series and leaves every other series as it was.
   */
  lemma AggregateAppendsAtTail(received: seq<BLEDevice>, d: BLEDevice)
    ensures Aggregate(received + [d]) == Step(Aggregate(received), d)
    ensures Aggregate(received + [d])[d.name] == Lookup(Aggregate(received), d.name) + [RowOf(d)]
    ensures forall k :: k != d.name ==> Lookup(Aggregate(received + [d]), k) == Lookup(Aggregate(received), k)
  {
    assert (received + [d])[..|received|] == received;
  }

  /** The total number of rows over all keys. */
  ghost function TotalRows(m: Store): nat
    decreases |m|
  {
    if m == map[] then 0
    else
      var k :| k in m;
      |m[k]| + TotalRows(m - {k})
  }

  /** TotalRows does not depend on which key is taken first. */
  lemma {:induction false} TotalRowsRemove(m: Store, k: string)
    requires k in m
    ensures TotalRows(m) == |m[k]| + TotalRows(m - {k})
    decreases |m|
  {
    var j :| j in m && TotalRows(m) == |m[j]| + TotalRows(m - {j});
    if j != k {
      TotalRowsRemove(m - {j}, k);
      TotalRowsRemove(m - {k}, j);
      assert m - {j} - {k} == m - {k} - {j};
    }
  }

  lemma TotalRowsStep(m: Store, d: BLEDevice)
    ensures TotalRows(Step(m, d)) == TotalRows(m) + 1
  {
    var r := Step(m, d);
    TotalRowsRemove(r, d.name);
    assert r - {d.name} == m - {d.name};
    if d.name in m {
      TotalRowsRemove(m, d.name);
    } else {
      assert m - {d.name} == m;
    }
  }

  /** Every received device is counted once: the rows over all keys number |received|. */
  lemma {:induction false} AggregateTotal(received: seq<BLEDevice>)
    ensures TotalRows(Aggregate(received)) == |received|
    decreases |received|
  {
    if received != [] {
      AggregateTotal(received[..|received| - 1]);
      TotalRowsStep(Aggregate(received[..|received| - 1]), received[|received| - 1]);
    }
  }

  /**
   * The process-wide valueByName map, owned by the aggregator. `consumed` is the
   * sequence of devices received so far; Valid ties the map to their fold.
   */
  class SeriesStore {
    var valueByName: Store
    ghost var consumed: seq<BLEDevice>

    ghost predicate Valid()
      reads this
    {
      valueByName == Aggregate(consumed)
    }

    /** make(map[string][]Row) on main.go:125. */
    constructor ()
      ensures Valid() && consumed == [] && valueByName == map[]
    {
      valueByName := map[];
      consumed := [];
    }

    /** The append on main.go:127. */
    method Append(d: BLEDevice)
      requires Valid()
      modifies this
      ensures Valid() && consumed == old(consumed) + [d]
      ensures valueByName.Keys == old(valueByName).Keys + {d.name}
      ensures Lookup(valueByName, d.name) == Lookup(old(valueByName), d.name) + [RowOf(d)]
      ensures forall k :: k != d.name ==> Lookup(valueByName, k) == Lookup(old(valueByName), k)
    {
      var rows := Lookup(valueByName, d.name);
      valueByName := valueByName[d.name := rows + [RowOf(d)]];
      assert valueByName == Step(old(valueByName), d);
      AggregateAppendsAtTail(consumed, d);
      consumed := consumed + [d];
    }
  }

  /**
   * startAcquirer (main.go:124-130) over the finite sequence the channel
   * delivered before it was closed.
   */
  method StartAcquirer(received: seq<BLEDevice>) returns (store: SeriesStore)
    ensures fresh(store) && store.Valid() && store.consumed == received
    ensures store.valueByName == Aggregate(received)
  {
    store := new SeriesStore();
    for i := 0 to |received|
      invariant store.Valid() && store.consumed == received[..i]
    {
      store.Append(received[i]);
      assert received[..i + 1] == store.consumed;
    }
    assert received[..|received|] == received;
  }
}
