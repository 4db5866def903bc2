/** The values the exporter receives from the nftables netlink library:
    tables, the objects of a table, and the two failable queries' results. */
module Nftables {

  /** Go's `uint64`, the width of the kernel's byte and packet counters. */
  type Uint64 = x: int | 0 <= x < 0x1_0000_0000_0000_0000

  /** Go's `nftables.TableFamily`, a byte holding a netfilter protocol number. */
  type TableFamily = x: int | 0 <= x < 0x100

  // The NFPROTO_* numbers the library gives its named families.
  const TableFamilyUnspecified: TableFamily := 0
  const TableFamilyINet: TableFamily := 1
  const TableFamilyIPv4: TableFamily := 2
  const TableFamilyARP: TableFamily := 3
  const TableFamilyNetdev: TableFamily := 5
  const TableFamilyBridge: TableFamily := 7
  const TableFamilyIPv6: TableFamily := 10

  datatype Table = Table(name: string, family: TableFamily)

  /** An entry of a table's object listing: a named counter, or an object of any
      other kind (quota, limit, ...), which the collectors ignore. */
  datatype Obj =
    | CounterObj(name: string, bytes: Uint64, packets: Uint64)
    | OtherObj

  /** The outcome of a netlink query: a value, or Go's `error` as its message. */
  datatype Result<T> = Ok(value: T) | Err(error: string)

  /** The counter objects of a listing, in listing order. */
  function Counters(objs: seq<Obj>): (cs: seq<Obj>)
    ensures |cs| <= |objs|
    ensures forall k :: 0 <= k < |cs| ==> cs[k].CounterObj?
    ensures forall o :: o in cs <==> o in objs && o.CounterObj?
  {
    if objs == [] then []
    else if objs[0].CounterObj? then [objs[0]] + Counters(objs[1..])
    else Counters(objs[1..])
  }

  /** Listing one more object keeps the counters found so far, in order, and adds
      that object at the end exactly when it is a counter. */
  lemma {:induction false} CountersAppend(objs: seq<Obj>, o: Obj)
    ensures Counters(objs + [o]) == Counters(objs) + (if o.CounterObj? then [o] else [])
  {
    if objs != [] {
      assert (objs + [o])[1..] == objs[1..] + [o];
      CountersAppend(objs[1..], o);
    } else {
      assert [o][1..] == [];
    }
  }
}
