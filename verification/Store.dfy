/** Items, and the commands a client sends, on one server and on the map that clients believe in. */
module Store {
  import opened Keys
  import opened Wrappers

  datatype Item = Item(flags: nat, value: seq<Byte>)

  /** An item as a server holds it, with the version that a key listing shows. */
  datatype Stored = Stored(item: Item, cas: nat)

  type Table = map<Key, Stored>

  datatype Op = Get(key: Key) | Set(key: Key, item: Item) | Add(key: Key, item: Item)
              | Replace(key: Key, item: Item) | Delete(key: Key)

  datatype Resp = Found(item: Item) | Done | NotFound | Exists

  function Look(t: Table, k: Key): Option<Item>
  {
    if k in t then Some(t[k].item) else None
  }

  /** What a server does with a command; `cas` is the version a successful store gets. */
  function Serve(t: Table, op: Op, cas: nat): (Table, Resp)
  {
    match op
    case Get(k) => (t, if k in t then Found(t[k].item) else NotFound)
    case Set(k, i) => (t[k := Stored(i, cas)], Done)
    case Add(k, i) => if k in t then (t, Exists) else (t[k := Stored(i, cas)], Done)
    case Replace(k, i) => if k in t then (t[k := Stored(i, cas)], Done) else (t, NotFound)
    case Delete(k) => if k in t then (t - {k}, Done) else (t, NotFound)
  }

  /** The same command on the plain map that clients expect. */
  function Expect(m: map<Key, Item>, op: Op): (map<Key, Item>, Resp)
  {
    match op
    case Get(k) => (m, if k in m then Found(m[k]) else NotFound)
    case Set(k, i) => (m[k := i], Done)
    case Add(k, i) => if k in m then (m, Exists) else (m[k := i], Done)
    case Replace(k, i) => if k in m then (m[k := i], Done) else (m, NotFound)
    case Delete(k) => if k in m then (m - {k}, Done) else (m, NotFound)
  }

  function LookItem(m: map<Key, Item>, k: Key): Option<Item>
  {
    if k in m then Some(m[k]) else None
  }

  /** A server whose table agrees with the map at the key answers and changes like the map. */
  lemma ServeLikeMap(t: Table, m: map<Key, Item>, op: Op, cas: nat)
    requires Look(t, op.key) == LookItem(m, op.key)
    ensures Serve(t, op, cas).1 == Expect(m, op).1
    ensures Look(Serve(t, op, cas).0, op.key) == LookItem(Expect(m, op).0, op.key)
    ensures forall k :: k != op.key ==> Look(Serve(t, op, cas).0, k) == Look(t, k)
    ensures forall k :: k != op.key ==> LookItem(Expect(m, op).0, k) == LookItem(m, k)
    ensures forall k :: k in Serve(t, op, cas).0 ==> k in t || k == op.key
    ensures forall k :: k in t && k != op.key ==> k in Serve(t, op, cas).0 && Serve(t, op, cas).0[k] == t[k]
    ensures op.key in Serve(t, op, cas).0 ==>
      Serve(t, op, cas).0[op.key].cas == cas || (op.key in t && Serve(t, op, cas).0[op.key] == t[op.key])
  {
  }
}
