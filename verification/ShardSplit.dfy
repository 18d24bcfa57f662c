/** Splitting a shard while clients keep working. */
module ShardSplit {
  import opened Keys
  import opened Routing
  import opened Store
  import opened Wrappers

  /** The fixed parameters: the old configuration, the server to split and the new server. */
  datatype Plan = Plan(cfg: Config, src: nat, dst: nat)

  datatype Proxy = Proxy(stopped: bool, cfg: Config)

  type Listing = set<(nat, Key)>

  /** Where the manager is, with the variables it still uses. */
  datatype Manager =
    | Listed(seen: Listing)
    | Copying(b: Key, listed: Listing, todo: set<Key>, fetched: map<Key, Item>)
    | Locking(b: Key, listed: Listing, waiting: set<nat>)
    | Diffing(b: Key, upd: Listing, todo: set<Key>, fetched: map<Key, Item>, doomed: set<Key>)
    | Switching(b: Key, upd: Listing, waiting: set<nat>)
    | Unlocking(b: Key, upd: Listing, waiting: set<nat>)
    | Cleaning(b: Key, doomed: set<Key>)
    | Gone(live: Config)

  datatype Cluster = Cluster(tables: map<nat, Table>, proxies: map<nat, Proxy>, used: Listing, mgr: Manager)

  function KeysOf(l: Listing): set<Key> { set x | x in l :: x.1 }

  function ListingOf(t: Table, b: Key): Listing { set k | k in t && AtMost(b, k) :: (t[k].cas, k) }

  ghost function NewCfg(c: Plan, b: Key): Config { c.cfg[b := c.dst] }

  /** The configuration of every running proxy. */
  ghost function Live(c: Plan, s: Cluster): Config
  {
    match s.mgr
    case Unlocking(b, _, _) => NewCfg(c, b)
    case Cleaning(b, _) => NewCfg(c, b)
    case Gone(live) => live
    case _ => c.cfg
  }

  // ---- steps ----

  datatype Event =
    | Client(proxy: nat, op: Op, cas: nat, resp: Resp)
    | ListKey(key: Key)
    | Choose(b: Key)
    | Fetch(key: Key)
    | Put(key: Key, cas: nat)
    | EndCopy
    | Stop(proxy: nat)
    | Relist
    | Drop(key: Key)
    | EndDiff
    | SetConfig(proxy: nat)
    | EndSwitch
    | Restart(proxy: nat)
    | EndUnlock
    | Clean(key: Key)
    | Leave

  /** A running proxy serves a client; a version that is new marks what is stored. */
  ghost predicate ClientStep(s: Cluster, p: nat, op: Op, cas: nat, resp: Resp, s': Cluster)
  {
    (cas, op.key) !in s.used && ClientServed(s, p, op, cas, resp, s')
  }

  ghost predicate ClientServed(s: Cluster, p: nat, op: Op, cas: nat, resp: Resp, s': Cluster)
  {
    && p in s.proxies && !s.proxies[p].stopped
    && Total(s.proxies[p].cfg)
    && var srv := Owner(s.proxies[p].cfg, op.key);
    && srv in s.tables
    && var (t, r) := Serve(s.tables[srv], op, cas);
    && resp == r
    && s' == s.(tables := s.tables[srv := t], used := s.used + {(cas, op.key)})
  }

  ghost predicate SetStopped(s: Cluster, p: nat, on: bool, m: Manager, s': Cluster)
  {
    p in s.proxies && s' == s.(proxies := s.proxies[p := s.proxies[p].(stopped := on)], mgr := m)
  }

  ghost predicate Store1(c: Plan, s: Cluster, k: Key, item: Item, cas: nat, m: Manager, s': Cluster)
  {
    && c.dst in s.tables && (cas, k) !in s.used
    && s' == s.(tables := s.tables[c.dst := s.tables[c.dst][k := Stored(item, cas)]], used := s.used + {(cas, k)}, mgr := m)
  }

  /** The manager's steps before the proxies are locked. */
  ghost predicate CopyStep(c: Plan, s: Cluster, e: Event, s': Cluster)
  {
    && c.src in s.tables && c.dst in s.tables
    && match s.mgr
       case Listed(seen) => (
         match e
         case ListKey(k) =>
           k in s.tables[c.src] && s' == s.(mgr := Listed(seen + {(s.tables[c.src][k].cas, k)}))
         case Choose(b) =>
           && b in KeysOf(seen) && b !in c.cfg
           && var listed := set x | x in seen && AtMost(b, x.1);
           s' == s.(mgr := Copying(b, listed, KeysOf(listed) - s.tables[c.dst].Keys, map[]))
         case _ => false)
       case Copying(b, listed, todo, fetched) => (
         match e
         case Fetch(k) =>
           && k in todo
           && var f := if k in s.tables[c.src] then fetched[k := s.tables[c.src][k].item] else fetched;
           s' == s.(mgr := Copying(b, listed, todo - {k}, f))
         case Put(k, cas) =>
           k in fetched && Store1(c, s, k, fetched[k], cas, Copying(b, listed, todo, fetched - {k}), s')
         case EndCopy => todo == {} && fetched == map[] && s' == s.(mgr := Locking(b, listed, s.proxies.Keys))
         case _ => false)
       case _ => false
  }

  /** The manager's steps from the first lock to the last unlock. */
  ghost predicate SwitchStep(c: Plan, s: Cluster, e: Event, s': Cluster)
  {
    && c.src in s.tables && c.dst in s.tables
    && match s.mgr
       case Locking(b, listed, waiting) => (
         match e
         case Stop(p) => p in waiting && SetStopped(s, p, true, Locking(b, listed, waiting - {p}), s')
         case Relist =>
           && waiting == {}
           && var upd := ListingOf(s.tables[c.src], b);
           s' == s.(mgr := Diffing(b, upd, KeysOf(upd - listed), map[], KeysOf(listed) - KeysOf(upd)))
         case _ => false)
       case Diffing(b, upd, todo, fetched, doomed) => (
         match e
         case Fetch(k) =>
           && k in todo
           && var f := if k in s.tables[c.src] then fetched[k := s.tables[c.src][k].item] else fetched;
           s' == s.(mgr := Diffing(b, upd, todo - {k}, f, doomed))
         case Put(k, cas) =>
           k in fetched && Store1(c, s, k, fetched[k], cas, Diffing(b, upd, todo, fetched - {k}, doomed), s')
         case Drop(k) =>
           && k in doomed
           && s' == s.(tables := s.tables[c.dst := s.tables[c.dst] - {k}], mgr := Diffing(b, upd, todo, fetched, doomed - {k}))
         case EndDiff =>
           todo == {} && fetched == map[] && doomed == {} && s' == s.(mgr := Switching(b, upd, s.proxies.Keys))
         case _ => false)
       case Switching(b, upd, waiting) => (
         match e
         case SetConfig(p) =>
           && p in waiting && p in s.proxies && s.proxies[p].stopped
           && s' == s.(proxies := s.proxies[p := s.proxies[p].(cfg := NewCfg(c, b))], mgr := Switching(b, upd, waiting - {p}))
         case EndSwitch => waiting == {} && s' == s.(mgr := Unlocking(b, upd, s.proxies.Keys))
         case _ => false)
       case Unlocking(b, upd, waiting) => (
         match e
         case Restart(p) => p in waiting && SetStopped(s, p, false, Unlocking(b, upd, waiting - {p}), s')
         case EndUnlock => waiting == {} && s' == s.(mgr := Cleaning(b, KeysOf(upd)))
         case _ => false)
       case _ => false
  }

  /** Closing the manager's connections restarts every proxy it stopped. */
  ghost function Resumed(ps: map<nat, Proxy>): map<nat, Proxy>
  {
    map p | p in ps :: ps[p].(stopped := false)
  }

  ghost predicate SameConfig(ps: map<nat, Proxy>, cfg: Config)
  {
    forall p :: p in ps ==> ps[p].cfg == cfg
  }

  ghost predicate CleanStep(c: Plan, s: Cluster, e: Event, s': Cluster)
  {
    match e
    case Clean(k) =>
      && s.mgr.Cleaning? && k in s.mgr.doomed && c.src in s.tables
      && s' == s.(tables := s.tables[c.src := s.tables[c.src] - {k}], mgr := s.mgr.(doomed := s.mgr.doomed - {k}))
    case Leave =>
      exists live :: SameConfig(s.proxies, live) && s' == s.(proxies := Resumed(s.proxies), mgr := Gone(live))
    case _ => false
  }

  ghost predicate Next(c: Plan, s: Cluster, e: Event, s': Cluster)
  {
    match e
    case Client(p, op, cas, resp) => ClientStep(s, p, op, cas, resp, s')
    case _ => CopyStep(c, s, e, s') || SwitchStep(c, s, e, s') || CleanStep(c, s, e, s')
  }

  // ---- what every step keeps ----

  ghost predicate PlanOk(c: Plan)
  {
    && Total(c.cfg) && c.dst !in c.cfg.Values && c.src != c.dst && c.src in c.cfg.Values
    && forall s, t :: s in c.cfg && t in c.cfg && c.cfg[s] == c.cfg[t] ==> s == t
  }

  ghost predicate Owned(c: Plan, t: Table)
    requires Total(c.cfg)
  {
    forall k :: k in t ==> Owner(c.cfg, k) == c.src
  }

  ghost predicate Stamped(t: Table, used: Listing)
  {
    forall k :: k in t ==> (t[k].cas, k) in used
  }

  ghost predicate Base(c: Plan, s: Cluster)
  {
    && PlanOk(c) && s.proxies != map[]
    && c.src in s.tables && c.dst in s.tables && c.cfg.Values <= s.tables.Keys
    && Owned(c, s.tables[c.src]) && Stamped(s.tables[c.src], s.used)
  }

  /** `b` cuts the source's range in two. */
  ghost predicate CutsSource(c: Plan, b: Key)
  {
    Total(c.cfg) && b !in c.cfg && Owner(c.cfg, b) == c.src
  }

  /** The new server has what the source has now at every listed key that has not changed since. */
  ghost predicate CopiedUnlessPending(src: Table, dst: Table, listed: Listing, todo: set<Key>, fetched: map<Key, Item>)
  {
    forall x :: x in listed && x.1 in src && src[x.1].cas == x.0 ==>
      || x.1 in todo
      || (x.1 in fetched && fetched[x.1] == src[x.1].item)
      || Look(dst, x.1) == Look(src, x.1)
  }

  ghost predicate CopyInv(c: Plan, s: Cluster, b: Key, listed: Listing, todo: set<Key>, fetched: map<Key, Item>)
    requires c.src in s.tables && c.dst in s.tables
  {
    && CutsSource(c, b) && listed <= s.used
    && (forall x :: x in listed ==> AtMost(b, x.1))
    && todo <= KeysOf(listed) && fetched.Keys <= KeysOf(listed) && s.tables[c.dst].Keys <= KeysOf(listed)
    && todo !! fetched.Keys && todo !! s.tables[c.dst].Keys && fetched.Keys !! s.tables[c.dst].Keys
    && CopiedUnlessPending(s.tables[c.src], s.tables[c.dst], listed, todo, fetched)
  }

  ghost predicate DiffInv(c: Plan, s: Cluster, b: Key, upd: Listing, todo: set<Key>, fetched: map<Key, Item>, doomed: set<Key>)
    requires c.src in s.tables && c.dst in s.tables
  {
    var src, dst := s.tables[c.src], s.tables[c.dst];
    && CutsSource(c, b) && upd == ListingOf(src, b)
    && todo <= KeysOf(upd) && fetched.Keys <= KeysOf(upd) && doomed !! KeysOf(upd)
    && todo !! fetched.Keys
    && (forall k :: k in src && AtMost(b, k) ==>
          k in todo || (k in fetched && fetched[k] == src[k].item) || Look(dst, k) == Look(src, k))
    && (forall k :: k in fetched ==> k in src && fetched[k] == src[k].item)
    && (forall k :: k in dst && k !in src ==> k in doomed)
  }

  ghost predicate SameAbove(src: Table, dst: Table, b: Key)
  {
    forall k :: AtMost(b, k) ==> Look(dst, k) == Look(src, k)
  }

  ghost predicate MgrInv(c: Plan, s: Cluster)
    requires Base(c, s)
  {
    match s.mgr
    case Listed(seen) => seen <= s.used && s.tables[c.dst] == map[] && SameConfig(s.proxies, c.cfg)
                         && forall x :: x in seen ==> Owner(c.cfg, x.1) == c.src
    case Copying(b, listed, todo, fetched) =>
      CopyInv(c, s, b, listed, todo, fetched) && SameConfig(s.proxies, c.cfg)
    case Locking(b, listed, waiting) =>
      && CopyInv(c, s, b, listed, {}, map[]) && SameConfig(s.proxies, c.cfg)
      && (forall p :: p in s.proxies && p !in waiting ==> s.proxies[p].stopped)
    case Diffing(b, upd, todo, fetched, doomed) =>
      && DiffInv(c, s, b, upd, todo, fetched, doomed) && SameConfig(s.proxies, c.cfg)
      && (forall p :: p in s.proxies ==> s.proxies[p].stopped)
    case Switching(b, upd, waiting) =>
      && CutsSource(c, b) && upd == ListingOf(s.tables[c.src], b) && SameAbove(s.tables[c.src], s.tables[c.dst], b)
      && (forall p :: p in s.proxies ==> s.proxies[p].stopped)
      && (forall p :: p in s.proxies ==> s.proxies[p].cfg == if p in waiting then c.cfg else NewCfg(c, b))
    case Unlocking(b, upd, waiting) =>
      && CutsSource(c, b) && SameConfig(s.proxies, NewCfg(c, b))
      && (forall x :: x in upd ==> AtMost(b, x.1) && Owner(c.cfg, x.1) == c.src)
    case Cleaning(b, doomed) =>
      && CutsSource(c, b) && SameConfig(s.proxies, NewCfg(c, b))
      && (forall k :: k in doomed ==> AtMost(b, k) && Owner(c.cfg, k) == c.src)
    case Gone(live) =>
      SameConfig(s.proxies, live) && (live == c.cfg || exists b :: CutsSource(c, b) && live == NewCfg(c, b))
  }

  ghost predicate Inv(c: Plan, s: Cluster) { Base(c, s) && MgrInv(c, s) }

  /** What a client sees at a key through any running proxy. */
  ghost function View(c: Plan, s: Cluster, k: Key): Option<Item>
  {
    if Total(Live(c, s)) && Owner(Live(c, s), k) in s.tables then Look(s.tables[Owner(Live(c, s), k)], k) else None
  }

  /** Clients see exactly the map `m`. */
  ghost predicate Shows(c: Plan, s: Cluster, m: map<Key, Item>)
  {
    forall k :: View(c, s, k) == LookItem(m, k)
  }

  // ---- routing facts ----

  lemma MovedOwner(c: Plan, b: Key, k: Key)
    requires PlanOk(c) && CutsSource(c, b)
    ensures Total(NewCfg(c, b))
    ensures Owner(NewCfg(c, b), k) == if Owner(c.cfg, k) == c.src && AtMost(b, k) then c.dst else Owner(c.cfg, k)
  {
    SplitRoutes(c.cfg, b, c.dst, k);
  }

  lemma LiveOk(c: Plan, s: Cluster, k: Key)
    requires Inv(c, s)
    ensures Total(Live(c, s)) && Owner(Live(c, s), k) in s.tables
    ensures Owner(Live(c, s), k) == c.src ==> Owner(c.cfg, k) == c.src
    ensures Live(c, s) == c.cfg ==> Owner(Live(c, s), k) != c.dst
    ensures Owner(c.cfg, k) in c.cfg.Values
  {
    assert Start(c.cfg, k) in c.cfg;
    match s.mgr
    case Unlocking(b, _, _) => MovedOwner(c, b, k);
    case Cleaning(b, _) => MovedOwner(c, b, k);
    case Gone(live) =>
      if live != c.cfg {
        var b :| CutsSource(c, b) && live == NewCfg(c, b);
        MovedOwner(c, b, k);
      }
    case _ =>
  }

  lemma RunningIsLive(c: Plan, s: Cluster, p: nat)
    requires Inv(c, s) && p in s.proxies && !s.proxies[p].stopped
    ensures s.proxies[p].cfg == Live(c, s) && !s.mgr.Diffing? && !s.mgr.Switching?
  {
  }

  // ---- client steps ----

  lemma ClientCopied(t: Table, t': Table, dst: Table, listed: Listing, todo: set<Key>, fetched: map<Key, Item>,
                     used: Listing, op: Op, cas: nat)
    requires t' == Serve(t, op, cas).0 && listed <= used && (cas, op.key) !in used
    requires CopiedUnlessPending(t, dst, listed, todo, fetched)
    ensures CopiedUnlessPending(t', dst, listed, todo, fetched)
  {
  }

  lemma ClientBase(c: Plan, s: Cluster, p: nat, op: Op, cas: nat, resp: Resp, s': Cluster)
    requires Inv(c, s) && ClientStep(s, p, op, cas, resp, s')
    ensures Base(c, s')
  {
    RunningIsLive(c, s, p);
    LiveOk(c, s, op.key);
  }

  lemma ClientMgr(c: Plan, s: Cluster, p: nat, op: Op, cas: nat, resp: Resp, s': Cluster)
    requires Inv(c, s) && ClientStep(s, p, op, cas, resp, s') && Base(c, s')
    ensures MgrInv(c, s')
  {
    RunningIsLive(c, s, p);
    LiveOk(c, s, op.key);
    if s.mgr.Copying? {
      if Owner(c.cfg, op.key) == c.src {
        ClientCopied(s.tables[c.src], s'.tables[c.src], s.tables[c.dst], s.mgr.listed, s.mgr.todo, s.mgr.fetched, s.used, op, cas);
      }
    } else if s.mgr.Locking? {
      if Owner(c.cfg, op.key) == c.src {
        ClientCopied(s.tables[c.src], s'.tables[c.src], s.tables[c.dst], s.mgr.listed, {}, map[], s.used, op, cas);
      }
    }
  }

  /** A client's command acts on the shown map, and only there. */
  lemma ClientShows(c: Plan, s: Cluster, p: nat, op: Op, cas: nat, resp: Resp, s': Cluster, m: map<Key, Item>)
    requires Inv(c, s) && ClientStep(s, p, op, cas, resp, s') && Shows(c, s, m)
    ensures Shows(c, s', Expect(m, op).0) && resp == Expect(m, op).1
  {
    RunningIsLive(c, s, p);
    LiveOk(c, s, op.key);
    assert Live(c, s') == Live(c, s);
    var srv := Owner(Live(c, s), op.key);
    assert View(c, s, op.key) == Look(s.tables[srv], op.key);
    ServeLikeMap(s.tables[srv], m, op, cas);
    forall k
      ensures View(c, s', k) == LookItem(Expect(m, op).0, k)
    {
      LiveOk(c, s, k);
      assert View(c, s, k) == LookItem(m, k);
    }
  }

  // ---- manager steps ----

  /** A step that leaves routing alone and changes no table but the new server's keeps the view. */
  lemma DstHidden(c: Plan, s: Cluster, s': Cluster, m: map<Key, Item>)
    requires Inv(c, s) && Shows(c, s, m) && Live(c, s) == c.cfg && Live(c, s') == c.cfg
    requires s'.tables.Keys == s.tables.Keys
    requires forall srv :: srv in s.tables && srv != c.dst ==> s'.tables[srv] == s.tables[srv]
    ensures Shows(c, s', m)
  {
    forall k
      ensures View(c, s', k) == LookItem(m, k)
    {
      LiveOk(c, s, k);
      assert View(c, s, k) == LookItem(m, k);
    }
  }

  lemma ViewKept(c: Plan, s: Cluster, s': Cluster, m: map<Key, Item>)
    requires Shows(c, s, m) && Live(c, s) == Live(c, s') && s'.tables == s.tables
    ensures Shows(c, s', m)
  {
    forall k
      ensures View(c, s', k) == LookItem(m, k)
    {
      assert View(c, s, k) == LookItem(m, k);
    }
  }

  lemma ChooseKeeps(c: Plan, s: Cluster, b: Key, s': Cluster, m: map<Key, Item>)
    requires Inv(c, s) && Shows(c, s, m) && s.mgr.Listed? && CopyStep(c, s, Choose(b), s')
    ensures Inv(c, s') && Shows(c, s', m)
  {
    var x :| x in s.mgr.seen && x.1 == b;
    assert CutsSource(c, b);
    var listed := set x | x in s.mgr.seen && AtMost(b, x.1);
    assert s.tables[c.dst].Keys == {};
    forall x | x in listed
      ensures x.1 in KeysOf(listed)
    {
    }
    DstHidden(c, s, s', m);
  }

  lemma FetchKeeps(c: Plan, s: Cluster, k: Key, s': Cluster, m: map<Key, Item>)
    requires Inv(c, s) && Shows(c, s, m) && s.mgr.Copying? && CopyStep(c, s, Fetch(k), s')
    ensures Inv(c, s') && Shows(c, s', m)
  {
    DstHidden(c, s, s', m);
  }

  lemma PutKeeps(c: Plan, s: Cluster, k: Key, cas: nat, s': Cluster, m: map<Key, Item>)
    requires Inv(c, s) && Shows(c, s, m) && s.mgr.Copying? && CopyStep(c, s, Put(k, cas), s')
    ensures Inv(c, s') && Shows(c, s', m)
  {
    DstHidden(c, s, s', m);
  }

  lemma ListKeeps(c: Plan, s: Cluster, k: Key, s': Cluster, m: map<Key, Item>)
    requires Inv(c, s) && Shows(c, s, m) && s.mgr.Listed? && CopyStep(c, s, ListKey(k), s')
    ensures Inv(c, s') && Shows(c, s', m)
  {
    DstHidden(c, s, s', m);
  }

  lemma EndCopyKeeps(c: Plan, s: Cluster, s': Cluster, m: map<Key, Item>)
    requires Inv(c, s) && Shows(c, s, m) && s.mgr.Copying? && CopyStep(c, s, EndCopy, s')
    ensures Inv(c, s') && Shows(c, s', m)
  {
    DstHidden(c, s, s', m);
  }

  /** Which phase a step belongs to. */
  lemma CopyPhase(c: Plan, s: Cluster, e: Event, s': Cluster)
    requires CopyStep(c, s, e, s')
    ensures e.ListKey? || e.Choose? || e.Fetch? || e.Put? || e.EndCopy?
    ensures if e.ListKey? || e.Choose? then s.mgr.Listed? else s.mgr.Copying?
  {
    hide KeysOf, Store1;
  }

  lemma CopyStepKeeps(c: Plan, s: Cluster, e: Event, s': Cluster, m: map<Key, Item>)
    requires Inv(c, s) && CopyStep(c, s, e, s') && Shows(c, s, m)
    ensures Inv(c, s') && Shows(c, s', m)
  {
    CopyPhase(c, s, e, s');
    hide Inv, Shows, CopyStep;
    match e
    case ListKey(k) => ListKeeps(c, s, k, s', m);
    case Choose(b) => ChooseKeeps(c, s, b, s', m);
    case Fetch(k) => FetchKeeps(c, s, k, s', m);
    case Put(k, cas) => PutKeeps(c, s, k, cas, s', m);
    case _ => EndCopyKeeps(c, s, s', m);
  }

  /** When no proxy runs, the difference of the two listings is all that is missing. */
  lemma RelistKeeps(c: Plan, s: Cluster, s': Cluster, m: map<Key, Item>)
    requires Inv(c, s) && Shows(c, s, m) && s.mgr.Locking? && SwitchStep(c, s, Relist, s')
    ensures Inv(c, s') && Shows(c, s', m)
  {
    var b, listed, src, dst := s.mgr.b, s.mgr.listed, s.tables[c.src], s.tables[c.dst];
    var upd := ListingOf(src, b);
    forall k | k in src && AtMost(b, k)
      ensures k in KeysOf(upd) && (k in KeysOf(upd - listed) || Look(dst, k) == Look(src, k))
    {
      var x := (src[k].cas, k);
      assert x in upd;
      if x !in listed { assert x in upd - listed; }
    }
    forall k | k in dst && k !in src
      ensures k in KeysOf(listed) - KeysOf(upd)
    {
      assert k in KeysOf(listed);
    }
    ViewKept(c, s, s', m);
  }

  lemma DiffFetchKeeps(c: Plan, s: Cluster, k: Key, s': Cluster, m: map<Key, Item>)
    requires Inv(c, s) && Shows(c, s, m) && s.mgr.Diffing? && SwitchStep(c, s, Fetch(k), s')
    ensures Inv(c, s') && Shows(c, s', m)
  {
    var x :| x in s.mgr.upd && x.1 == k;
    ViewKept(c, s, s', m);
  }

  lemma DiffPutKeeps(c: Plan, s: Cluster, k: Key, cas: nat, s': Cluster, m: map<Key, Item>)
    requires Inv(c, s) && Shows(c, s, m) && s.mgr.Diffing? && SwitchStep(c, s, Put(k, cas), s')
    ensures Inv(c, s') && Shows(c, s', m)
  {
    DstHidden(c, s, s', m);
  }

  lemma DropKeeps(c: Plan, s: Cluster, k: Key, s': Cluster, m: map<Key, Item>)
    requires Inv(c, s) && Shows(c, s, m) && s.mgr.Diffing? && SwitchStep(c, s, Drop(k), s')
    ensures Inv(c, s') && Shows(c, s', m)
  {
    DstHidden(c, s, s', m);
  }

  lemma EndDiffKeeps(c: Plan, s: Cluster, s': Cluster, m: map<Key, Item>)
    requires Inv(c, s) && Shows(c, s, m) && s.mgr.Diffing? && SwitchStep(c, s, EndDiff, s')
    ensures Inv(c, s') && Shows(c, s', m)
  {
    ViewKept(c, s, s', m);
  }

  /** Both configurations show the same map once the difference is copied. */
  lemma EndSwitchKeeps(c: Plan, s: Cluster, s': Cluster, m: map<Key, Item>)
    requires Inv(c, s) && s.mgr.Switching? && SwitchStep(c, s, EndSwitch, s') && Shows(c, s, m)
    ensures Inv(c, s') && Shows(c, s', m)
  {
    var b := s.mgr.b;
    forall x | x in s.mgr.upd
      ensures AtMost(b, x.1) && Owner(c.cfg, x.1) == c.src
    {
    }
    forall k
      ensures View(c, s', k) == LookItem(m, k)
    {
      LiveOk(c, s, k);
      MovedOwner(c, b, k);
      assert View(c, s, k) == LookItem(m, k);
    }
  }

  /** Stopping, reconfiguring and restarting one proxy. */
  lemma ProxyStepKeeps(c: Plan, s: Cluster, e: Event, s': Cluster, m: map<Key, Item>)
    requires Inv(c, s) && Shows(c, s, m) && SwitchStep(c, s, e, s') && (e.Stop? || e.SetConfig? || e.Restart?)
    ensures Inv(c, s') && Shows(c, s', m)
  {
    ViewKept(c, s, s', m);
  }

  lemma EndUnlockKeeps(c: Plan, s: Cluster, s': Cluster, m: map<Key, Item>)
    requires Inv(c, s) && Shows(c, s, m) && s.mgr.Unlocking? && SwitchStep(c, s, EndUnlock, s')
    ensures Inv(c, s') && Shows(c, s', m)
  {
    forall k | k in KeysOf(s.mgr.upd)
      ensures AtMost(s.mgr.b, k) && Owner(c.cfg, k) == c.src
    {
      var x :| x in s.mgr.upd && x.1 == k;
    }
    ViewKept(c, s, s', m);
  }

  lemma SwitchPhase(c: Plan, s: Cluster, e: Event, s': Cluster)
    requires SwitchStep(c, s, e, s')
    ensures || e.Relist? || e.Fetch? || e.Put? || e.Drop? || e.EndDiff? || e.EndSwitch? || e.EndUnlock?
            || e.Stop? || e.SetConfig? || e.Restart?
    ensures (e.Relist? ==> s.mgr.Locking?) && (e.Fetch? || e.Put? || e.Drop? || e.EndDiff? ==> s.mgr.Diffing?)
    ensures (e.EndSwitch? ==> s.mgr.Switching?) && (e.EndUnlock? ==> s.mgr.Unlocking?)
  {
    hide KeysOf, ListingOf, Store1, SetStopped;
  }

  lemma DiffStepKeeps(c: Plan, s: Cluster, e: Event, s': Cluster, m: map<Key, Item>)
    requires Inv(c, s) && SwitchStep(c, s, e, s') && Shows(c, s, m) && s.mgr.Diffing?
    ensures Inv(c, s') && Shows(c, s', m)
  {
    DiffEvents(c, s, e, s');
    hide Inv, Shows, SwitchStep;
    match e
    case Fetch(k) => DiffFetchKeeps(c, s, k, s', m);
    case Put(k, cas) => DiffPutKeeps(c, s, k, cas, s', m);
    case Drop(k) => DropKeeps(c, s, k, s', m);
    case _ => EndDiffKeeps(c, s, s', m);
  }

  lemma DiffEvents(c: Plan, s: Cluster, e: Event, s': Cluster)
    requires SwitchStep(c, s, e, s') && s.mgr.Diffing?
    ensures e.Fetch? || e.Put? || e.Drop? || e.EndDiff?
  {
  }

  lemma SwitchStepKeeps(c: Plan, s: Cluster, e: Event, s': Cluster, m: map<Key, Item>)
    requires Inv(c, s) && SwitchStep(c, s, e, s') && Shows(c, s, m)
    ensures Inv(c, s') && Shows(c, s', m)
  {
    SwitchPhase(c, s, e, s');
    hide Inv, Shows, SwitchStep;
    if e.Stop? || e.SetConfig? || e.Restart? {
      ProxyStepKeeps(c, s, e, s', m);
    } else if s.mgr.Diffing? {
      DiffStepKeeps(c, s, e, s', m);
    } else {
      PhaseEndKeeps(c, s, e, s', m);
    }
  }

  lemma PhaseEndKeeps(c: Plan, s: Cluster, e: Event, s': Cluster, m: map<Key, Item>)
    requires Inv(c, s) && SwitchStep(c, s, e, s') && Shows(c, s, m) && (e.Relist? || e.EndSwitch? || e.EndUnlock?)
    ensures Inv(c, s') && Shows(c, s', m)
  {
    SwitchPhase(c, s, e, s');
    hide Inv, Shows, SwitchStep;
    match e
    case Relist => RelistKeeps(c, s, s', m);
    case EndSwitch => EndSwitchKeeps(c, s, s', m);
    case _ => EndUnlockKeeps(c, s, s', m);
  }

  lemma CleanKeeps(c: Plan, s: Cluster, k: Key, s': Cluster, m: map<Key, Item>)
    requires Inv(c, s) && CleanStep(c, s, Clean(k), s') && Shows(c, s, m)
    ensures Inv(c, s') && Shows(c, s', m)
  {
    forall j
      ensures View(c, s', j) == LookItem(m, j)
    {
      LiveOk(c, s, j);
      MovedOwner(c, s.mgr.b, j);
      assert View(c, s, j) == LookItem(m, j);
    }
  }

  lemma LeaveInv(c: Plan, s: Cluster, s': Cluster, live: Config)
    requires Inv(c, s) && SameConfig(s.proxies, live) && s' == s.(proxies := Resumed(s.proxies), mgr := Gone(live))
    ensures Inv(c, s') && (live == c.cfg || (!s.mgr.Listed? && !s.mgr.Gone? && live == NewCfg(c, s.mgr.b)) || s.mgr.Gone?)
    ensures live == Live(c, s) || s.mgr.Switching?
  {
    var p :| p in s.proxies;
    assert s.proxies[p].cfg == live && p in s'.proxies;
  }

  lemma LeaveView(c: Plan, s: Cluster, s': Cluster, live: Config, k: Key)
    requires Inv(c, s) && SameConfig(s.proxies, live) && s' == s.(proxies := Resumed(s.proxies), mgr := Gone(live))
    ensures View(c, s', k) == View(c, s, k)
  {
    LeaveInv(c, s, s', live);
    LiveOk(c, s, k);
    if s.mgr.Switching? && live != c.cfg { MovedOwner(c, s.mgr.b, k); }
  }

  lemma LeaveKeeps(c: Plan, s: Cluster, s': Cluster, m: map<Key, Item>)
    requires Inv(c, s) && CleanStep(c, s, Leave, s') && Shows(c, s, m)
    ensures Inv(c, s') && Shows(c, s', m)
  {
    var live :| SameConfig(s.proxies, live) && s' == s.(proxies := Resumed(s.proxies), mgr := Gone(live));
    LeaveInv(c, s, s', live);
    hide Inv, View, SameConfig;
    forall k
      ensures View(c, s', k) == LookItem(m, k)
    {
      LeaveView(c, s, s', live, k);
      assert View(c, s, k) == LookItem(m, k);
    }
  }

  lemma NextKeeps(c: Plan, s: Cluster, e: Event, s': Cluster, m: map<Key, Item>)
    requires Inv(c, s) && Next(c, s, e, s') && Shows(c, s, m)
    ensures Inv(c, s')
    ensures e.Client? ==> Shows(c, s', Expect(m, e.op).0) && e.resp == Expect(m, e.op).1
    ensures !e.Client? ==> Shows(c, s', m)
  {
    hide Inv, Shows, CopyStep, SwitchStep, CleanStep, ClientStep;
    if e.Client? {
      ClientBase(c, s, e.proxy, e.op, e.cas, e.resp, s');
      ClientMgr(c, s, e.proxy, e.op, e.cas, e.resp, s');
      ClientShows(c, s, e.proxy, e.op, e.cas, e.resp, s', m);
      InvParts(c, s');
    } else if CopyStep(c, s, e, s') {
      CopyStepKeeps(c, s, e, s', m);
    } else if SwitchStep(c, s, e, s') {
      SwitchStepKeeps(c, s, e, s', m);
    } else {
      CleanStepKeeps(c, s, e, s', m);
    }
  }

  lemma InvParts(c: Plan, s: Cluster)
    requires Base(c, s) && MgrInv(c, s)
    ensures Inv(c, s)
  {
  }

  lemma CleanStepKeeps(c: Plan, s: Cluster, e: Event, s': Cluster, m: map<Key, Item>)
    requires Inv(c, s) && CleanStep(c, s, e, s') && Shows(c, s, m)
    ensures Inv(c, s') && Shows(c, s', m)
  {
    hide Inv, Shows;
    if e.Clean? { CleanKeeps(c, s, e.key, s', m); } else { LeaveKeeps(c, s, s', m); }
  }

  // ---- whole runs ----

  /** A healthy cluster before the split; the new server is empty and every stored version is on record. */
  ghost predicate Init(c: Plan, s: Cluster)
  {
    Base(c, s) && s.mgr == Listed({}) && s.tables[c.dst] == map[] && SameConfig(s.proxies, c.cfg)
  }

  ghost predicate IsRun(c: Plan, states: seq<Cluster>, events: seq<Event>)
  {
    && |states| == |events| + 1 && Init(c, states[0])
    && forall i :: 0 <= i < |events| ==> Next(c, states[i], events[i], states[i + 1])
  }

  /** The map after a sequence of events: only the clients' commands count. */
  function Replay(m: map<Key, Item>, events: seq<Event>): map<Key, Item>
  {
    if events == [] then m
    else
      var before := Replay(m, events[..|events| - 1]);
      var e := events[|events| - 1];
      if e.Client? then Expect(before, e.op).0 else before
  }

  /** Every answer is the one the map would have given at that moment. */
  ghost predicate AnswersRight(m: map<Key, Item>, events: seq<Event>)
  {
    forall i :: 0 <= i < |events| && events[i].Client? ==>
      events[i].resp == Expect(Replay(m, events[..i]), events[i].op).1
  }

  ghost predicate SendsAlike(a: Proxy, b: Proxy)
  {
    Total(a.cfg) && Total(b.cfg) && forall k :: Owner(a.cfg, k) == Owner(b.cfg, k)
  }

  /** Any two running proxies send every key to the same server. */
  ghost predicate RoutesAgree(ps: map<nat, Proxy>)
  {
    forall p, q :: p in ps && q in ps && !ps[p].stopped && !ps[q].stopped ==> SendsAlike(ps[p], ps[q])
  }

  lemma InvRoutesAgree(c: Plan, s: Cluster)
    requires Inv(c, s)
    ensures RoutesAgree(s.proxies)
  {
    forall p, q | p in s.proxies && q in s.proxies && !s.proxies[p].stopped && !s.proxies[q].stopped
      ensures SendsAlike(s.proxies[p], s.proxies[q])
    {
      RunningIsLive(c, s, p);
      RunningIsLive(c, s, q);
      LiveOk(c, s, []);
    }
  }

  /** In every run of clients and manager, clients see one map, given by their commands alone. */
  lemma {:induction false} SplitIsTransparent(c: Plan, states: seq<Cluster>, events: seq<Event>, m: map<Key, Item>)
    requires IsRun(c, states, events) && Shows(c, states[0], m)
    ensures Inv(c, states[|events|]) && Shows(c, states[|events|], Replay(m, events))
    ensures AnswersRight(m, events)
    ensures forall i :: 0 <= i < |states| ==> RoutesAgree(states[i].proxies)
    decreases |events|
  {
    hide Inv, Shows, Next, RoutesAgree;
    if events == [] {
      InitInv(c, states[0]);
      InvRoutesAgree(c, states[0]);
    } else {
      var n := |events| - 1;
      var front, e := events[..n], events[n];
      SplitIsTransparent(c, states[..n + 1], front, m);
      assert Next(c, states[n], e, states[n + 1]);
      NextKeeps(c, states[n], e, states[n + 1], Replay(m, front));
      InvRoutesAgree(c, states[n + 1]);
      forall i | 0 <= i < |states|
        ensures RoutesAgree(states[i].proxies)
      {
        if i <= n { assert states[i] == states[..n + 1][i]; }
      }
      forall i | 0 <= i < |events| && events[i].Client?
        ensures events[i].resp == Expect(Replay(m, events[..i]), events[i].op).1
      {
        if i < n { assert events[i] == front[i] && events[..i] == front[..i]; }
      }
    }
  }

  lemma InitInv(c: Plan, s: Cluster)
    requires Init(c, s)
    ensures Inv(c, s)
  {
  }

  // ---- where the protocol needs its preconditions ----

  /** A manager that dies while reconfiguring is harmless exactly when no proxy or every proxy has switched. */
  lemma CrashWhileSwitching(c: Plan, s: Cluster)
    requires Inv(c, s) && s.mgr.Switching?
    ensures RoutesAgree(Resumed(s.proxies)) <==>
      (forall p :: p in s.proxies ==> p in s.mgr.waiting) || (forall p :: p in s.proxies ==> p !in s.mgr.waiting)
  {
    var b, ps := s.mgr.b, Resumed(s.proxies);
    MovedOwner(c, b, b);
    forall p, q | p in ps && q in ps && p in s.mgr.waiting && q !in s.mgr.waiting
      ensures !SendsAlike(ps[p], ps[q])
    {
      assert Owner(ps[p].cfg, b) == c.src && Owner(ps[q].cfg, b) == c.dst;
    }
    forall p, q | p in ps && q in ps && (p in s.mgr.waiting <==> q in s.mgr.waiting)
      ensures SendsAlike(ps[p], ps[q])
    {
    }
  }
}
