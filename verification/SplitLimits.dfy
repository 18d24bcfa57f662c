/** Where the split needs its preconditions: runs that lose a write without them, and exactly what the second copy repairs. */
module SplitLimits {
  import opened Keys
  import opened Routing
  import opened Store
  import opened Wrappers
  import opened ShardSplit
  import Storage
  import FileVersions

  // ---- what the second listing repairs ----

  /** Whatever was listed before and not listed otherwise now is equal on both servers. */
  ghost predicate ListedSame(src: Table, dst: Table, listed: Listing, b: Key)
  {
    forall k :: k in src && AtMost(b, k) && (src[k].cas, k) in listed ==> Look(dst, k) == Look(src, k)
  }

  /** Whatever the new server has beyond the old one was listed before. */
  ghost predicate ExtrasListed(src: Table, dst: Table, listed: Listing, b: Key)
  {
    forall k :: k in dst && AtMost(b, k) && k !in src ==> k in KeysOf(listed)
  }

  lemma Relisted(src: Table, b: Key, listed: Listing, k: Key)
    ensures k in KeysOf(ListingOf(src, b)) <==> k in src && AtMost(b, k)
    ensures k in KeysOf(ListingOf(src, b) - listed) <==> k in src && AtMost(b, k) && (src[k].cas, k) !in listed
  {
    var upd := ListingOf(src, b);
    if k in src && AtMost(b, k) {
      assert (src[k].cas, k) in upd;
      if (src[k].cas, k) !in listed { assert (src[k].cas, k) in upd - listed; }
    }
    if k in KeysOf(upd - listed) {
      var x :| x in upd - listed && x.1 == k;
    }
  }

  /** The second copy is to touch every key that differs exactly when no key keeps its listed version and differs. */
  lemma RelistMeets(c: Plan, s: Cluster, s': Cluster)
    requires s.mgr.Locking? && SwitchStep(c, s, Relist, s')
    ensures s'.mgr.Diffing?
    ensures var src, dst, b := s.tables[c.src], s.tables[c.dst], s.mgr.b;
      && (ListedSame(src, dst, s.mgr.listed, b)
          <==> forall k :: k in src && AtMost(b, k) ==> k in s'.mgr.todo || Look(dst, k) == Look(src, k))
      && (ExtrasListed(src, dst, s.mgr.listed, b)
          <==> forall k :: k in dst && AtMost(b, k) && k !in src ==> k in s'.mgr.doomed)
  {
    var src, b, listed := s.tables[c.src], s.mgr.b, s.mgr.listed;
    forall k
      ensures k in s'.mgr.todo <==> k in src && AtMost(b, k) && (src[k].cas, k) !in listed
      ensures k in s'.mgr.doomed <==> k in KeysOf(listed) && !(k in src && AtMost(b, k))
    {
      Relisted(src, b, listed, k);
    }
  }

  /** What the second copy keeps: keys still to copy or to drop, and all others as they were. */
  ghost predicate Repairing(src: Table, dst0: Table, dst: Table, b: Key, listed: Listing, m: Manager)
  {
    && m.Diffing? && m.b == b
    && (forall k :: k in m.todo ==> k in src)
    && (forall k :: k in m.fetched ==> k in src && m.fetched[k] == src[k].item)
    && (forall k :: k in src && AtMost(b, k) ==> k !in m.doomed)
    && (forall k :: AtMost(b, k) ==> RepairedAt(src, dst0, dst, listed, m, k))
  }

  ghost predicate RepairedAt(src: Table, dst0: Table, dst: Table, listed: Listing, m: Manager, k: Key)
    requires m.Diffing?
  {
    if k in src && (src[k].cas, k) !in listed then
      k in m.todo || k in m.fetched || Look(dst, k) == Look(src, k)
    else if k !in src && k in KeysOf(listed) then
      k !in m.todo && k !in m.fetched && (k in m.doomed || k !in dst)
    else
      k !in m.todo && k !in m.fetched && k !in m.doomed && Look(dst, k) == Look(dst0, k)
  }

  lemma RelistBegins(c: Plan, s: Cluster, s': Cluster)
    requires s.mgr.Locking? && SwitchStep(c, s, Relist, s')
    ensures s'.tables == s.tables && c.src in s.tables && c.dst in s.tables
    ensures Repairing(s.tables[c.src], s.tables[c.dst], s.tables[c.dst], s.mgr.b, s.mgr.listed, s'.mgr)
  {
    var src, b, listed := s.tables[c.src], s.mgr.b, s.mgr.listed;
    forall k
      ensures k in s'.mgr.todo <==> k in src && AtMost(b, k) && (src[k].cas, k) !in listed
      ensures k in s'.mgr.doomed <==> k in KeysOf(listed) && !(k in src && AtMost(b, k))
    {
      Relisted(src, b, listed, k);
    }
  }

  lemma RepairStep(c: Plan, dst0: Table, b: Key, listed: Listing, s: Cluster, e: Event, s': Cluster)
    requires c.src != c.dst && SwitchStep(c, s, e, s')
    requires Repairing(s.tables[c.src], dst0, s.tables[c.dst], b, listed, s.mgr)
    ensures c.src in s'.tables && c.dst in s'.tables && s'.tables[c.src] == s.tables[c.src]
    ensures if e.EndDiff? then s'.tables == s.tables && s.mgr.todo == {} && s.mgr.fetched == map[] && s.mgr.doomed == {}
            else Repairing(s'.tables[c.src], dst0, s'.tables[c.dst], b, listed, s'.mgr)
  {
    DiffEvents(c, s, e, s');
    var src, dst, m := s.tables[c.src], s.tables[c.dst], s.mgr;
    var dst', m' := s'.tables[c.dst], s'.mgr;
    if !e.EndDiff? {
      forall k | AtMost(b, k)
        ensures RepairedAt(src, dst0, dst', listed, m', k)
      {
        assert RepairedAt(src, dst0, dst, listed, m, k);
      }
    }
  }

  /** The manager's own steps from the second listing to the end of the second copy. */
  ghost predicate SecondCopy(c: Plan, states: seq<Cluster>, events: seq<Event>)
  {
    && |states| == |events| + 1 && |events| >= 2 && events[0] == Relist && events[|events| - 1] == EndDiff
    && (forall i :: 0 < i < |events| - 1 ==> events[i] != EndDiff)
    && forall i :: 0 <= i < |events| ==> SwitchStep(c, states[i], events[i], states[i + 1])
  }

  lemma {:induction false} Repaired(c: Plan, states: seq<Cluster>, events: seq<Event>, n: nat)
    requires c.src != c.dst && SecondCopy(c, states, events) && states[0].mgr.Locking? && 0 < n < |events|
    ensures c.src in states[0].tables && c.dst in states[0].tables && c.src in states[n].tables && c.dst in states[n].tables
    ensures states[n].tables[c.src] == states[0].tables[c.src]
    ensures Repairing(states[n].tables[c.src], states[0].tables[c.dst], states[n].tables[c.dst],
                      states[0].mgr.b, states[0].mgr.listed, states[n].mgr)
  {
    hide Repairing, SwitchStep;
    assert SwitchStep(c, states[n - 1], events[n - 1], states[n]);
    if n == 1 {
      RelistBegins(c, states[0], states[1]);
    } else {
      Repaired(c, states, events, n - 1);
      RepairStep(c, states[0].tables[c.dst], states[0].mgr.b, states[0].mgr.listed, states[n - 1], events[n - 1], states[n]);
    }
  }

  /** The two servers agree after the second copy, however it is ordered, exactly when both conditions held before it. */
  lemma SecondCopyIff(c: Plan, states: seq<Cluster>, events: seq<Event>)
    requires c.src != c.dst && SecondCopy(c, states, events) && states[0].mgr.Locking?
    ensures var s, s' := states[0], states[|events|];
      && c.src in s.tables && c.dst in s.tables && c.src in s'.tables && c.dst in s'.tables
      && s'.tables[c.src] == s.tables[c.src]
      && (SameAbove(s'.tables[c.src], s'.tables[c.dst], s.mgr.b)
          <==> ListedSame(s.tables[c.src], s.tables[c.dst], s.mgr.listed, s.mgr.b)
               && ExtrasListed(s.tables[c.src], s.tables[c.dst], s.mgr.listed, s.mgr.b))
  {
    var n := |events| - 1;
    var s, t, s' := states[0], states[n], states[n + 1];
    Repaired(c, states, events, n);
    assert SwitchStep(c, t, events[n], s');
    var src, dst0, b, listed := s.tables[c.src], s.tables[c.dst], s.mgr.b, s.mgr.listed;
    RepairStep(c, dst0, b, listed, t, EndDiff, s');
    Agreement(src, dst0, s'.tables[c.dst], b, listed, t.mgr);
  }

  lemma Agreement(src: Table, dst0: Table, dst: Table, b: Key, listed: Listing, m: Manager)
    requires Repairing(src, dst0, dst, b, listed, m) && m.todo == {} && m.fetched == map[] && m.doomed == {}
    ensures SameAbove(src, dst, b) <==> ListedSame(src, dst0, listed, b) && ExtrasListed(src, dst0, listed, b)
  {
    forall k | AtMost(b, k)
      ensures Look(dst, k) == Look(src, k) <==>
        !((k in src && (src[k].cas, k) in listed && Look(dst0, k) != Look(src, k))
          || (k !in src && k in dst0 && k !in KeysOf(listed)))
    {
      assert RepairedAt(src, dst0, dst, listed, m, k);
      if k in src && (src[k].cas, k) in listed { assert k in KeysOf(listed); }
    }
  }

  // ---- runs without a precondition ----

  /** What a step adds to the record of versions. */
  function Stamps(e: Event): Listing
  {
    match e
    case Client(_, op, cas, _) => {(cas, op.key)}
    case Put(k, cas) => {(cas, k)}
    case _ => {}
  }

  /** A step when nothing keeps a version from being used again. */
  ghost predicate LooseNext(c: Plan, s: Cluster, e: Event, s': Cluster)
  {
    s.used == {} && s'.used == {} && Next(c, s, e, s'.(used := Stamps(e)))
  }

  /** A healthy cluster, except that the new server may hold something. */
  ghost predicate UsedInit(c: Plan, s: Cluster)
  {
    Base(c, s) && s.mgr == Listed({}) && SameConfig(s.proxies, c.cfg)
  }

  ghost predicate Hop(c: Plan, s: Cluster, e: Event, s': Cluster, loose: bool)
  {
    if loose then LooseNext(c, s, e, s') else Next(c, s, e, s')
  }

  ghost predicate Steps(c: Plan, states: seq<Cluster>, events: seq<Event>, loose: bool)
  {
    && |states| == |events| + 1
    && forall i :: 0 <= i < |events| ==> Hop(c, states[i], events[i], states[i + 1], loose)
  }

  lemma StepsJoin(c: Plan, xs: seq<Cluster>, es: seq<Event>, ys: seq<Cluster>, fs: seq<Event>, loose: bool)
    requires Steps(c, xs, es, loose) && Steps(c, ys, fs, loose) && xs[|es|] == ys[0]
    ensures Steps(c, xs + ys[1..], es + fs, loose)
    ensures (xs + ys[1..])[0] == xs[0] && (xs + ys[1..])[|es + fs|] == ys[|fs|]
  {
    hide Hop;
    var all, events := xs + ys[1..], es + fs;
    forall i | 0 <= i < |events|
      ensures Hop(c, all[i], events[i], all[i + 1], loose)
    {
      if i < |es| {
        assert all[i] == xs[i] && all[i + 1] == xs[i + 1];
      } else {
        var j := i - |es|;
        assert all[i] == ys[j] && all[i + 1] == ys[j + 1];
      }
    }
  }

  /** One server with everything, one proxy. */
  ghost function Small(): Plan { Plan(map[[] := 0], 0, 1) }

  lemma SmallRoutes(b: Key)
    requires b != []
    ensures var cfg := Small().cfg;
      Total(cfg) && Owner(cfg, b) == 0 && Total(NewCfg(Small(), b)) && Owner(NewCfg(Small(), b), b) == 1
  {
    OwnerIs(Small().cfg, b, []);
    OwnerIs(NewCfg(Small(), b), b, b);
  }

  /** Tables of the two servers, the one proxy, the record and the manager. */
  ghost function Duo(src: Table, dst: Table, stopped: bool, cfg: Config, used: Listing, m: Manager): Cluster
  {
    Cluster(map[0 := src, 1 := dst], map[0 := Proxy(stopped, cfg)], used, m)
  }

  lemma OneListed(b: Key, x: Stored)
    ensures ListingOf(map[b := x], b) == {(x.cas, b)} && KeysOf({(x.cas, b)}) == {b}
  {
    var t: Table := map[b := x];
    assert (t[b].cas, b) in ListingOf(t, b);
    assert (x.cas, b) in {(x.cas, b)};
    assert b in KeysOf({(x.cas, b)});
  }

  lemma Quiet(c: Plan, s: Cluster, e: Event, s': Cluster, loose: bool)
    requires !e.Client? && !e.Put? && Next(c, s, e, s') && s'.used == s.used && (loose ==> s.used == {})
    ensures Hop(c, s, e, s', loose)
  {
    if loose { assert s'.(used := Stamps(e)) == s'; }
  }

  lemma StopOne(b: Key, src: Table, dst: Table, used: Listing, l: Listing, loose: bool)
    requires loose ==> used == {}
    ensures var c := Small();
      Hop(c, Duo(src, dst, false, c.cfg, used, Locking(b, l, {0})), Stop(0), Duo(src, dst, true, c.cfg, used, Locking(b, l, {})), loose)
  {
    var c := Small();
    var s, s' := Duo(src, dst, false, c.cfg, used, Locking(b, l, {0})), Duo(src, dst, true, c.cfg, used, Locking(b, l, {}));
    assert {0} - {0} == {};
    assert s.proxies[0 := s.proxies[0].(stopped := true)] == s'.proxies;
    assert SwitchStep(c, s, Stop(0), s');
    Quiet(c, s, Stop(0), s', loose);
  }

  lemma RelistOne(b: Key, x: Stored, dst: Table, used: Listing, loose: bool)
    requires loose ==> used == {}
    ensures var c, l := Small(), {(x.cas, b)};
      Hop(c, Duo(map[b := x], dst, true, c.cfg, used, Locking(b, l, {})), Relist,
           Duo(map[b := x], dst, true, c.cfg, used, Diffing(b, l, {}, map[], {})), loose)
  {
    OneListed(b, x);
    var c, l := Small(), {(x.cas, b)};
    var s, s' := Duo(map[b := x], dst, true, c.cfg, used, Locking(b, l, {})), Duo(map[b := x], dst, true, c.cfg, used, Diffing(b, l, {}, map[], {}));
    assert s.tables[c.src] == map[b := x];
    assert ListingOf(s.tables[c.src], b) == l;
    assert l - l == {} && KeysOf(l - l) == {} && KeysOf(l) - KeysOf(l) == {};
    assert SwitchStep(c, s, Relist, s');
    Quiet(c, s, Relist, s', loose);
  }

  lemma EndDiffOne(b: Key, src: Table, dst: Table, used: Listing, l: Listing, loose: bool)
    requires loose ==> used == {}
    ensures var c := Small();
      Hop(c, Duo(src, dst, true, c.cfg, used, Diffing(b, l, {}, map[], {})), EndDiff,
           Duo(src, dst, true, c.cfg, used, Switching(b, l, {0})), loose)
  {
    var c := Small();
    var s, s' := Duo(src, dst, true, c.cfg, used, Diffing(b, l, {}, map[], {})), Duo(src, dst, true, c.cfg, used, Switching(b, l, {0}));
    assert s.proxies.Keys == {0};
    assert SwitchStep(c, s, EndDiff, s');
    Quiet(c, s, EndDiff, s', loose);
  }

  lemma SwitchOne(b: Key, src: Table, dst: Table, used: Listing, l: Listing, loose: bool)
    requires loose ==> used == {}
    ensures var c := Small();
      Hop(c, Duo(src, dst, true, c.cfg, used, Switching(b, l, {0})), SetConfig(0),
           Duo(src, dst, true, NewCfg(c, b), used, Switching(b, l, {})), loose)
  {
    var c := Small();
    var s, s' := Duo(src, dst, true, c.cfg, used, Switching(b, l, {0})), Duo(src, dst, true, NewCfg(c, b), used, Switching(b, l, {}));
    assert {0} - {0} == {};
    assert s.proxies[0 := s.proxies[0].(cfg := NewCfg(c, b))] == s'.proxies;
    assert SwitchStep(c, s, SetConfig(0), s');
    Quiet(c, s, SetConfig(0), s', loose);
  }

  lemma EndSwitchOne(b: Key, src: Table, dst: Table, used: Listing, l: Listing, loose: bool)
    requires loose ==> used == {}
    ensures var c := Small();
      Hop(c, Duo(src, dst, true, NewCfg(c, b), used, Switching(b, l, {})), EndSwitch,
           Duo(src, dst, true, NewCfg(c, b), used, Unlocking(b, l, {0})), loose)
  {
    var c := Small();
    var s, s' := Duo(src, dst, true, NewCfg(c, b), used, Switching(b, l, {})), Duo(src, dst, true, NewCfg(c, b), used, Unlocking(b, l, {0}));
    assert s.proxies.Keys == {0};
    assert SwitchStep(c, s, EndSwitch, s');
    Quiet(c, s, EndSwitch, s', loose);
  }

  /** The second copy passes over an item whose version is listed. */
  lemma PassOver(b: Key, x: Stored, y: Stored, used: Listing, loose: bool) returns (states: seq<Cluster>, events: seq<Event>)
    requires loose ==> used == {}
    ensures Steps(Small(), states, events, loose) && events == [Stop(0), Relist, EndDiff]
    ensures states[0] == Duo(map[b := x], map[b := y], false, Small().cfg, used, Locking(b, {(x.cas, b)}, {0}))
    ensures states[3] == Duo(map[b := x], map[b := y], true, Small().cfg, used, Switching(b, {(x.cas, b)}, {0}))
  {
    var c, l := Small(), {(x.cas, b)};
    var src: Table, dst: Table := map[b := x], map[b := y];
    var s0 := Duo(src, dst, false, c.cfg, used, Locking(b, l, {0}));
    var s1 := Duo(src, dst, true, c.cfg, used, Locking(b, l, {}));
    var s2 := Duo(src, dst, true, c.cfg, used, Diffing(b, l, {}, map[], {}));
    var s3 := Duo(src, dst, true, c.cfg, used, Switching(b, l, {0}));
    states, events := [s0, s1, s2, s3], [Stop(0), Relist, EndDiff];
    hide Hop, Duo;
    StopOne(b, src, dst, used, l, loose);
    RelistOne(b, x, dst, used, loose);
    EndDiffOne(b, src, dst, used, l, loose);
  }

  lemma Redirect(b: Key, src: Table, dst: Table, used: Listing, l: Listing, loose: bool) returns (states: seq<Cluster>, events: seq<Event>)
    requires loose ==> used == {}
    ensures Steps(Small(), states, events, loose) && events == [SetConfig(0), EndSwitch]
    ensures states[0] == Duo(src, dst, true, Small().cfg, used, Switching(b, l, {0}))
    ensures states[2] == Duo(src, dst, true, NewCfg(Small(), b), used, Unlocking(b, l, {0}))
  {
    var c := Small();
    var s0 := Duo(src, dst, true, c.cfg, used, Switching(b, l, {0}));
    var s1 := Duo(src, dst, true, NewCfg(c, b), used, Switching(b, l, {}));
    var s2 := Duo(src, dst, true, NewCfg(c, b), used, Unlocking(b, l, {0}));
    states, events := [s0, s1, s2], [SetConfig(0), EndSwitch];
    hide Hop, Duo, NewCfg;
    SwitchOne(b, src, dst, used, l, loose);
    EndSwitchOne(b, src, dst, used, l, loose);
  }

  /** From the lock to the new configuration: an item whose version is listed is not compared, and clients get the new server's. */
  lemma SwitchAway(b: Key, x: Stored, y: Stored, used: Listing, loose: bool) returns (states: seq<Cluster>, events: seq<Event>)
    requires b != [] && (loose ==> used == {})
    ensures Steps(Small(), states, events, loose) && |states| == |events| + 1
    ensures forall i :: 0 <= i < |events| ==> !events[i].Client? && !events[i].Put?
    ensures states[0] == Duo(map[b := x], map[b := y], false, Small().cfg, used, Locking(b, {(x.cas, b)}, {0}))
    ensures View(Small(), states[|events|], b) == Some(y.item)
  {
    var xs, es := PassOver(b, x, y, used, loose);
    var ys, fs := Redirect(b, map[b := x], map[b := y], used, {(x.cas, b)}, loose);
    NewView(b, map[b := x], map[b := y], used, {(x.cas, b)});
    hide Duo, View, NewCfg;
    StepsJoin(Small(), xs, es, ys, fs, loose);
    states, events := xs + ys[1..], es + fs;
  }

  lemma NewView(b: Key, src: Table, dst: Table, used: Listing, l: Listing)
    requires b != [] && b in dst
    ensures View(Small(), Duo(src, dst, true, NewCfg(Small(), b), used, Unlocking(b, l, {0})), b) == Some(dst[b].item)
  {
    SmallRoutes(b);
  }

  lemma NotShown(c: Plan, s: Cluster, m: map<Key, Item>, k: Key)
    requires View(c, s, k) != LookItem(m, k)
    ensures !Shows(c, s, m)
  {
  }

  lemma {:induction false} ReplayJoin(m: map<Key, Item>, es: seq<Event>, fs: seq<Event>)
    requires forall i :: 0 <= i < |fs| ==> !fs[i].Client?
    ensures Replay(m, es + fs) == Replay(m, es)
    decreases |fs|
  {
    if fs == [] {
      assert es + fs == es;
    } else {
      var n := |fs| - 1;
      assert (es + fs)[..|es + fs| - 1] == es + fs[..n];
      ReplayJoin(m, es, fs[..n]);
    }
  }

  lemma ListOne(b: Key, x: Stored, dst: Table, used: Listing, loose: bool)
    requires loose ==> used == {}
    ensures var c := Small();
      Hop(c, Duo(map[b := x], dst, false, c.cfg, used, Listed({})), ListKey(b),
           Duo(map[b := x], dst, false, c.cfg, used, Listed({(x.cas, b)})), loose)
  {
    var c := Small();
    var s, s' := Duo(map[b := x], dst, false, c.cfg, used, Listed({})), Duo(map[b := x], dst, false, c.cfg, used, Listed({(x.cas, b)}));
    assert {} + {(x.cas, b)} == {(x.cas, b)};
    assert CopyStep(c, s, ListKey(b), s');
    Quiet(c, s, ListKey(b), s', loose);
  }

  lemma ChooseOne(b: Key, x: Stored, dst: Table, used: Listing, loose: bool)
    requires loose ==> used == {}
    requires b != []
    ensures var c, l := Small(), {(x.cas, b)};
      Hop(c, Duo(map[b := x], dst, false, c.cfg, used, Listed(l)), Choose(b),
           Duo(map[b := x], dst, false, c.cfg, used, Copying(b, l, {b} - dst.Keys, map[])), loose)
  {
    OneListed(b, x);
    var c, l := Small(), {(x.cas, b)};
    var s, s' := Duo(map[b := x], dst, false, c.cfg, used, Listed(l)), Duo(map[b := x], dst, false, c.cfg, used, Copying(b, l, {b} - dst.Keys, map[]));
    assert (set y | y in l && AtMost(b, y.1)) == l;
    assert CopyStep(c, s, Choose(b), s');
    Quiet(c, s, Choose(b), s', loose);
  }

  lemma FetchOne(b: Key, x: Stored, dst: Table, used: Listing, l: Listing, loose: bool)
    requires loose ==> used == {}
    ensures var c := Small();
      Hop(c, Duo(map[b := x], dst, false, c.cfg, used, Copying(b, l, {b}, map[])), Fetch(b),
           Duo(map[b := x], dst, false, c.cfg, used, Copying(b, l, {}, map[b := x.item])), loose)
  {
    var c := Small();
    var s, s' := Duo(map[b := x], dst, false, c.cfg, used, Copying(b, l, {b}, map[])),
                 Duo(map[b := x], dst, false, c.cfg, used, Copying(b, l, {}, map[b := x.item]));
    assert {b} - {b} == {};
    assert CopyStep(c, s, Fetch(b), s');
    Quiet(c, s, Fetch(b), s', loose);
  }

  lemma PutOne(b: Key, x: Stored, cas: nat, l: Listing)
    ensures var c := Small();
      Hop(c, Duo(map[b := x], map[], false, c.cfg, {}, Copying(b, l, {}, map[b := x.item])), Put(b, cas),
                Duo(map[b := x], map[b := Stored(x.item, cas)], false, c.cfg, {}, Copying(b, l, {}, map[])), true)
  {
    var c := Small();
    var s := Duo(map[b := x], map[], false, c.cfg, {}, Copying(b, l, {}, map[b := x.item]));
    var s' := Duo(map[b := x], map[b := Stored(x.item, cas)], false, c.cfg, {}, Copying(b, l, {}, map[]));
    assert map[b := x.item] - {b} == map[];
    assert s'.tables == s.tables[1 := s.tables[1][b := Stored(x.item, cas)]];
    assert CopyStep(c, s, Put(b, cas), s'.(used := {(cas, b)}));
  }

  lemma EndCopyOne(b: Key, src: Table, dst: Table, used: Listing, l: Listing, loose: bool)
    requires loose ==> used == {}
    ensures var c := Small();
      Hop(c, Duo(src, dst, false, c.cfg, used, Copying(b, l, {}, map[])), EndCopy,
           Duo(src, dst, false, c.cfg, used, Locking(b, l, {0})), loose)
  {
    var c := Small();
    var s, s' := Duo(src, dst, false, c.cfg, used, Copying(b, l, {}, map[])), Duo(src, dst, false, c.cfg, used, Locking(b, l, {0}));
    assert s.proxies.Keys == {0};
    assert CopyStep(c, s, EndCopy, s');
    Quiet(c, s, EndCopy, s', loose);
  }

  lemma SetOne(b: Key, src: Table, dst: Table, item: Item, cas: nat, m: Manager)
    requires b != []
    ensures var c := Small();
      Hop(c, Duo(src, dst, false, c.cfg, {}, m), Client(0, Set(b, item), cas, Done),
                Duo(src[b := Stored(item, cas)], dst, false, c.cfg, {}, m), true)
  {
    SmallRoutes(b);
    var c := Small();
    var s, s' := Duo(src, dst, false, c.cfg, {}, m), Duo(src[b := Stored(item, cas)], dst, false, c.cfg, {}, m);
    assert s'.tables == s.tables[0 := src[b := Stored(item, cas)]];
    assert ClientServed(s, 0, Set(b, item), cas, Done, s'.(used := {(cas, b)}));
  }

  lemma SmallBase(b: Key, src: Table, dst: Table, used: Listing)
    requires src.Keys <= {b} && (forall k :: k in src ==> (src[k].cas, k) in used)
    requires b != []
    ensures Base(Small(), Duo(src, dst, false, Small().cfg, used, Listed({})))
  {
    SmallRoutes(b);
    assert Small().cfg.Values == {0};
    var s := Duo(src, dst, false, Small().cfg, used, Listed({}));
    assert 0 in s.proxies && 0 in s.tables;
  }

  lemma SmallViews(b: Key, src: Table, dst: Table, used: Listing)
    requires b != [] && src.Keys <= {b}
    ensures Shows(Small(), Duo(src, dst, false, Small().cfg, used, Listed({})), map k | k in src :: src[k].item)
  {
    var s := Duo(src, dst, false, Small().cfg, used, Listed({}));
    forall k
      ensures View(Small(), s, k) == LookItem(map j | j in src :: src[j].item, k)
    {
      OwnerIs(Small().cfg, k, []);
    }
  }

  /** Every item that a client stores gets version `v`. */
  ghost predicate AllVersion(events: seq<Event>, v: nat)
  {
    forall i :: 0 <= i < |events| && events[i].Client? ==> events[i].cas == v
  }

  /** An item is stored and copied. */
  lemma Copied(b: Key, x: Item, v: nat, w: nat) returns (states: seq<Cluster>, events: seq<Event>)
    requires b != []
    ensures Steps(Small(), states, events, true)
    ensures events == [Client(0, Set(b, x), v, Done), ListKey(b), Choose(b), Fetch(b), Put(b, w), EndCopy]
    ensures states[0] == Duo(map[], map[], false, Small().cfg, {}, Listed({}))
    ensures states[6] == Duo(map[b := Stored(x, v)], map[b := Stored(x, w)], false, Small().cfg, {}, Locking(b, {(v, b)}, {0}))
  {
    var c, l := Small(), {(v, b)};
    var none: Table, xv: Table, xw: Table := map[], map[b := Stored(x, v)], map[b := Stored(x, w)];
    assert none[b := Stored(x, v)] == xv && {b} - none.Keys == {b};
    var s0 := Duo(none, none, false, c.cfg, {}, Listed({}));
    var s1 := Duo(xv, none, false, c.cfg, {}, Listed({}));
    var s2 := Duo(xv, none, false, c.cfg, {}, Listed(l));
    var s3 := Duo(xv, none, false, c.cfg, {}, Copying(b, l, {b}, map[]));
    var s4 := Duo(xv, none, false, c.cfg, {}, Copying(b, l, {}, map[b := x]));
    var s5 := Duo(xv, xw, false, c.cfg, {}, Copying(b, l, {}, map[]));
    var s6 := Duo(xv, xw, false, c.cfg, {}, Locking(b, l, {0}));
    states := [s0, s1, s2, s3, s4, s5, s6];
    events := [Client(0, Set(b, x), v, Done), ListKey(b), Choose(b), Fetch(b), Put(b, w), EndCopy];
    hide Hop, Duo;
    SetOne(b, none, none, x, v, Listed({}));
    ListOne(b, Stored(x, v), none, {}, true);
    ChooseOne(b, Stored(x, v), none, {}, true);
    FetchOne(b, Stored(x, v), none, {}, l, true);
    PutOne(b, Stored(x, v), w, l);
    EndCopyOne(b, xv, xw, {}, l, true);
  }

  /** And stored anew before the proxies are locked, with the version it had. */
  lemma CopiedThenChanged(b: Key, x: Item, y: Item, v: nat, w: nat) returns (states: seq<Cluster>, events: seq<Event>)
    requires b != []
    ensures Steps(Small(), states, events, true) && |states| == |events| + 1 && Replay(map[], events) == map[b := y]
    ensures AllVersion(events, v)
    ensures states[0] == Duo(map[], map[], false, Small().cfg, {}, Listed({}))
    ensures states[|events|] ==
      Duo(map[b := Stored(y, v)], map[b := Stored(x, w)], false, Small().cfg, {}, Locking(b, {(v, b)}, {0}))
  {
    var c, m := Small(), Locking(b, {(v, b)}, {0});
    var xv: Table, xw: Table, yv: Table := map[b := Stored(x, v)], map[b := Stored(x, w)], map[b := Stored(y, v)];
    assert xv[b := Stored(y, v)] == yv;
    var e := Client(0, Set(b, y), v, Done);
    var xs, es := Copied(b, x, v, w);
    SetOne(b, xv, xw, y, v, m);
    ReplayTwo(b, x, y, v, es + [e]);
    hide Hop, Duo, Replay;
    var ys := [Duo(xv, xw, false, c.cfg, {}, m), Duo(yv, xw, false, c.cfg, {}, m)];
    StepsJoin(c, xs, es, ys, [e], true);
    states, events := xs + ys[1..], es + [e];
  }

  lemma ReplayTwo(b: Key, x: Item, y: Item, v: nat, events: seq<Event>)
    requires |events| == 7 && events[0] == Client(0, Set(b, x), v, Done) && events[6] == Client(0, Set(b, y), v, Done)
    requires forall i :: 1 <= i < 6 ==> !events[i].Client?
    ensures Replay(map[], events) == map[b := y]
  {
    assert events[..1] == [events[0]] && events[..6] == [events[0]] + events[1..6];
    ReplayJoin(map[], [events[0]], events[1..6]);
    assert [events[0]][..0] == [];
    assert Replay(map[], [events[0]]) == map[b := x];
    assert Replay(map[], events[..6]) == map[b := x];
  }

  /** Two items of one key show one version: from a healthy, empty cluster, a change made after the first copy is lost. */
  lemma VersionReuseLosesAWrite(b: Key, x: Item, y: Item, v: nat, w: nat) returns (states: seq<Cluster>, events: seq<Event>)
    requires b != [] && x != y
    ensures Steps(Small(), states, events, true) && Init(Small(), states[0]) && AllVersion(events, v)
    ensures Shows(Small(), states[0], map[]) && !Shows(Small(), states[|events|], Replay(map[], events))
    ensures View(Small(), states[|events|], b) == Some(x) && LookItem(Replay(map[], events), b) == Some(y)
  {
    EmptyInit(b);
    hide Steps, Replay, View, Shows, Base, Init, Duo;
    var xs, es := CopiedThenChanged(b, x, y, v, w);
    var ys, fs := SwitchAway(b, Stored(y, v), Stored(x, w), {}, true);
    StepsJoin(Small(), xs, es, ys, fs, true);
    ReplayJoin(map[], es, fs);
    states, events := xs + ys[1..], es + fs;
    NotShown(Small(), states[|events|], Replay(map[], events), b);
  }

  /** The file of an item: its value and the metadata. */
  function FileSize(i: Item): nat { |i.value| + Storage.META_SIZE }

  /** Two files of 17 bytes, written 256 seconds apart at the same nanosecond, are such items. */
  lemma RewriteIsLost(b: Key, x: Item, y: Item, sec: bv64, nsec: bv64, w: nat)
      returns (v: nat, states: seq<Cluster>, events: seq<Event>)
    requires b != [] && x != y && FileSize(x) == FileSize(y) == 17 && FileVersions.Returns(sec, nsec)
    ensures v == FileVersions.VersionNumber(17, sec, nsec) == FileVersions.VersionNumber(17, FileVersions.Later(sec), nsec)
    ensures Steps(Small(), states, events, true) && Init(Small(), states[0]) && AllVersion(events, v)
    ensures View(Small(), states[|events|], b) == Some(x) && LookItem(Replay(map[], events), b) == Some(y)
  {
    FileVersions.SeventeenBytes(sec, nsec);
    v := FileVersions.VersionNumber(17, sec, nsec);
    hide FileVersions.VersionNumber, FileVersions.Later, FileVersions.Returns, Steps, Init, View, Replay;
    states, events := VersionReuseLosesAWrite(b, x, y, v, w);
  }

  lemma EmptyInit(b: Key)
    requires b != []
    ensures var s := Duo(map[], map[], false, Small().cfg, {}, Listed({})); Init(Small(), s) && Shows(Small(), s, map[])
  {
    var none: Table := map[];
    SmallBase(b, none, none, {});
    SmallViews(b, none, none, {});
  }

  lemma NothingToCopy(b: Key, x: Stored, y: Stored, used: Listing) returns (states: seq<Cluster>, events: seq<Event>)
    requires b != []
    ensures Steps(Small(), states, events, false) && forall i :: 0 <= i < |events| ==> !events[i].Client?
    ensures states[0] == Duo(map[b := x], map[b := y], false, Small().cfg, used, Listed({}))
    ensures states[|events|] == Duo(map[b := x], map[b := y], false, Small().cfg, used, Locking(b, {(x.cas, b)}, {0}))
  {
    var c, l := Small(), {(x.cas, b)};
    var src: Table, dst: Table := map[b := x], map[b := y];
    var s0 := Duo(src, dst, false, c.cfg, used, Listed({}));
    var s1 := Duo(src, dst, false, c.cfg, used, Listed(l));
    var s2 := Duo(src, dst, false, c.cfg, used, Copying(b, l, {}, map[]));
    var s3 := Duo(src, dst, false, c.cfg, used, Locking(b, l, {0}));
    states, events := [s0, s1, s2, s3], [ListKey(b), Choose(b), EndCopy];
    hide Hop, Duo;
    assert {b} - dst.Keys == {};
    ListOne(b, x, dst, used, false);
    ChooseOne(b, x, dst, used, false);
    EndCopyOne(b, src, dst, used, l, false);
  }

  /** The new server holds an item: the first copy skips its key, and clients get the old item after the switch. */
  lemma LeftoverOnNewServer(b: Key, x: Stored, y: Stored) returns (states: seq<Cluster>, events: seq<Event>)
    requires b != [] && x.item != y.item
    ensures Steps(Small(), states, events, false) && UsedInit(Small(), states[0]) && states[0].tables[1] == map[b := y]
    ensures forall i :: 0 <= i < |events| ==> !events[i].Client?
    ensures Shows(Small(), states[0], map[b := x.item]) && !Shows(Small(), states[|events|], map[b := x.item])
    ensures View(Small(), states[|events|], b) == Some(y.item)
  {
    var src: Table := map[b := x];
    var used := {(x.cas, b), (y.cas, b)};
    SmallBase(b, src, map[b := y], used);
    SmallViews(b, src, map[b := y], used);
    assert (map k | k in src :: src[k].item) == map[b := x.item];
    var xs, es := NothingToCopy(b, x, y, used);
    var ys, fs := SwitchAway(b, x, y, used, false);
    StepsJoin(Small(), xs, es, ys, fs, false);
    states, events := xs + ys[1..], es + fs;
    assert LookItem(map[b := x.item], b) == Some(x.item);
  }
}
