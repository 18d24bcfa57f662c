/** Range routing: which server owns a key under a configuration. */
module Routing {
  import opened Keys
  import RbModel
  import StServer

  /** The first key of each range, with the server that holds the range. */
  type Config = map<Key, nat>

  /** `s` is the greatest range start not above `k`. */
  ghost predicate IsFloor(cfg: Config, k: Key, s: Key)
  {
    s in cfg && AtMost(s, k) && forall t :: t in cfg && AtMost(t, k) ==> AtMost(t, s)
  }

  ghost predicate Covered(cfg: Config, k: Key)
  {
    exists s :: s in cfg && AtMost(s, k)
  }

  lemma AtMostTrans(a: Key, b: Key, c: Key)
    requires AtMost(a, b) && AtMost(b, c)
    ensures AtMost(a, c)
  {
    if a != b && b != c { BelowTransitive(a, b, c); }
  }

  lemma {:induction false} FloorAmong(cfg: Config, k: Key, d: set<Key>) returns (s: Key)
    requires d <= cfg.Keys && (forall t :: t in d ==> AtMost(t, k)) && d != {}
    ensures s in d && forall t :: t in d ==> AtMost(t, s)
    decreases |d|
  {
    s :| s in d;
    var rest := d - {s};
    if rest != {} {
      var r := FloorAmong(cfg, k, rest);
      BelowTotal(r, s);
      if Below(s, r) {
        s := r;
      } else {
        forall t | t in d
          ensures AtMost(t, s)
        {
          if t != s { AtMostTrans(t, r, s); }
        }
      }
    }
  }

  lemma FloorExists(cfg: Config, k: Key)
    requires Covered(cfg, k)
    ensures exists s :: IsFloor(cfg, k, s)
  {
    var d := set t | t in cfg && AtMost(t, k);
    var s0 :| s0 in cfg && AtMost(s0, k);
    assert s0 in d;
    var s := FloorAmong(cfg, k, d);
    assert IsFloor(cfg, k, s);
  }

  lemma FloorUnique(cfg: Config, k: Key, s: Key, t: Key)
    requires IsFloor(cfg, k, s) && IsFloor(cfg, k, t)
    ensures s == t
  {
    BelowTotal(s, t);
  }

  /** Every key has an owner, because one range starts with the empty key. */
  ghost predicate Total(cfg: Config) { [] in cfg }

  ghost function Start(cfg: Config, k: Key): (s: Key)
    requires Total(cfg)
    ensures IsFloor(cfg, k, s)
  {
    assert Covered(cfg, k) by { assert [] in cfg && AtMost([], k); }
    FloorExists(cfg, k);
    var s :| IsFloor(cfg, k, s);
    s
  }

  ghost function Owner(cfg: Config, k: Key): nat
    requires Total(cfg)
  {
    cfg[Start(cfg, k)]
  }

  lemma OwnerIs(cfg: Config, k: Key, s: Key)
    requires Total(cfg) && IsFloor(cfg, k, s)
    ensures Start(cfg, k) == s && Owner(cfg, k) == cfg[s]
  {
    FloorUnique(cfg, k, s, Start(cfg, k));
  }

  /** Adding a range start inside a range moves exactly the upper part of that range. */
  lemma SplitRoutes(cfg: Config, b: Key, srv: nat, k: Key)
    requires Total(cfg) && b !in cfg
    ensures var moved := Start(cfg, k) == Start(cfg, b) && AtMost(b, k);
      Owner(cfg[b := srv], k) == if moved then srv else Owner(cfg, k)
  {
    var cfg', s, sb := cfg[b := srv], Start(cfg, k), Start(cfg, b);
    BelowTotal(b, k);
    if AtMost(b, k) {
      BelowTotal(b, s);
      AtMostTrans(sb, b, k);
      if s == sb {
        assert AtMost(s, b);
        forall t | t in cfg' && AtMost(t, k)
          ensures AtMost(t, b)
        {
          if t != b { AtMostTrans(t, s, b); }
        }
        OwnerIs(cfg', k, b);
      } else {
        assert AtMost(sb, s) && Below(sb, s);
        if Below(s, b) {
          assert AtMost(s, sb);
          BelowTotal(s, sb);
          assert false;
        }
        OwnerIs(cfg', k, s);
      }
    } else {
      OwnerIs(cfg', k, s);
    }
  }

  /** The proxy's tree lookup computes this owner. */
  lemma LookupIsOwner(servers: seq<RbModel.RbNode>, cfg: Config, k: Key)
    requires StServer.SortedKeys(servers) && Total(cfg)
    requires forall s :: s in cfg <==> StServer.HasKey(servers, s)
    ensures var r := StServer.ScanFloor(servers, k); r != null && r.key in cfg && Owner(cfg, k) == cfg[r.key]
  {
    StServer.ScanFloorIsGreatest(servers, k);
    var r := StServer.ScanFloor(servers, k);
    assert StServer.HasKey(servers, []);
    var i :| 0 <= i < |servers| && servers[i] == r;
    assert StServer.HasKey(servers, r.key);
    forall t | t in cfg && AtMost(t, k)
      ensures AtMost(t, r.key)
    {
      var j :| 0 <= j < |servers| && servers[j].key == t;
    }
    OwnerIs(cfg, k, r.key);
  }
}
