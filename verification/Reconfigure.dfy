/** Replacing the configuration of a running proxy. */
module Reconfigure {
  import opened Keys
  import opened Text
  import opened Config
  import Routing

  // ---- what a test run misses ----

  lemma DistinctStep(o: Outcome, e: Entry, line: nat)
    requires o.Loaded?
    ensures var t, r := AddEntry(o, e, line, true), AddEntry(o, e, line, false);
      && (t.Loaded? && Distinct(t) ==> Distinct(o) && r == t)
      && (Distinct(o) && r.Loaded? ==> r == t && Distinct(t))
  {
    var t := AddEntry(o, e, line, true);
    if t.Loaded? && Distinct(t) {
      forall i, j | 0 <= i < j < |o.proxies|
        ensures o.proxies[i] != o.proxies[j]
      {
        assert t.proxies[i] != t.proxies[j];
      }
      forall i, j | 0 <= i < j < |o.servers|
        ensures o.servers[i].key != o.servers[j].key
      {
        assert t.servers[i].key != t.servers[j].key;
      }
      if e.ProxyEntry? {
        forall i | 0 <= i < |o.proxies|
          ensures o.proxies[i] != e.proxy
        {
          assert t.proxies[i] != t.proxies[|o.proxies|];
        }
      }
      if e.ServerEntry? {
        forall i | 0 <= i < |o.servers|
          ensures o.servers[i].key != e.server.key
        {
          assert t.servers[i].key != t.servers[|o.servers|].key;
        }
      }
    }
  }

  lemma {:induction false} LinesIff(lines: seq<Line>, n: nat)
    requires n <= |lines|
    ensures var t, r := ReadLines(lines, n, true), ReadLines(lines, n, false);
      && (r.Loaded? <==> t.Loaded? && Distinct(t)) && (r.Loaded? ==> r == t)
  {
    if n > 0 {
      LinesIff(lines, n - 1);
      hide AddEntry, ReadWords, Distinct, Pieces;
      var o, e := ReadLines(lines, n - 1, true), ReadWords(Pieces(lines[n - 1], ByWord, MAX_WORDS));
      if o.Loaded? { DistinctStep(o, e, n); }
    } else {
      assert ReadLines(lines, 0, true) == Loaded([], []);
    }
  }

  /** The real load succeeds exactly when the test load does and no proxy or start key is repeated; then they agree. */
  lemma TestMissesRepeats(text: Line)
    ensures var t, r := Read(text, true), Read(text, false);
      && (r.Loaded? <==> t.Loaded? && Distinct(t)) && (r.Loaded? ==> r == t)
  {
    var lines := Pieces(text, ByLine, MAX_LINES);
    LinesIff(lines, |lines|);
    hide Distinct, ReadLines, Pieces;
  }

  // ---- the command ----

  /** What a string function sees of a buffer that is zero-terminated behind the value. */
  function Visible(value: Line): (r: Line)
    ensures r <= value && NoZero(r) && (|r| < |value| ==> value[|r|] == 0)
  {
    if value == [] || value[0] == 0 then [] else [value[0]] + Visible(value[1..])
  }

  datatype Reply = InvalidArguments | NotStored(fault: Fault, line: nat) | NotStopped | Installed | Fatal

  class Holder {
    var cfg: Outcome

    constructor (cfg: Outcome)
      ensures this.cfg == cfg
    {
      this.cfg := cfg;
    }

    /** Loads a value for real or for a test, from a copy. */
    method LoadCopy(value: Line, testing: bool) returns (o: Outcome)
      ensures o == Read(Visible(value), testing)
    {
      var n := |value|;
      var buf := new Byte[n + 1](i => if 0 <= i < n then value[i] else 0);
      assert buf[..] == value + [0];
      VisibleText(value);
      o := Load(buf, Visible(value), testing);
    }

    /** Tests the new configuration, then drops the old one and loads it. */
    method SetConfig(extras: Line, key: Line, value: Line, stopped: bool) returns (r: Reply)
      modifies this
      ensures r.InvalidArguments? <==> extras != [] || key != [] || value == []
      ensures r.InvalidArguments? || (
        var t := Read(Visible(value), true);
        && (r.NotStored? <==> t.Broken?)
        && (r.NotStopped? <==> t.Loaded? && !stopped)
        && (r.Installed? <==> t.Loaded? && stopped && Distinct(t))
        && (r.Fatal? <==> t.Loaded? && stopped && !Distinct(t))
        && (r.Installed? ==> cfg == t))
      ensures !r.Installed? && !r.Fatal? ==> cfg == old(cfg)
    {
      if extras != [] || key != [] || value == [] {
        return InvalidArguments;
      }
      TestMissesRepeats(Visible(value));
      hide Distinct;
      var o := LoadCopy(value, true);
      if o.Broken? {
        return NotStored(o.fault, o.line);
      }
      if !stopped {
        return NotStopped;
      }
      cfg := Loaded([], []);
      o := LoadCopy(value, false);
      if o.Broken? {
        return Fatal;
      }
      cfg := o;
      r := Installed;
    }
  }

  lemma VisibleText(value: Line)
    ensures TextAt(value + [0], 0, Visible(value))
  {
    var v := Visible(value);
    assert (value + [0])[0..|v|] == v;
  }

  // ---- the configuration of a split ----

  ghost predicate DistinctKeys(ss: seq<Server>)
  {
    forall i, j :: 0 <= i < j < |ss| ==> ss[i].key != ss[j].key
  }

  /** The ranges that servers stand for, when a server is known by `id`. */
  ghost function Starts(ss: seq<Server>, id: Server -> nat): Routing.Config
    requires DistinctKeys(ss)
  {
    map i | 0 <= i < |ss| :: ss[i].key := id(ss[i])
  }

  ghost function With(ss: seq<Server>, k: nat, s: Server): seq<Server>
    requires k <= |ss|
  {
    ss[..k] + [s] + ss[k..]
  }

  lemma WithAt(ss: seq<Server>, k: nat, s: Server, i: nat)
    requires k <= |ss| && i < |ss|
    ensures |With(ss, k, s)| == |ss| + 1 && With(ss, k, s)[k] == s && With(ss, k, s)[if i < k then i else i + 1] == ss[i]
  {
  }

  /** The place in the old list. */
  function Before(i: nat, k: nat): int { if i < k then i else i - 1 }

  lemma WithDistinct(ss: seq<Server>, k: nat, s: Server)
    requires k <= |ss| && DistinctKeys(ss)
    ensures DistinctKeys(With(ss, k, s)) <==> forall i :: 0 <= i < |ss| ==> ss[i].key != s.key
  {
    var all := With(ss, k, s);
    if DistinctKeys(all) {
      forall i | 0 <= i < |ss|
        ensures ss[i].key != s.key
      {
        WithAt(ss, k, s, i);
        assert all[k].key != all[if i < k then i else i + 1].key;
      }
    } else {
      var i, j :| 0 <= i < j < |all| && all[i].key == all[j].key;
      if i != k { WithAt(ss, k, s, Before(i, k)); }
      if j != k { WithAt(ss, k, s, Before(j, k)); }
    }
  }

  lemma StartsAt(ss: seq<Server>, id: Server -> nat, i: nat)
    requires DistinctKeys(ss) && i < |ss|
    ensures ss[i].key in Starts(ss, id) && Starts(ss, id)[ss[i].key] == id(ss[i])
  {
  }

  lemma StartsFrom(ss: seq<Server>, id: Server -> nat, x: Key) returns (i: nat)
    requires DistinctKeys(ss) && x in Starts(ss, id)
    ensures i < |ss| && ss[i].key == x
  {
    i :| i < |ss| && ss[i].key == x;
  }

  lemma WithStarts(ss: seq<Server>, k: nat, s: Server, id: Server -> nat)
    requires k <= |ss| && DistinctKeys(ss) && DistinctKeys(With(ss, k, s))
    ensures Starts(With(ss, k, s), id) == Starts(ss, id)[s.key := id(s)]
  {
    WithDistinct(ss, k, s);
    hide Starts, With, DistinctKeys;
    var all, m, m' := With(ss, k, s), Starts(ss, id), Starts(With(ss, k, s), id);
    assert |all| == |ss| + 1 && all[k] == s by { WithLast(ss, k, s); }
    forall x | x in m'
      ensures x in m[s.key := id(s)] && m'[x] == m[s.key := id(s)][x]
    {
      var i := StartsFrom(all, id, x);
      StartsAt(all, id, i);
      if i != k {
        WithAt(ss, k, s, Before(i, k));
        StartsAt(ss, id, Before(i, k));
      }
    }
    StartsAt(all, id, k);
    forall x | x in m
      ensures x in m'
    {
      var i := StartsFrom(ss, id, x);
      WithAt(ss, k, s, i);
      StartsAt(all, id, if i < k then i else i + 1);
    }
  }

  lemma WithLast(ss: seq<Server>, k: nat, s: Server)
    requires k <= |ss|
    ensures |With(ss, k, s)| == |ss| + 1 && With(ss, k, s)[k] == s
  {
  }

  /** The text of a configuration with one server more passes the test; it is installed unless that server starts where one does. */
  lemma SplitInstalls(cfg: Outcome, k: nat, s: Server, created: Line, hostname: Line, id: Server -> nat)
    requires GoodConfig(cfg, false) && k <= |cfg.servers| && GoodServer(s)
    requires AllPiece(created, ByLine) && AllPiece(hostname, ByLine) && 3 + |cfg.proxies| + |cfg.servers| < MAX_LINES
    ensures var new' := cfg.(servers := With(cfg.servers, k, s)); var text := Printed(new', created, hostname);
      && Read(text, true) == new'
      && (s.key !in Starts(cfg.servers, id) ==>
            && Read(text, false) == new'
            && Starts(new'.servers, id) == Starts(cfg.servers, id)[s.key := id(s)])
      && (s.key in Starts(cfg.servers, id) ==> Read(text, false).Broken?)
  {
    var now := cfg.(servers := With(cfg.servers, k, s));
    var text := Printed(now, created, hostname);
    WithDistinct(cfg.servers, k, s);
    WithGood(cfg, k, s);
    ReadInvertsPrint(now, created, hostname, true);
    TestMissesRepeats(text);
    hide Printed, Read, With;
    assert Distinct(now) <==> DistinctKeys(now.servers);
    if s.key !in Starts(cfg.servers, id) {
      forall i | 0 <= i < |cfg.servers|
        ensures cfg.servers[i].key != s.key
      {
        assert cfg.servers[i].key in Starts(cfg.servers, id);
      }
      WithStarts(cfg.servers, k, s, id);
    }
  }

  lemma WithGood(cfg: Outcome, k: nat, s: Server)
    requires GoodEntries(cfg) && k <= |cfg.servers| && GoodServer(s)
    ensures GoodEntries(cfg.(servers := With(cfg.servers, k, s)))
    ensures |With(cfg.servers, k, s)| == |cfg.servers| + 1
  {
    hide GoodServer, GoodProxy;
  }
}
