/** A batch of requests: where each goes, in what rank, and how far a batch gets. */
module Batch {
  import opened Keys
  import opened Frames

  const MAX_BATCH_SERVERS := 8

  /** Who answers a request: the proxy itself or a storage server. */
  datatype Dest = Local | Remote(srv: nat)

  /** The key a request names; empty when the frame is too short to hold it. */
  function KeyOf(f: Bytes): Key
    requires HEADER_SIZE <= |f|
  {
    var from := HEADER_SIZE + f[4] as nat;
    if from + KeyLength(f) <= |f| then f[from..from + KeyLength(f)] else []
  }

  /** No-ops and requests flagged for the proxy stay; the others go by their key. */
  function DestOf(route: Key -> nat, f: Bytes): Dest
    requires HEADER_SIZE <= |f|
  {
    if Opcode(f) == NOOP || Reserved(f) / 2 % 2 == 1 then Local else Remote(route(KeyOf(f)))
  }

  // ---- counting along a batch ----

  /** How many of the first `n` requests go to `d`. */
  ghost function Count(ds: seq<Dest>, n: nat, d: Dest): nat
    requires n <= |ds|
  {
    if n == 0 then 0 else Count(ds, n - 1, d) + if ds[n - 1] == d then 1 else 0
  }

  /** The first `n` requests that go to `d`, in order. */
  ghost function Pick(fs: seq<Bytes>, ds: seq<Dest>, n: nat, d: Dest): (r: seq<Bytes>)
    requires n <= |ds| == |fs|
    ensures |r| == Count(ds, n, d)
  {
    if n == 0 then [] else Pick(fs, ds, n - 1, d) + if ds[n - 1] == d then [fs[n - 1]] else []
  }

  /** The bytes of those requests. */
  ghost function Queued(fs: seq<Bytes>, ds: seq<Dest>, n: nat, d: Dest): Bytes
    requires n <= |ds| == |fs|
  {
    if n == 0 then [] else Queued(fs, ds, n - 1, d) + if ds[n - 1] == d then fs[n - 1] else []
  }

  lemma {:induction false} QueuedIsPick(fs: seq<Bytes>, ds: seq<Dest>, n: nat, d: Dest)
    requires n <= |ds| == |fs|
    ensures Queued(fs, ds, n, d) == Concat(Pick(fs, ds, n, d))
  {
    if n > 0 {
      QueuedIsPick(fs, ds, n - 1, d);
      if ds[n - 1] == d {
        ConcatSnoc(Pick(fs, ds, n - 1, d), fs[n - 1]);
      } else {
        assert Pick(fs, ds, n, d) == Pick(fs, ds, n - 1, d);
      }
    }
  }

  /** The distinct servers of the first `n` requests, in the order of their first request. */
  ghost function Touched(ds: seq<Dest>, n: nat): seq<nat>
    requires n <= |ds|
  {
    if n == 0 then []
    else
      var before, d := Touched(ds, n - 1), ds[n - 1];
      if d.Remote? && d.srv !in before then before + [d.srv] else before
  }

  lemma {:induction false} TouchedIffCounted(ds: seq<Dest>, n: nat, s: nat)
    requires n <= |ds|
    ensures s in Touched(ds, n) <==> Count(ds, n, Remote(s)) > 0
  {
    if n > 0 { TouchedIffCounted(ds, n - 1, s); }
  }

  ghost predicate NoRepeat(servers: seq<nat>)
  {
    forall i, j :: 0 <= i < j < |servers| ==> servers[i] != servers[j]
  }

  lemma {:induction false} TouchedNoRepeat(ds: seq<Dest>, n: nat)
    requires n <= |ds|
    ensures NoRepeat(Touched(ds, n))
  {
    if n > 0 { TouchedNoRepeat(ds, n - 1); }
  }

  lemma {:induction false} CountGrows(ds: seq<Dest>, n: nat, m: nat, d: Dest)
    requires n <= m <= |ds|
    ensures Count(ds, n, d) <= Count(ds, m, d)
    ensures n < m && ds[n] == d ==> Count(ds, n, d) < Count(ds, m, d)
    decreases m
  {
    if n < m { CountGrows(ds, n, m - 1, d); }
  }

  // ---- frames one after another ----

  /** The bytes of the first `n` frames. */
  ghost function Joined(fs: seq<Bytes>, n: nat): Bytes
    requires n <= |fs|
  {
    if n == 0 then [] else Joined(fs, n - 1) + fs[n - 1]
  }

  /** The bytes of the frames from number `n` on. */
  ghost function Tail(fs: seq<Bytes>, n: nat): Bytes
    requires n <= |fs|
    decreases |fs| - n
  {
    if n == |fs| then [] else fs[n] + Tail(fs, n + 1)
  }

  lemma {:induction false} TailIsConcat(fs: seq<Bytes>, n: nat)
    requires n <= |fs|
    ensures Tail(fs, n) == Concat(fs[n..])
    decreases |fs| - n
  {
    if n < |fs| {
      TailIsConcat(fs, n + 1);
      assert fs[n..][1..] == fs[n + 1..];
    }
  }

  lemma {:induction false} PickAtRank(fs: seq<Bytes>, ds: seq<Dest>, m: nat, i: nat)
    requires i < m <= |ds| == |fs|
    ensures Count(ds, i, ds[i]) < Count(ds, m, ds[i])
    ensures Pick(fs, ds, m, ds[i])[Count(ds, i, ds[i])] == fs[i]
    decreases m
  {
    CountGrows(ds, i, m, ds[i]);
    if i < m - 1 { PickAtRank(fs, ds, m - 1, i); }
  }

  // ---- how far a batch gets ----

  /** How many requests of a batch are counted: up to the one that touches the eighth server. */
  ghost function Counted(ds: seq<Dest>, n: nat): (r: nat)
    requires n <= |ds|
    ensures n <= r <= |ds|
    decreases |ds| - n
  {
    if n == |ds| || n >= MAX_QUIET_REQUESTS then n
    else if |Touched(ds, n + 1)| >= MAX_BATCH_SERVERS then n
    else Counted(ds, n + 1)
  }

  /** The batch stops because of its servers: the request that touches the eighth is sent but not counted. */
  ghost predicate TooManyServers(ds: seq<Dest>)
  {
    Counted(ds, 0) < |ds| && Counted(ds, 0) < MAX_QUIET_REQUESTS
  }

  /** How many requests are sent on. */
  ghost function SentOn(ds: seq<Dest>): (r: nat)
    ensures Counted(ds, 0) <= r <= |ds|
  {
    Counted(ds, 0) + if TooManyServers(ds) then 1 else 0
  }

  lemma CountedNext(ds: seq<Dest>, n: nat)
    requires n < |ds| && n < MAX_QUIET_REQUESTS && |Touched(ds, n + 1)| < MAX_BATCH_SERVERS
    ensures Counted(ds, n) == Counted(ds, n + 1)
  {
  }

  lemma CountedStop(ds: seq<Dest>, n: nat, sent: nat)
    requires n <= |ds| && Counted(ds, 0) == Counted(ds, n)
    requires if n == |ds| || n >= MAX_QUIET_REQUESTS then sent == n
             else sent == n + 1 && |Touched(ds, sent)| >= MAX_BATCH_SERVERS
    ensures Counted(ds, 0) == n && SentOn(ds) == sent
  {
  }

  lemma {:induction false} CountedBounds(ds: seq<Dest>, n: nat)
    requires n <= |ds| && |Touched(ds, n)| < MAX_BATCH_SERVERS
    ensures var r := Counted(ds, n);
      && |Touched(ds, r)| < MAX_BATCH_SERVERS
      && (r < |ds| && r < MAX_QUIET_REQUESTS ==> |Touched(ds, r + 1)| >= MAX_BATCH_SERVERS)
    decreases |ds| - n
  {
    if n < |ds| && n < MAX_QUIET_REQUESTS && |Touched(ds, n + 1)| < MAX_BATCH_SERVERS { CountedBounds(ds, n + 1); }
  }

  lemma {:induction false} TouchedFew(ds: seq<Dest>, n: nat)
    requires n <= |ds|
    ensures |Touched(ds, n)| <= n
  {
    if n > 0 { TouchedFew(ds, n - 1); }
  }

  /** A batch gets past seven requests, or through: some request is always counted. */
  lemma {:induction false} CountedSome(ds: seq<Dest>, n: nat)
    requires n <= |ds| && n < MAX_BATCH_SERVERS
    ensures Counted(ds, n) == |ds| || Counted(ds, n) >= MAX_BATCH_SERVERS - 1
    decreases MAX_BATCH_SERVERS - n
  {
    if n < |ds| && n + 1 < MAX_BATCH_SERVERS {
      TouchedFew(ds, n + 1);
      CountedSome(ds, n + 1);
    }
  }

  lemma {:induction false} TouchedGrows(ds: seq<Dest>, n: nat, m: nat)
    requires n <= m <= |ds|
    ensures |Touched(ds, n)| <= |Touched(ds, m)|
    decreases m
  {
    if n < m { TouchedGrows(ds, n, m - 1); }
  }

  /** Requests are left uncounted for their servers exactly when the batch, as far as the table goes, touches eight. */
  lemma TooManyIff(ds: seq<Dest>)
    ensures TooManyServers(ds) <==> |Touched(ds, Min(|ds|, MAX_QUIET_REQUESTS))| >= MAX_BATCH_SERVERS
  {
    var n, all := Counted(ds, 0), Min(|ds|, MAX_QUIET_REQUESTS);
    CountedBounds(ds, 0);
    CountedCapped(ds, 0);
    if TooManyServers(ds) {
      TouchedGrows(ds, n + 1, all);
    } else {
      TouchedGrows(ds, all, n);
    }
  }

  lemma {:induction false} CountedCapped(ds: seq<Dest>, n: nat)
    requires n <= |ds| && n <= MAX_QUIET_REQUESTS
    ensures Counted(ds, n) <= MAX_QUIET_REQUESTS
    decreases |ds| - n
  {
    if n < |ds| && n < MAX_QUIET_REQUESTS && |Touched(ds, n + 1)| < MAX_BATCH_SERVERS { CountedCapped(ds, n + 1); }
  }

  /** A batch that begins with one request to each of eight servers is such a batch: seven are counted. */
  lemma EightServers(ds: seq<Dest>)
    requires MAX_BATCH_SERVERS <= |ds| && (forall i :: 0 <= i < MAX_BATCH_SERVERS ==> ds[i].Remote?)
    requires forall i, j :: 0 <= i < j < MAX_BATCH_SERVERS ==> ds[i] != ds[j]
    ensures TooManyServers(ds) && Counted(ds, 0) == MAX_BATCH_SERVERS - 1
  {
    AllTouched(ds, MAX_BATCH_SERVERS);
    CountedBounds(ds, 0);
    CountedSome(ds, 0);
    assert MAX_QUIET_REQUESTS > MAX_BATCH_SERVERS;
    if Counted(ds, 0) >= MAX_BATCH_SERVERS { TouchedGrows(ds, MAX_BATCH_SERVERS, Counted(ds, 0)); }
  }

  lemma {:induction false} AllTouched(ds: seq<Dest>, n: nat)
    requires n <= |ds| && forall i :: 0 <= i < n ==> ds[i].Remote?
    requires forall i, j :: 0 <= i < j < n ==> ds[i] != ds[j]
    ensures |Touched(ds, n)| == n && forall s :: s in Touched(ds, n) ==> Remote(s) in ds[..n]
  {
    if n > 0 {
      AllTouched(ds, n - 1);
      assert ds[..n] == ds[..n - 1] + [ds[n - 1]];
    }
  }

  /** The request that touches the eighth server is that server's first. */
  lemma EighthIsNew(ds: seq<Dest>)
    requires TooManyServers(ds)
    ensures var n := Counted(ds, 0);
      ds[n].Remote? && Count(ds, n, ds[n]) == 0 && Count(ds, n + 1, ds[n]) == 1
  {
    var n := Counted(ds, 0);
    CountedBounds(ds, 0);
    if ds[n].Remote? { TouchedIffCounted(ds, n, ds[n].srv); }
  }

  // ---- what the buffers hold, by place ----

  ghost function Get<K>(m: map<K, Bytes>, k: K): Bytes { if k in m then m[k] else [] }

  ghost function Num(m: map<nat, nat>, s: nat): nat { if s in m then m[s] else 0 }

  ghost function SetOf(servers: seq<nat>): set<nat> { set s | s in servers }

  lemma SetBounds(servers: seq<nat>)
    ensures SetOf(servers[..0]) == {} && servers[..|servers|] == servers
  {
  }

  lemma SetStep(servers: seq<nat>, i: nat)
    requires NoRepeat(servers) && i < |servers|
    ensures SetOf(servers[..i + 1]) == SetOf(servers[..i]) + {servers[i]}
    ensures servers[i] !in SetOf(servers[..i]) && servers[i] in SetOf(servers)
  {
    assert servers[..i + 1] == servers[..i] + [servers[i]];
  }
}
