/** What any schedule of events does to an exchange: what is sent, when it turns to reading, and how it ends. */
module Schedules {
  import opened Keys
  import opened Frames
  import opened Courses
  import opened Backend

  // ---- the events of one server ----

  /** The events that a server has had, and those that the first `m` reports of a round add. */
  ghost function OwnIn(evs: seq<Outcome>, ready: seq<(nat, Outcome)>, m: nat, i: nat): seq<Outcome>
    requires m <= |ready|
  {
    if m == 0 then evs
    else
      var before := OwnIn(evs, ready, m - 1, i);
      if ready[m - 1].0 == i then before + [ready[m - 1].1] else before
  }

  /** All events that server `i` has in the first `r` rounds, in order. */
  ghost function Own(schedule: seq<seq<(nat, Outcome)>>, r: nat, i: nat): seq<Outcome>
    requires r <= |schedule|
  {
    if r == 0 then [] else OwnIn(Own(schedule, r - 1, i), schedule[r - 1], |schedule[r - 1]|, i)
  }

  lemma {:induction false} FoldPrefix(j: Job, c: Course, evs: seq<Outcome>, ev: Outcome, n: nat)
    requires n <= |evs|
    ensures Fold(j, c, evs + [ev], n) == Fold(j, c, evs, n)
  {
    hide Next;
    if n > 0 { FoldPrefix(j, c, evs, ev, n - 1); }
  }

  lemma {:induction false} RoundIsFold(j: Job, c: Course, evs: seq<Outcome>, ready: seq<(nat, Outcome)>, m: nat, i: nat)
    requires m <= |ready|
    ensures var own := OwnIn(evs, ready, m, i);
      InRound(j, Fold(j, c, evs, |evs|), ready, m, i) == Fold(j, c, own, |own|)
  {
    hide Next;
    if m > 0 {
      RoundIsFold(j, c, evs, ready, m - 1, i);
      var before, ev := OwnIn(evs, ready, m - 1, i), ready[m - 1].1;
      FoldPrefix(j, c, before, ev, |before|);
    }
  }

  /** An exchange takes the course that its own events give it, whatever the others do and however the rounds are cut. */
  lemma {:induction false} AfterIsFold(j: Job, c: Course, schedule: seq<seq<(nat, Outcome)>>, r: nat, i: nat)
    requires r <= |schedule|
    ensures var own := Own(schedule, r, i); After(j, c, schedule, r, i) == Fold(j, c, own, |own|)
  {
    hide InRound;
    if r > 0 {
      AfterIsFold(j, c, schedule, r - 1, i);
      var own := Own(schedule, r - 1, i);
      RoundIsFold(j, c, own, schedule[r - 1], |schedule[r - 1]|, i);
    }
  }

  // ---- one event ----

  /** It still has to connect or to send. */
  predicate Sending(on: Callback) { on.OnConnected? || on.OnWritable? }

  /** How many bytes a send took. */
  function TookOne(w: SendResult): nat { if w.Sent? then w.n else 0 }

  /** The event brings what its callback takes for a fault. */
  predicate Faulty(on: Callback, ev: Outcome)
  {
    match on
    case Nothing => false
    case OnConnected => !ev.connected || ev.w == SendFailed || ev.w == Sent(0)
    case OnWritable => ev.w == SendFailed || ev.w == Sent(0)
    case OnReadable => ev.failed
  }

  /** A fault ends the exchange and counts no more answers; nothing else does before the last answer or a broken one. */
  lemma FaultEnds(j: Job, c: Course, ev: Outcome)
    requires !c.on.Nothing?
    ensures var next := Next(j, c, ev);
      && (Faulty(c.on, ev) ==> next.on.Nothing? && next.ok == c.ok)
      && (!Faulty(c.on, ev) ==>
            (next.on.Nothing? <==> c.on.OnReadable? && Ends(j, Seen(j, Min(c.heard + ev.arrived, |j.stream|)))))
  {
    hide Ends, Seen, Concat;
  }

  /** A send that takes `n` bytes moves on by `n`, or to the end of the batch; only there the exchange turns to reading. */
  lemma SendMoves(j: Job, c: Course, ev: Outcome)
    requires Sending(c.on) && !Faulty(c.on, ev) && c.sent < |Concat(j.batch)|
    ensures var next, now := Next(j, c, ev), c.sent + TookOne(ev.w);
      && next.sent == Min(now, |Concat(j.batch)|) && next.heard == c.heard && next.ok == c.ok
      && next.on == if now < |Concat(j.batch)| then OnWritable else OnReadable
  {
    hide Concat;
  }

  /** How an exchange begins: at once on a live connection, else by connecting, unless it is too early or there is no socket. */
  lemma BeginWhen(j: Job, had: nat, sd: int, start: Start)
    requires Concat(j.batch) != []
    ensures var c, sends := Begin(j, had, sd, start), start.w != SendFailed && start.w != Sent(0);
      && (c.on.OnConnected? <==> sd < 0 && start.mayRetry && start.fd >= 0)
      && (c.on.Nothing? <==> if sd >= 0 then !sends else !start.mayRetry || start.fd < 0)
      && (sd >= 0 && sends ==>
            && c.sent == Min(TookOne(start.w), |Concat(j.batch)|)
            && c.on == if TookOne(start.w) < |Concat(j.batch)| then OnWritable else OnReadable)
      && (c.on.OnConnected? ==> c.sent == 0) && c.heard == had && c.ok == 0
  {
    hide Concat;
  }

  // ---- every schedule ----

  /** How many bytes the first `n` events took. */
  ghost function Took(evs: seq<Outcome>, n: nat): nat
    requires n <= |evs|
  {
    if n == 0 then 0 else Took(evs, n - 1) + TookOne(evs[n - 1].w)
  }

  ghost predicate NoFaults(evs: seq<Outcome>, n: nat)
    requires n <= |evs|
  {
    forall k :: 0 <= k < n ==> !Faulty(OnConnected, evs[k]) && !evs[k].failed
  }

  /**
   * However its sends are cut: an exchange turns to reading exactly when the bytes taken add up to the whole batch, and
   * before that it has sent just these and heard nothing.
   */
  lemma {:induction false} SentIs(j: Job, c: Course, evs: seq<Outcome>, n: nat)
    requires Sending(c.on) && c.sent < |Concat(j.batch)| && n <= |evs| && NoFaults(evs, n)
    ensures var now, size, sent := Fold(j, c, evs, n), |Concat(j.batch)|, c.sent + Took(evs, n);
      && (Sending(now.on) <==> sent < size) && (!now.on.Nothing? ==> now.sent == Min(sent, size))
      && (sent < size ==> now.heard == c.heard && now.ok == c.ok)
  {
    if n > 0 {
      SentIs(j, c, evs, n - 1);
      var before, ev := Fold(j, c, evs, n - 1), evs[n - 1];
      assert !Faulty(OnConnected, ev) && !ev.failed;
      hide Concat, Fold, Took, NoFaults;
      StepSends(j, c, evs, n);
      if Sending(before.on) {
        SendMoves(j, before, ev);
      } else if before.on.OnReadable? {
        ReadsOn(j, before, ev);
      } else {
        OverNext(j, before, ev);
      }
    }
  }

  lemma StepSends(j: Job, c: Course, evs: seq<Outcome>, n: nat)
    requires 0 < n <= |evs|
    ensures Fold(j, c, evs, n) == Next(j, Fold(j, c, evs, n - 1), evs[n - 1])
    ensures Took(evs, n) == Took(evs, n - 1) + TookOne(evs[n - 1].w)
  {
  }

  /** Reading changes nothing of what was sent. */
  lemma ReadsOn(j: Job, c: Course, ev: Outcome)
    requires c.on.OnReadable?
    ensures var next := Next(j, c, ev); !Sending(next.on) && (!next.on.Nothing? ==> next.sent == c.sent)
  {
    hide Ends, Seen;
  }

  lemma {:induction false} FoldOn(j: Job, c: Course, evs: seq<Outcome>, m: nat, n: nat)
    requires m <= n <= |evs|
    ensures Fold(j, c, evs, n) == Fold(j, Fold(j, c, evs, m), evs[m..], n - m)
    decreases n
  {
    hide Next;
    if m < n { FoldOn(j, c, evs, m, n - 1); }
  }

  /**
   * The whole course without a fault: once the `m`-th event has completed the batch, only the number of bytes that later
   * events bring counts for the answers and for the end.
   */
  lemma WholeCourse(j: Job, c: Course, evs: seq<Outcome>, m: nat, n: nat)
    requires Sending(c.on) && c.sent < |Concat(j.batch)| && 0 < m < n <= |evs| && NoFaults(evs, n)
    requires c.sent + Took(evs, m - 1) < |Concat(j.batch)| <= c.sent + Took(evs, m)
    ensures StandsAt(j, Fold(j, c, evs, n), c.heard + Arrived(evs[m..], n - m))
  {
    SentIs(j, c, evs, m - 1);
    StepSends(j, c, evs, m);
    var before, turned, later := Fold(j, c, evs, m - 1), Fold(j, c, evs, m), evs[m..];
    assert !Faulty(OnConnected, evs[m - 1]);
    SendMoves(j, before, evs[m - 1]);
    FoldOn(j, c, evs, m, n);
    assert forall k :: 0 <= k < n - m ==> !later[k].failed;
    hide StandsAt, Concat, Next, NoFaults, Fold, Arrived, Took, Sending, Min, Faulty, TookOne;
    CutsDoNotMatter(j, turned, later, n - m);
  }

  /** The first `r` rounds bring no fault. */
  ghost predicate CalmRounds(schedule: seq<seq<(nat, Outcome)>>, r: nat)
    requires r <= |schedule|
  {
    forall n :: 0 <= n < r ==> CalmRound(schedule[n])
  }

  lemma {:induction false} OwnInCalm(evs: seq<Outcome>, ready: seq<(nat, Outcome)>, m: nat, i: nat)
    requires m <= |ready| && CalmRound(ready) && NoFaults(evs, |evs|)
    ensures NoFaults(OwnIn(evs, ready, m, i), |OwnIn(evs, ready, m, i)|)
  {
    if m > 0 {
      OwnInCalm(evs, ready, m - 1, i);
      assert Fine(ready[m - 1].1);
    }
  }

  lemma {:induction false} OwnCalm(schedule: seq<seq<(nat, Outcome)>>, r: nat, i: nat)
    requires r <= |schedule| && CalmRounds(schedule, r)
    ensures NoFaults(Own(schedule, r, i), |Own(schedule, r, i)|)
  {
    if r > 0 {
      OwnCalm(schedule, r - 1, i);
      OwnInCalm(Own(schedule, r - 1, i), schedule[r - 1], |schedule[r - 1]|, i);
    }
  }

  /** The same of the rounds of an event loop that serves several servers. */
  lemma SentAfter(j: Job, c: Course, schedule: seq<seq<(nat, Outcome)>>, r: nat, i: nat)
    requires r <= |schedule| && Sending(c.on) && c.sent < |Concat(j.batch)| && CalmRounds(schedule, r)
    ensures var own, now, size := Own(schedule, r, i), After(j, c, schedule, r, i), |Concat(j.batch)|;
      && (Sending(now.on) <==> c.sent + Took(own, |own|) < size)
      && (!now.on.Nothing? ==> now.sent == Min(c.sent + Took(own, |own|), size))
  {
    var own := Own(schedule, r, i);
    hide Own, After, Fold, Took, Concat, NoFaults, CalmRounds;
    OwnCalm(schedule, r, i);
    AfterIsFold(j, c, schedule, r, i);
    SentIs(j, c, own, |own|);
  }
}
