/** Event registration, and the stop that freezes all connections but one. */
module Freeze {

  datatype Action = Register | Unregister | OnlyWrite | OnlyRead

  /** A call into the event library. */
  datatype EventCall = Add(write: bool) | Del

  class Event {
    var registered: bool
    var writeOnly: bool
    ghost var calls: seq<EventCall>

    constructor ()
      ensures Valid() && !registered && !writeOnly
    {
      registered, writeOnly, calls := false, false, [];
    }

    /** Adds and deletes alternate, and the last add asked for what the connection waits for. */
    ghost predicate Valid()
      reads this
    {
      && (forall i :: 0 <= i < |calls| ==> (calls[i].Add? <==> i % 2 == 0))
      && (registered <==> |calls| % 2 == 1)
      && (registered ==> calls[|calls| - 1] == Add(writeOnly))
    }

    /** Re-arms a registered event after its direction changed. */
    method Rearm()
      requires |calls| % 2 == 1 && registered && forall i :: 0 <= i < |calls| ==> (calls[i].Add? <==> i % 2 == 0)
      modifies this`calls
      ensures Valid() && old(calls) <= calls
    {
      calls := calls + [Del, Add(writeOnly)];
    }

    method Modify(action: Action)
      requires Valid()
      modifies this
      ensures Valid() && old(calls) <= calls
      ensures registered == if action.Register? then true else if action.Unregister? then false else old(registered)
      ensures writeOnly == if action.OnlyWrite? then true else if action.OnlyRead? then false else old(writeOnly)
      ensures registered == old(registered) && writeOnly == old(writeOnly) ==> calls == old(calls)
    {
      match action
      case Register =>
        if !registered {
          registered := true;
          calls := calls + [Add(writeOnly)];
        }
      case Unregister =>
        if registered {
          registered := false;
          calls := calls + [Del];
        }
      case OnlyWrite =>
        if !writeOnly {
          writeOnly := true;
          if registered {
            Rearm();
          }
        }
      case OnlyRead =>
        if writeOnly {
          writeOnly := false;
          if registered {
            Rearm();
          }
        }
    }
  }

  /** What may happen to a server's connections. */
  datatype Step = Open | Shut(i: nat) | StopBy(i: nat) | ResumeBy(i: nat)

  /** The connections of a server, whether it is stopped, and by whom. */
  datatype View = View(conns: seq<Event>, stopped: bool, stopper: Event?)

  /** The connection is served. */
  ghost predicate Serves(v: View, e: Event)
  {
    !v.stopped || e == v.stopper
  }

  /** What a step does; a command comes only from a connection that is served. */
  ghost predicate Follows(step: Step, v: View, w: View)
  {
    match step
    case Open =>
      |w.conns| == |v.conns| + 1 && w.conns[1..] == v.conns && w.conns[0] !in v.conns && w == v.(conns := w.conns)
    case Shut(i) =>
      if i < |v.conns| then
        w == v.(conns := v.conns[..i] + v.conns[i + 1..], stopped := v.stopped && v.conns[i] != v.stopper)
      else w == v
    case StopBy(i) =>
      if i < |v.conns| && Serves(v, v.conns[i]) then w == v.(stopped := true, stopper := v.conns[i]) else w == v
    case ResumeBy(i) =>
      if i < |v.conns| && v.stopped && Serves(v, v.conns[i]) then w == v.(stopped := false) else w == v
  }

  ghost predicate IsRun(steps: seq<Step>, views: seq<View>)
  {
    |views| == |steps| + 1 && forall k :: 0 <= k < |steps| ==> Follows(steps[k], views[k], views[k + 1])
  }

  /** Step `k` was the stop that holds until view `n`: issued by the connection that is served ever since. */
  ghost predicate LastStop(steps: seq<Step>, views: seq<View>, k: nat, n: nat)
    requires n < |views| && |views| == |steps| + 1
  {
    && k < n && steps[k].StopBy? && steps[k].i < |views[k].conns| && views[k].conns[steps[k].i] == views[n].stopper
    && forall j :: k < j <= n ==> views[j].stopped && views[j].stopper == views[n].stopper
  }

  /** Whenever a server that ran at first is stopped, its one served connection is the one that issued the last stop. */
  lemma {:induction false} StopperIssuedLastStop(steps: seq<Step>, views: seq<View>, n: nat)
    requires IsRun(steps, views) && n < |views| && !views[0].stopped && views[n].stopped
    ensures exists k: nat :: LastStop(steps, views, k, n)
    decreases n
  {
    assert Follows(steps[n - 1], views[n - 1], views[n]);
    if steps[n - 1].StopBy? && steps[n - 1].i < |views[n - 1].conns| && Serves(views[n - 1], views[n - 1].conns[steps[n - 1].i]) {
      assert LastStop(steps, views, n - 1, n);
    } else {
      StopperIssuedLastStop(steps, views, n - 1);
      var k: nat :| LastStop(steps, views, k, n - 1);
      assert LastStop(steps, views, k, n);
    }
  }

  /** Step `k` is a stop by a connection that is served. */
  ghost predicate Halts(steps: seq<Step>, views: seq<View>, k: nat)
    requires k < |steps| < |views|
  {
    && steps[k].StopBy? && steps[k].i < |views[k].conns|
    && (views[k].stopped ==> views[k].conns[steps[k].i] == views[k].stopper)
  }

  /** Step `k` ends a stop: a start by the connection that is served, or its end. */
  ghost predicate Lifts(steps: seq<Step>, views: seq<View>, k: nat)
    requires k < |steps| < |views|
  {
    && (steps[k].ResumeBy? || steps[k].Shut?) && steps[k].i < |views[k].conns|
    && views[k].stopped && views[k].conns[steps[k].i] == views[k].stopper
  }

  /** Some stop since the beginning has not been lifted. */
  ghost predicate Halted(steps: seq<Step>, views: seq<View>, n: nat)
    requires n <= |steps| < |views|
  {
    exists k :: 0 <= k < n && Halts(steps, views, k) && forall j :: k < j < n ==> !Lifts(steps, views, j)
  }

  /** A server that ran at first is stopped exactly when a stop was served since, and nothing served lifted it. */
  lemma {:induction false} StoppedIff(steps: seq<Step>, views: seq<View>, n: nat)
    requires IsRun(steps, views) && n <= |steps| && !views[0].stopped
    ensures views[n].stopped <==> Halted(steps, views, n)
  {
    if n > 0 {
      StoppedIff(steps, views, n - 1);
      assert Follows(steps[n - 1], views[n - 1], views[n]);
      hide IsRun, Follows, Halts, Lifts;
      StoppedStep(steps, views, n - 1);
      if Halts(steps, views, n - 1) {
        assert Halted(steps, views, n);
      } else if Lifts(steps, views, n - 1) {
        assert !Halted(steps, views, n);
      } else {
        HaltedOn(steps, views, n - 1);
      }
    }
  }

  lemma StoppedStep(steps: seq<Step>, views: seq<View>, k: nat)
    requires k < |steps| < |views| && k + 1 < |views| && Follows(steps[k], views[k], views[k + 1])
    ensures views[k + 1].stopped <==> Halts(steps, views, k) || (views[k].stopped && !Lifts(steps, views, k))
  {
  }

  lemma HaltedOn(steps: seq<Step>, views: seq<View>, n: nat)
    requires n < |steps| < |views| && !Halts(steps, views, n) && !Lifts(steps, views, n)
    ensures Halted(steps, views, n + 1) <==> Halted(steps, views, n)
  {
    hide Halts, Lifts;
    if Halted(steps, views, n) {
      var k :| 0 <= k < n && Halts(steps, views, k) && forall j :: k < j < n ==> !Lifts(steps, views, j);
      assert forall j :: k < j < n + 1 ==> !Lifts(steps, views, j);
    }
  }

  class Server {
    var stopped: bool
    var conns: seq<Event>
    /** The connection that stopped the server. */
    ghost var stopper: Event?

    constructor ()
      ensures Valid() && !stopped && conns == []
    {
      stopped, conns, stopper := false, [], null;
    }

    ghost function Now(): View
      reads this
    {
      View(conns, stopped, stopper)
    }

    ghost predicate Sound()
      reads this, conns
    {
      && (forall i, j :: 0 <= i < j < |conns| ==> conns[i] != conns[j])
      && (forall i :: 0 <= i < |conns| ==> conns[i].Valid())
    }

    /** All connections but `but` are (un)registered. */
    ghost predicate OthersAre(on: bool, but: Event?)
      reads this, conns
    {
      forall i :: 0 <= i < |conns| && conns[i] != but ==> conns[i].registered == on
    }

    /** A running server has every connection registered, a stopped one exactly one. */
    ghost predicate Valid()
      reads this, conns
    {
      && Sound()
      && (!stopped ==> OthersAre(true, null))
      && (stopped ==> stopper in conns && stopper.registered && OthersAre(false, stopper))
    }

    /** Applies an action to all connections but one; counts them. */
    method DoForAll(but: Event?, action: Action) returns (n: nat)
      requires Sound() && (action.Register? || action.Unregister?)
      modifies conns
      ensures Sound() && OthersAre(action.Register?, but)
      ensures but != null && but in conns ==> but.registered == old(but.registered)
      ensures n == if but != null && but in conns then |conns| - 1 else |conns|
    {
      n := 0;
      for i := 0 to |conns|
        invariant Sound() && n == if but != null && but in conns[..i] then i - 1 else i
        invariant forall j :: 0 <= j < i && conns[j] != but ==> conns[j].registered == action.Register?
        invariant but != null && but in conns ==> but.registered == old(but.registered)
      {
        assert conns[..i + 1] == conns[..i] + [conns[i]];
        if conns[i] != but {
          n := n + 1;
          conns[i].Modify(action);
        }
      }
      assert conns[..|conns|] == conns;
    }

    /** Freezes every connection but the one that asks. */
    method Stop(who: Event) returns (others: nat)
      requires Valid() && who in conns && who.registered
      modifies this`stopped, this`stopper, conns
      ensures Valid() && stopped && stopper == who && others == |conns| - 1
    {
      stopped, stopper := true, who;
      others := DoForAll(who, Unregister);
    }

    method Start() returns (all: nat)
      requires Sound()
      modifies this`stopped, conns
      ensures Valid() && !stopped && all == |conns|
    {
      stopped := false;
      all := DoForAll(null, Register);
    }

    /** Accepts a connection; on a stopped server it stays frozen. */
    method New() returns (e: Event)
      requires Valid()
      modifies this`conns
      ensures Valid() && fresh(e) && conns == [e] + old(conns) && !e.writeOnly
    {
      e := new Event();
      e.Modify(OnlyRead);
      if !stopped {
        e.Modify(Register);
      }
      conns := [e] + conns;
    }

    /** Closes a connection; the one that stopped the server resumes it. */
    method Close(i: nat)
      requires Valid() && i < |conns|
      modifies this`stopped, this`conns, conns
      ensures Valid() && Follows(Shut(i), old(Now()), Now()) && !old(conns)[i].registered
    {
      OneRegistered(conns[i]);
      var e := conns[i];
      if stopped && e.registered {
        var _ := Start();
      }
      e.Modify(Unregister);
      Drop(i);
    }

    /** Takes a connection off the list. */
    method Drop(i: nat)
      requires Sound() && i < |conns| && !conns[i].registered && (!stopped ==> OthersAre(true, conns[i]))
      requires stopped ==> stopper in conns && stopper.registered && OthersAre(false, stopper)
      modifies this`conns
      ensures Valid() && conns == old(conns[..i] + conns[i + 1..])
    {
      hide Event.Valid;
      conns := conns[..i] + conns[i + 1..];
      assert forall j :: 0 <= j < |conns| ==> conns[j] == old(conns)[if j < i then j else j + 1];
      if stopped {
        ghost var j :| 0 <= j < |old(conns)| && old(conns)[j] == stopper;
        assert conns[if j < i then j else j - 1] == stopper;
      }
    }

    /** Registered is what is served. */
    lemma OneRegistered(e: Event)
      requires Valid() && e in conns
      ensures e.registered <==> Serves(Now(), e)
    {
    }

    method Do(step: Step)
      requires Valid()
      modifies this, conns
      ensures Valid() && Follows(step, old(Now()), Now())
      ensures step.ResumeBy? && step.i < |old(conns)| && old(conns[step.i].registered) ==>
        !stopped && conns == old(conns) && forall e :: e in conns ==> e.registered
      ensures step.StopBy? && step.i < |old(conns)| && old(conns[step.i].registered) ==>
        stopped && conns == old(conns) && forall e :: e in conns ==> (e.registered <==> e == conns[step.i])
      ensures forall i :: 0 <= i < |conns| ==> conns[i] in old(conns) || fresh(conns[i])
    {
      match step
      case Open =>
        var _ := New();
      case Shut(i) =>
        if i < |conns| {
          Close(i);
        }
      case StopBy(i) =>
        if i < |conns| {
          OneRegistered(conns[i]);
          if conns[i].registered {
            var _ := Stop(conns[i]);
          }
        }
      case ResumeBy(i) =>
        if i < |conns| {
          OneRegistered(conns[i]);
          if stopped && conns[i].registered {
            var _ := Start();
          }
        }
    }

    /**
     * In every run of opens, closes, stops and starts each step does what it should, and exactly the connections that are
     * to be served are registered: all of them, or the one that issued the last stop.
     */
    method Run(steps: seq<Step>) returns (ghost views: seq<View>)
      requires Valid()
      modifies this, conns
      ensures Valid() && IsRun(steps, views) && views[0] == old(Now()) && views[|steps|] == Now()
      ensures forall e :: e in conns ==> (e.registered <==> Serves(Now(), e))
      ensures !views[0].stopped ==> (stopped <==> Halted(steps, views, |steps|))
      ensures conns != [] ==> exists e :: e in conns && e.registered
    {
      hide Server.OthersAre, Server.Sound, Follows;
      views := [Now()];
      for k := 0 to |steps|
        invariant Valid() && forall i :: 0 <= i < |conns| ==> conns[i] in old(conns) || fresh(conns[i])
        invariant |views| == k + 1 && views[0] == old(Now()) && views[k] == Now()
        invariant forall j :: 0 <= j < k ==> Follows(steps[j], views[j], views[j + 1])
      {
        Do(steps[k]);
        views := views + [Now()];
      }
      forall e | e in conns
        ensures e.registered <==> Serves(Now(), e)
      {
        OneRegistered(e);
      }
      if conns != [] { SomeoneServed(); }
      hide Halted;
      if !views[0].stopped { StoppedIff(steps, views, |steps|); }
    }

    /** The server is never frozen for good. */
    lemma SomeoneServed()
      requires Valid() && conns != []
      ensures exists e :: e in conns && e.registered
    {
      if stopped {
        assert stopper in conns && stopper.registered;
      } else {
        assert conns[0] in conns && conns[0].registered;
      }
    }
  }
}
