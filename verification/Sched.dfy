/** The kproc run queue of the 9vx scheduler: host threads that run, sleep and are woken. */
module Sched {

  class Proc {
    var rnext: Proc?
    /** Queued to run. */
    var ready: bool

    constructor ()
    {
      rnext, ready := null, false;
    }
  }

  /** A cpu just created, asleep on the run lock, woken but not yet back, or running. */
  datatype Cpu = New | Asleep | Woken | Running

  /** The cpus in one state. */
  ghost function In(cpus: map<nat, Cpu>, k: Cpu): set<nat>
  {
    set c | c in cpus && cpus[c] == k
  }

  /** One cpu's change moves it from one set to another. */
  lemma InCount(cpus: map<nat, Cpu>, c: nat, k: Cpu, j: Cpu)
    ensures |In(cpus[c := k], j)| == |In(cpus, j)| - (if c in cpus && cpus[c] == j then 1 else 0) + (if k == j then 1 else 0)
  {
    var was, now := In(cpus, j), In(cpus[c := k], j);
    if k == j {
      assert now == was + {c};
    } else {
      assert now == was - {c};
    }
    assert c in was <==> c in cpus && cpus[c] == j;
  }

  /** The cpus that will look at the queue without being woken again. */
  ghost function Coming(cpus: map<nat, Cpu>): nat
  {
    |In(cpus, New)| + |In(cpus, Woken)|
  }

  ghost function Waiting(cpus: map<nat, Cpu>): (r: nat)
    ensures r >= Coming(cpus)
  {
    Coming(cpus) + |In(cpus, Asleep)|
  }

  lemma CountUpdate(cpus: map<nat, Cpu>, c: nat, k: Cpu)
    ensures var coming := c in cpus && (cpus[c].New? || cpus[c].Woken?);
      Coming(cpus[c := k]) == Coming(cpus) - (if coming then 1 else 0) + (if k.New? || k.Woken? then 1 else 0)
    ensures var waiting := c in cpus && !cpus[c].Running?;
      Waiting(cpus[c := k]) == Waiting(cpus) - (if waiting then 1 else 0) + (if k.Running? then 0 else 1)
  {
    InCount(cpus, c, k, New);
    InCount(cpus, c, k, Woken);
    InCount(cpus, c, k, Asleep);
    hide In;
  }

  /** The waiter list holds the sleeping cpus, each once. */
  ghost predicate Waiters(waiters: seq<nat>, cpus: map<nat, Cpu>)
  {
    && (forall c :: c in waiters <==> c in cpus && cpus[c] == Asleep)
    && (forall i, j :: 0 <= i < j < |waiters| ==> waiters[i] != waiters[j])
  }

  lemma NoneAsleep(waiters: seq<nat>, cpus: map<nat, Cpu>)
    requires Waiters(waiters, cpus) && waiters == []
    ensures Waiting(cpus) == Coming(cpus)
  {
    assert In(cpus, Asleep) == {};
  }

  lemma StaysAwake(waiters: seq<nat>, cpus: map<nat, Cpu>, c: nat, k: Cpu)
    requires Waiters(waiters, cpus) && !k.Asleep? && (c in cpus ==> !cpus[c].Asleep?)
    ensures Waiters(waiters, cpus[c := k])
  {
  }

  lemma FallsAsleep(waiters: seq<nat>, cpus: map<nat, Cpu>, c: nat)
    requires Waiters(waiters, cpus) && c in cpus && !cpus[c].Asleep?
    ensures Waiters([c] + waiters, cpus[c := Asleep])
  {
  }

  /** One acquisition of the run lock: a proc made ready, or a cpu looking for work. */
  datatype Step = ReadyStep(p: Proc, newCpu: nat) | RunStep(c: nat)

  /** The state that steps speak of: queue, history, cpus, waiter list and the procs that are marked ready. */
  datatype View = View(queue: seq<Proc>, readied: seq<Proc>, started: seq<Proc>, cpus: map<nat, Cpu>, waiters: seq<nat>,
                       marked: set<Proc>)

  /** The cpu that fell asleep last is woken, if any sleeps. */
  ghost function Wake(cpus: map<nat, Cpu>, waiters: seq<nat>): map<nat, Cpu>
  {
    if waiters == [] then cpus else cpus[waiters[0] := Woken]
  }

  /** What a step does: a proc that is marked already, a cpu number in use and a cpu that sleeps are passed over. */
  ghost function StepOf(step: Step, v: View): View
  {
    match step
    case ReadyStep(p, c) =>
      if p in v.marked || c in v.cpus then v
      else
        var cpus := if |v.queue| + 1 > Waiting(v.cpus) then v.cpus[c := New] else v.cpus;
        View(v.queue + [p], v.readied + [p], v.started, Wake(cpus, v.waiters), if v.waiters == [] then [] else v.waiters[1..], v.marked + {p})
    case RunStep(c) =>
      if c !in v.cpus || v.cpus[c].Asleep? then v
      else if v.queue == [] then v.(cpus := v.cpus[c := Asleep], waiters := [c] + v.waiters)
      else
        var p := v.queue[0];
        v.(queue := v.queue[1..], started := v.started + [p], cpus := v.cpus[c := Running], marked := v.marked - {p})
  }

  /** A cpu that falls asleep is the first to be woken: it starts the next proc that is readied. */
  lemma LastAsleepWakesFirst(v: View, c: nat, p: Proc, d: nat)
    requires v.queue == [] && c in v.cpus && !v.cpus[c].Asleep? && p !in v.marked && d !in v.cpus
    ensures var asleep := StepOf(RunStep(c), v);
      var woken := StepOf(ReadyStep(p, d), asleep);
      && asleep.cpus[c] == Asleep && woken.cpus == asleep.cpus[c := Woken] && woken.waiters == v.waiters && woken.queue == [p]
      && StepOf(RunStep(c), woken).started == v.started + [p] && StepOf(RunStep(c), woken).cpus == v.cpus[c := Running]
  {
    var asleep := StepOf(RunStep(c), v);
    assert c in In(asleep.cpus, Asleep);
  }

  /** Each view is what the step before it makes of the last. */
  ghost predicate IsRun(steps: seq<Step>, views: seq<View>)
  {
    |views| == |steps| + 1 && forall i :: 0 <= i < |steps| ==> views[i + 1] == StepOf(steps[i], views[i])
  }

  /** No step takes back what was readied or started. */
  lemma StepGrows(step: Step, v: View)
    ensures v.readied <= StepOf(step, v).readied && v.started <= StepOf(step, v).started
  {
  }

  lemma RunGrows(steps: seq<Step>, views: seq<View>, k: nat, v: View)
    requires k < |steps| && IsRun(steps[..k], views) && v == StepOf(steps[k], views[k])
    ensures IsRun(steps[..k + 1], views + [v])
  {
    hide StepOf;
  }

  class Scheduler {
    var head: Proc?
    var tail: Proc?
    var n: nat
    var nrunproc: nat
    var waiters: seq<nat>
    var cpus: map<nat, Cpu>

    /** The linked queue, and everything ever made ready and ever started, in order. */
    ghost var queue: seq<Proc>
    ghost var readied: seq<Proc>
    ghost var started: seq<Proc>

    constructor ()
      ensures Valid() && readied == [] && cpus == map[]
    {
      head, tail, n, nrunproc, waiters, cpus := null, null, 0, 0, [], map[];
      queue, readied, started := [], [], [];
    }

    ghost predicate Linked()
      reads this`head, this`tail, this`queue, queue
    {
      && (queue == [] ==> head == null && tail == null)
      && (queue != [] ==> head == queue[0] && tail == queue[|queue| - 1] && queue[|queue| - 1].rnext == null)
      && (forall i :: 0 <= i < |queue| - 1 ==> queue[i].rnext == queue[i + 1])
      && (forall i, j :: 0 <= i < j < |queue| ==> queue[i] != queue[j])
      && (forall p :: p in queue ==> p.ready)
    }

    /** Holds whenever the run lock is free. */
    ghost predicate Valid()
      reads this, queue
    {
      && Linked() && n == |queue| && Waiters(waiters, cpus)
      && nrunproc == Waiting(cpus) && n <= Coming(cpus)
      && readied == started + queue
    }

    /** No kproc waits with every cpu asleep or busy: one is on its way. */
    lemma NoLostWakeup()
      requires Valid() && queue != []
      ensures exists c :: c in cpus && (cpus[c].New? || cpus[c].Woken?)
    {
      if In(cpus, New) != {} {
        var c :| c in In(cpus, New);
      } else {
        var c :| c in In(cpus, Woken);
      }
    }

    lemma NobodyComing()
      requires Valid() && forall c :: c in cpus ==> !cpus[c].New? && !cpus[c].Woken?
      ensures queue == []
    {
      assert In(cpus, New) == {} && In(cpus, Woken) == {};
    }

    lemma EmptyIffNoHead()
      requires Linked()
      ensures head == null <==> queue == []
    {
    }

    lemma QueuedAreReady(p: Proc)
      requires Linked()
      ensures !p.ready ==> p !in queue
    {
    }

    /** Links a proc at the end of the queue. */
    method Enqueue(p: Proc)
      requires Linked() && p !in queue && n == |queue|
      modifies this`head, this`tail, this`n, this`queue, p, queue
      ensures Linked() && queue == old(queue) + [p] && n == |queue|
    {
      p.ready := true;
      p.rnext := null;
      if tail != null {
        tail.rnext := p;
      } else {
        head := p;
      }
      tail := p;
      n := n + 1;
      queue := queue + [p];
    }

    /** Wakes the cpu that fell asleep last, if any sleeps. */
    method Pwakeup()
      requires Waiters(waiters, cpus)
      modifies this`waiters, this`cpus
      ensures Waiters(waiters, cpus) && Waiting(cpus) == Waiting(old(cpus))
      ensures Coming(cpus) == Coming(old(cpus)) + if old(waiters) == [] then 0 else 1
      ensures cpus == Wake(old(cpus), old(waiters)) && waiters == if old(waiters) == [] then [] else old(waiters)[1..]
      ensures cpus.Keys == old(cpus).Keys
    {
      if waiters != [] {
        var w := waiters[0];
        CountUpdate(cpus, w, Woken);
        waiters := waiters[1..];
        cpus := cpus[w := Woken];
      }
    }

    /** Queues a kproc; makes a new cpu when the queue outgrows the waiting cpus, and wakes a sleeping one. */
    method Ready(p: Proc, newCpu: nat)
      requires Valid() && p !in queue && newCpu !in cpus
      modifies this, p, queue
      ensures Valid() && queue == old(queue) + [p] && readied == old(readied) + [p] && started == old(started)
      ensures newCpu in cpus <==> |old(queue)| == old(nrunproc)
      ensures cpus == Wake(if |old(queue)| + 1 > old(Waiting(cpus)) then old(cpus)[newCpu := New] else old(cpus), old(waiters))
      ensures waiters == if old(waiters) == [] then [] else old(waiters)[1..]
    {
      hide Waiters, In, Coming, Waiting;
      Enqueue(p);
      readied := readied + [p];
      if n > nrunproc {
        CountUpdate(cpus, newCpu, New);
        nrunproc := nrunproc + 1;
        StaysAwake(waiters, cpus, newCpu, New);
        cpus := cpus[newCpu := New];
      } else if waiters == [] {
        NoneAsleep(waiters, cpus);
      }
      Pwakeup();
    }

    /** Unlinks the first proc of the queue. */
    method Dequeue() returns (p: Proc)
      requires Linked() && queue != [] && n == |queue|
      modifies this`head, this`tail, this`n, this`queue
      ensures Linked() && p == old(queue)[0] && queue == old(queue)[1..] && n == |queue| && p !in queue
    {
      p := head;
      head := p.rnext;
      if head == null {
        tail := null;
      }
      n := n - 1;
      queue := queue[1..];
    }

    /** A cpu falls asleep at the head of the waiter list. */
    method Psleep(c: nat)
      requires Waiters(waiters, cpus) && c in cpus && !cpus[c].Asleep?
      modifies this`nrunproc, this`waiters, this`cpus
      ensures Waiters(waiters, cpus) && cpus == old(cpus)[c := Asleep] && nrunproc == old(nrunproc) + 1
      ensures waiters == [c] + old(waiters)
      ensures Waiting(cpus) == Waiting(old(cpus)) + if old(cpus)[c].Running? then 1 else 0
    {
      CountUpdate(cpus, c, Asleep);
      FallsAsleep(waiters, cpus, c);
      nrunproc := nrunproc + 1;
      waiters := [c] + waiters;
      cpus := cpus[c := Asleep];
    }

    /** A cpu looks for work: it takes the first proc, or falls asleep on an empty queue. */
    method RunProc(c: nat) returns (p: Proc?)
      requires Valid() && c in cpus && !cpus[c].Asleep?
      modifies this
      ensures Valid() && readied == old(readied)
      ensures old(queue) == [] ==> p == null && queue == [] && cpus == old(cpus)[c := Asleep] && started == old(started)
      ensures waiters == if old(queue) == [] then [c] + old(waiters) else old(waiters)
      ensures old(queue) != [] ==>
        && p == old(queue)[0] && queue == old(queue)[1..] && p !in queue
        && cpus == old(cpus)[c := Running] && started == old(started) + [p]
    {
      hide Waiters, In, Coming, Waiting, Scheduler.Linked;
      ghost var was := queue;
      EmptyIffNoHead();
      CountUpdate(cpus, c, Running);
      if !cpus[c].Running? {
        nrunproc := nrunproc - 1;
      }
      if head == null {
        Psleep(c);
        return null;
      }
      StaysAwake(waiters, cpus, c, Running);
      p := Dequeue();
      assert was == [p] + queue;
      started := started + [p];
      cpus := cpus[c := Running];
    }

    ghost function Now(all: set<Proc>): View
      reads this, all
    {
      View(queue, readied, started, cpus, waiters, set p | p in all && p.ready)
    }

    lemma AllMarked()
      requires Linked()
      ensures forall q :: q in queue ==> q.ready
    {
    }

    /** A proc is made ready, unless it is already. */
    method MakeReady(p: Proc, c: nat, ghost all: set<Proc>)
      requires Valid() && p in all && (forall q :: q in queue ==> q in all)
      modifies this, all
      ensures Valid() && (forall q :: q in queue ==> q in all) && Now(all) == StepOf(ReadyStep(p, c), old(Now(all)))
    {
      QueuedAreReady(p);
      hide Waiters, Coming, Waiting, Wake;
      if !p.ready && c !in cpus {
        Ready(p, c);
        AllMarked();
        hide Scheduler.Linked, StepOf;
        assert forall q :: q in all ==> (q.ready <==> q == p || old(q.ready));
        assert (set q | q in all && q.ready) == old(set q | q in all && q.ready) + {p};
      }
    }

    /** A cpu looks for work, unless it sleeps; the proc it takes is no longer marked. */
    method LookForWork(c: nat, ghost all: set<Proc>)
      requires Valid() && (forall q :: q in queue ==> q in all)
      modifies this, all
      ensures Valid() && (forall q :: q in queue ==> q in all) && Now(all) == StepOf(RunStep(c), old(Now(all)))
    {
      hide Scheduler.Linked, Waiters, Coming, Waiting;
      if c in cpus && !cpus[c].Asleep? {
        var p := RunProc(c);
        if p != null {
          Unmark(p);
        }
      }
    }

    method Unmark(p: Proc)
      requires Valid() && p !in queue
      modifies p
      ensures Valid() && !p.ready && p.rnext == old(p.rnext)
    {
      p.ready := false;
    }

    /** Any interleaving of readied procs and cpus looking for work keeps the invariant, and every step does what it should. */
    method Run(steps: seq<Step>, ghost all: set<Proc>) returns (ghost views: seq<View>)
      requires Valid() && (forall p :: p in queue ==> p in all)
      requires forall i :: 0 <= i < |steps| && steps[i].ReadyStep? ==> steps[i].p in all
      modifies this, all
      ensures Valid() && IsRun(steps, views) && views[0] == old(Now(all)) && views[|steps|] == Now(all)
      ensures old(readied) <= readied && old(started) <= started
    {
      hide Scheduler.Valid, StepOf;
      views := [Now(all)];
      for i := 0 to |steps|
        invariant Valid() && (forall p :: p in queue ==> p in all)
        invariant IsRun(steps[..i], views) && views[0] == old(Now(all)) && views[i] == Now(all)
        invariant old(readied) <= readied && old(started) <= started
      {
        StepGrows(steps[i], Now(all));
        match steps[i] {
          case ReadyStep(p, c) => MakeReady(p, c, all);
          case RunStep(c) => LookForWork(c, all);
        }
        RunGrows(steps, views, i, Now(all));
        views := views + [Now(all)];
      }
      assert steps[..|steps|] == steps;
    }

    /** Once the new and woken cpus have had their turn, everything readied has started, in that order. */
    method Settle()
      requires Valid()
      modifies this
      ensures Valid() && readied == old(readied) == started && queue == []
    {
      hide Scheduler.Linked, Waiters;
      var coming := set c | c in cpus && (cpus[c].New? || cpus[c].Woken?);
      while coming != {}
        invariant Valid() && readied == old(readied)
        invariant coming == set c | c in cpus && (cpus[c].New? || cpus[c].Woken?)
        decreases |coming|
      {
        var c :| c in coming;
        var _ := RunProc(c);
        coming := coming - {c};
      }
      assert forall c :: c in cpus && (cpus[c].New? || cpus[c].Woken?) ==> c in coming;
      NobodyComing();
      assert started + [] == started;
    }
  }
}
