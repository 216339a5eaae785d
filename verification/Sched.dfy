/** The scheduler: one run queue and load counter per CPU, threads that finish, and lists of threads to reap. */
module Scheduler {
  import opened Lists

  datatype TState = Ready | Running | Zombie

  datatype Tcb = Tcb(state: TState, proc: nat, cpu: nat, idle: bool)

  datatype Opt = None | Some(id: nat)

  datatype Cpu = Cpu(runq: seq<nat>, current: Opt, idle: Opt, load: nat, reap: seq<nat>)

  /** `members` are the thread lists of the processes; a process is dying once a signal or its last thread ends it.
      `made` are the threads their creators have allocated and not yet put in a queue. */
  datatype Sched = Sched(threads: map<nat, Tcb>, cpus: seq<Cpu>, dying: set<nat>, members: map<nat, seq<nat>>, made: set<nat>)

  // The locked operations as functions

  function WithCpu(s: Sched, c: nat, cpu: Cpu): Sched
    requires c < |s.cpus|
  {
    s.(cpus := s.cpus[c := cpu])
  }

  function WithState(s: Sched, t: nat, st: TState): Sched
    requires t in s.threads
  {
    s.(threads := s.threads[t := s.threads[t].(state := st)])
  }

  /** `runq_push_locked` */
  function Pushed(s: Sched, c: nat, t: nat): Sched
    requires c < |s.cpus| && t in s.threads
  {
    WithCpu(s.(threads := s.threads[t := s.threads[t].(cpu := c)]), c, s.cpus[c].(runq := s.cpus[c].runq + [t]))
  }

  /** `thread_finish_locked`: the last thread of a process other than the idle one leaves the process dying. */
  function Finished(s: Sched, c: nat, t: nat): Sched
    requires c < |s.cpus| && t in s.threads && s.threads[t].proc in s.members
  {
    if s.threads[t].state.Zombie? then s
    else
      var p, cpu := s.threads[t].proc, s.cpus[c];
      var left := Without(s.members[p], t);
      WithCpu(WithState(s, t, Zombie), c, cpu.(load := if cpu.load > 0 then cpu.load - 1 else 0, reap := [t] + cpu.reap))
        .(members := s.members[p := left], dying := if t in s.members[p] && left == [] && p != 0 then s.dying + {p} else s.dying)
  }

  predicate CurrentIs(s: Sched, c: nat, st: TState)
    requires c < |s.cpus|
  {
    var cur := s.cpus[c].current;
    cur.Some? && cur.id in s.threads && !s.threads[cur.id].idle && s.threads[cur.id].state == st
  }

  /** A current thread whose process is dying is finished ... */
  function Retired(s: Sched, c: nat): (r: Sched)
    requires c < |s.cpus| && forall t | t in s.threads :: s.threads[t].proc in s.members
    ensures |r.cpus| == |s.cpus|
  {
    if CurrentIs(s, c, Running) && s.threads[s.cpus[c].current.id].proc in s.dying then Finished(s, c, s.cpus[c].current.id) else s
  }

  /** ... any other goes to the end of the queue. */
  function Requeued(s: Sched, c: nat, enqueue: bool): Sched
    requires c < |s.cpus|
  {
    if enqueue && CurrentIs(s, c, Running) then Pushed(WithState(s, s.cpus[c].current.id, Ready), c, s.cpus[c].current.id) else s
  }

  /** The loop of `schedule_locked`: threads of dying processes are finished on the way. */
  function Picked(s: Sched, c: nat): (r: (Sched, Opt))
    requires c < |s.cpus| && forall t | t in s.threads :: s.threads[t].proc in s.members
    ensures |r.0.cpus| == |s.cpus|
    decreases |s.cpus[c].runq|
  {
    var q := s.cpus[c].runq;
    if q == [] then (s, None)
    else
      var s1 := WithCpu(s, c, s.cpus[c].(runq := q[1..]));
      if q[0] !in s.threads || s.threads[q[0]].state != Ready then Picked(s1, c)
      else if s.threads[q[0]].proc in s.dying then Picked(Finished(s1, c, q[0]), c)
      else (s1, Some(q[0]))
  }

  /** The end of `schedule_locked`: switch to what was picked, or to the idle thread. */
  function Dispatched(s: Sched, c: nat, pick: Opt): Sched
    requires c < |s.cpus|
  {
    var next := if pick.Some? then pick else s.cpus[c].idle;
    var prev := s.cpus[c].current;
    if next.None? || next.id !in s.threads then
      if prev.Some? && prev.id in s.threads && s.threads[prev.id].state == Ready then WithState(s, prev.id, Running) else s
    else if next == prev && s.threads[next.id].state == Running then s
    else WithCpu(WithState(s, next.id, Running), c, s.cpus[c].(current := next))
  }

  // The invariant

  ghost predicate QueueOK(s: Sched, c: nat)
    requires c < |s.cpus|
  {
    && Distinct(s.cpus[c].runq)
    && forall t | t in s.cpus[c].runq :: t in s.threads && s.threads[t].state == Ready && !s.threads[t].idle && s.threads[t].cpu == c
  }

  ghost predicate ReapOK(s: Sched, c: nat)
    requires c < |s.cpus|
  {
    && Distinct(s.cpus[c].reap)
    && forall t | t in s.cpus[c].reap :: t in s.threads && s.threads[t].state == Zombie && s.threads[t].cpu == c
  }

  /** `hand` is a thread taken off its queue and not yet dispatched. */
  ghost predicate LoadOK(s: Sched, c: nat, hand: Opt)
    requires c < |s.cpus|
  {
    s.cpus[c].load == |s.cpus[c].runq| + (if CurrentIs(s, c, Running) then 1 else 0) +
                      (if hand.Some? && hand.id in s.threads && s.threads[hand.id].cpu == c then 1 else 0)
  }

  ghost predicate CpuOK(s: Sched, c: nat, hand: Opt)
    requires c < |s.cpus|
  {
    && QueueOK(s, c) && ReapOK(s, c) && LoadOK(s, c, hand)
    && (s.cpus[c].idle.Some? ==> s.cpus[c].idle.id in s.threads && s.threads[s.cpus[c].idle.id].idle && s.threads[s.cpus[c].idle.id].cpu == c)
    && (s.cpus[c].current.Some? ==> s.cpus[c].current.id in s.threads && s.threads[s.cpus[c].current.id].cpu == c)
    && (s.cpus[c].current.Some? && s.threads[s.cpus[c].current.id].idle ==> s.cpus[c].idle == s.cpus[c].current)
  }

  ghost predicate ThreadOK(s: Sched, t: nat, hand: Opt)
    requires t in s.threads
  {
    var tcb := s.threads[t];
    && tcb.cpu < |s.cpus| && tcb.proc in s.members && (t in s.members[tcb.proc] <==> tcb.state != Zombie)
    && (tcb.idle ==> tcb.state != Zombie)
    && (tcb.state == Zombie ==> t in s.cpus[tcb.cpu].reap)
    && (tcb.state == Running && !tcb.idle ==> s.cpus[tcb.cpu].current == Some(t))
    && (tcb.state == Ready && !tcb.idle && hand != Some(t) && t !in s.made ==> t in s.cpus[tcb.cpu].runq)
    && (t in s.made ==> tcb.state == Ready && !tcb.idle && hand != Some(t) && t !in s.cpus[tcb.cpu].runq && s.cpus[tcb.cpu].current != Some(t))
    && (hand == Some(t) ==> tcb.state == Ready && !tcb.idle && t !in s.cpus[tcb.cpu].runq)
  }

  ghost predicate MembersOK(s: Sched, p: nat)
    requires p in s.members
  {
    && Distinct(s.members[p])
    && forall t | t in s.members[p] :: t in s.threads && s.threads[t].proc == p && s.threads[t].state != Zombie
  }

  ghost predicate Inv(s: Sched, hand: Opt) {
    && (forall c: nat {:trigger CpuOK(s, c, hand)} | c < |s.cpus| :: CpuOK(s, c, hand))
    && (forall t {:trigger ThreadOK(s, t, hand)} | t in s.threads :: ThreadOK(s, t, hand))
    && (forall p {:trigger MembersOK(s, p)} | p in s.members :: MembersOK(s, p))
    && (hand.Some? ==> hand.id in s.threads) && (forall t | t in s.made :: t in s.threads)
  }

  lemma InvMembers(s: Sched, hand: Opt)
    requires Inv(s, hand)
    ensures forall t | t in s.threads :: s.threads[t].proc in s.members && s.threads[t].cpu < |s.cpus|
  {
    forall t | t in s.threads
      ensures s.threads[t].proc in s.members && s.threads[t].cpu < |s.cpus|
    {
      assert ThreadOK(s, t, hand);
    }
  }

  // What each operation keeps

  /** Finishing the thread in hand, or the running current thread of the CPU. */
  lemma FinishedInv(s: Sched, c: nat, t: nat, hand: Opt)
    requires Inv(s, hand) && c < |s.cpus| && t in s.threads && s.threads[t].cpu == c && !s.threads[t].idle
    requires s.threads[t].proc in s.members
    requires hand == Some(t) || (hand == None && s.threads[t].state == Running)
    ensures Inv(Finished(s, c, t), None)
  {
    var s' := Finished(s, c, t);
    assert ThreadOK(s, t, hand) && CpuOK(s, c, hand);
    forall d: nat | d < |s'.cpus|
      ensures CpuOK(s', d, None)
    {
      FinishedCpu(s, c, t, hand, d);
    }
    forall u | u in s'.threads
      ensures ThreadOK(s', u, None)
    {
      FinishedThread(s, c, t, hand, u);
    }
    forall p | p in s'.members
      ensures MembersOK(s', p)
    {
      assert MembersOK(s, p);
      WithoutDistinct(s.members[p], t);
    }
  }

  lemma FinishedCpu(s: Sched, c: nat, t: nat, hand: Opt, d: nat)
    requires Inv(s, hand) && c < |s.cpus| && d < |s.cpus| && t in s.threads && s.threads[t].cpu == c && !s.threads[t].idle
    requires s.threads[t].proc in s.members
    requires hand == Some(t) || (hand == None && s.threads[t].state == Running)
    ensures CpuOK(Finished(s, c, t), d, None)
  {
    assert ThreadOK(s, t, hand) && CpuOK(s, d, hand) && CpuOK(s, c, hand);
    assert t !in s.cpus[d].runq && t !in s.cpus[d].reap;
  }

  lemma FinishedThread(s: Sched, c: nat, t: nat, hand: Opt, u: nat)
    requires Inv(s, hand) && c < |s.cpus| && u in s.threads && t in s.threads && s.threads[t].cpu == c && !s.threads[t].idle
    requires s.threads[t].proc in s.members
    requires hand == Some(t) || (hand == None && s.threads[t].state == Running)
    ensures ThreadOK(Finished(s, c, t), u, None)
  {
    assert ThreadOK(s, t, hand) && ThreadOK(s, u, hand) && CpuOK(s, c, hand);
  }

  lemma RetiredInv(s: Sched, c: nat)
    requires Inv(s, None) && c < |s.cpus| && forall t | t in s.threads :: s.threads[t].proc in s.members
    ensures Inv(Retired(s, c), None)
  {
    assert CpuOK(s, c, None);
    if CurrentIs(s, c, Running) && s.threads[s.cpus[c].current.id].proc in s.dying {
      FinishedInv(s, c, s.cpus[c].current.id, None);
    }
  }

  lemma RequeuedInv(s: Sched, c: nat, enqueue: bool)
    requires Inv(s, None) && c < |s.cpus|
    ensures Inv(Requeued(s, c, enqueue), None)
    ensures enqueue ==> !CurrentIs(Requeued(s, c, enqueue), c, Running)
  {
    if enqueue && CurrentIs(s, c, Running) {
      var t, s' := s.cpus[c].current.id, Requeued(s, c, enqueue);
      assert CpuOK(s, c, None) && ThreadOK(s, t, None);
      assert t !in s.cpus[c].runq;
      forall d: nat | d < |s'.cpus|
        ensures CpuOK(s', d, None)
      {
        assert CpuOK(s, d, None);
      }
      forall u | u in s'.threads
        ensures ThreadOK(s', u, None)
      {
        assert ThreadOK(s, u, None);
      }
      forall p | p in s'.members
        ensures MembersOK(s', p)
      {
        assert MembersOK(s, p);
      }
    }
  }

  /** Taking the head of a queue. */
  lemma PoppedInv(s: Sched, c: nat)
    requires Inv(s, None) && c < |s.cpus| && s.cpus[c].runq != []
    ensures var q := s.cpus[c].runq;
            && q[0] in s.threads && s.threads[q[0]].state == Ready && s.threads[q[0]].cpu == c && !s.threads[q[0]].idle
            && Inv(WithCpu(s, c, s.cpus[c].(runq := q[1..])), Some(q[0]))
  {
    var q := s.cpus[c].runq;
    var s' := WithCpu(s, c, s.cpus[c].(runq := q[1..]));
    assert CpuOK(s, c, None) && q[0] in q;
    assert q[0] !in q[1..];
    forall d: nat | d < |s'.cpus|
      ensures CpuOK(s', d, Some(q[0]))
    {
      assert CpuOK(s, d, None);
    }
    forall u | u in s'.threads
      ensures ThreadOK(s', u, Some(q[0]))
    {
      assert ThreadOK(s, u, None);
    }
    forall p | p in s'.members
      ensures MembersOK(s', p)
    {
      assert MembersOK(s, p);
    }
  }

  /** What the loop leaves: some first `m` threads of the queue are gone, of which all but the one picked are finished. */
  ghost predicate PickedOK(s: Sched, c: nat, s': Sched, pick: Opt, m: nat)
    requires c < |s.cpus|
  {
    && |s'.cpus| == |s.cpus| && m <= |s.cpus[c].runq| && (s.cpus[c].runq != [] ==> m > 0)
    && s'.cpus[c].runq == s.cpus[c].runq[m..] && s'.cpus[c].current == s.cpus[c].current && s'.cpus[c].idle == s.cpus[c].idle
    && s'.threads.Keys == s.threads.Keys && s'.members.Keys == s.members.Keys && s'.dying == s.dying
    && (forall d | 0 <= d < |s.cpus| && d != c :: s'.cpus[d] == s.cpus[d])
    && (pick.Some? ==> m > 0 && pick.id == s.cpus[c].runq[m - 1] && pick.id in s.threads && s.threads[pick.id].proc !in s.dying)
    && (pick.None? ==> m == |s.cpus[c].runq|)
    && (forall t {:trigger PickedThread(s, c, s', pick, m, t)} | t in s.threads :: PickedThread(s, c, s', pick, m, t))
  }

  ghost predicate PickedThread(s: Sched, c: nat, s': Sched, pick: Opt, m: nat, t: nat)
    requires c < |s.cpus| && m <= |s.cpus[c].runq| && t in s.threads && t in s'.threads
  {
    && s'.threads[t] == (if t in s.cpus[c].runq[..m] && pick != Some(t) then s.threads[t].(state := Zombie) else s.threads[t])
    && (t in s.cpus[c].runq[..m] && pick != Some(t) ==> s.threads[t].proc in s.dying)
  }

  /** One round of the loop that finishes the head, and the rounds after it. */
  lemma PickedAfter(s: Sched, c: nat, s': Sched, pick: Opt, n: nat)
    requires c < |s.cpus| && s.cpus[c].runq != [] && s.cpus[c].runq[0] in s.threads && Distinct(s.cpus[c].runq)
    requires s.threads[s.cpus[c].runq[0]].proc in s.members
    requires var q := s.cpus[c].runq; PickedOK(Finished(WithCpu(s, c, s.cpus[c].(runq := q[1..])), c, q[0]), c, s', pick, n)
    requires s.threads[s.cpus[c].runq[0]].state == Ready && s.threads[s.cpus[c].runq[0]].proc in s.dying
    ensures PickedOK(s, c, s', pick, n + 1)
  {
    var q := s.cpus[c].runq;
    var s2 := Finished(WithCpu(s, c, s.cpus[c].(runq := q[1..])), c, q[0]);
    assert q[..n + 1] == [q[0]] + q[1..][..n] && q[n + 1..] == q[1..][n..];
    assert q[0] !in q[1..];
    forall t | t in s.threads
      ensures PickedThread(s, c, s', pick, n + 1, t)
    {
      assert PickedThread(s2, c, s', pick, n, t);
    }
  }

  lemma {:induction false} PickedInv(s: Sched, c: nat) returns (m: nat)
    requires Inv(s, None) && c < |s.cpus| && forall t | t in s.threads :: s.threads[t].proc in s.members
    ensures Inv(Picked(s, c).0, Picked(s, c).1) && PickedOK(s, c, Picked(s, c).0, Picked(s, c).1, m)
    decreases |s.cpus[c].runq|
  {
    var q := s.cpus[c].runq;
    if q == [] {
      m := 0;
    } else {
      PoppedInv(s, c);
      assert CpuOK(s, c, None);
      var s1 := WithCpu(s, c, s.cpus[c].(runq := q[1..]));
      if s.threads[q[0]].proc in s.dying {
        FinishedInv(s1, c, q[0], Some(q[0]));
        hide Inv, CpuOK, PickedOK;
        var n := PickedInv(Finished(s1, c, q[0]), c);
        PickedAfter(s, c, Picked(s, c).0, Picked(s, c).1, n);
        m := n + 1;
      } else {
        m := 1;
      }
    }
  }

  /** `switch_to_thread` */
  function Switched(s: Sched, c: nat, next: nat): Sched
    requires c < |s.cpus| && next in s.threads
  {
    WithCpu(WithState(s, next, Running), c, s.cpus[c].(current := Some(next)))
  }

  lemma SwitchedInv(s: Sched, c: nat, pick: Opt, next: nat)
    requires Inv(s, pick) && c < |s.cpus| && !CurrentIs(s, c, Running) && next in s.threads && s.threads[next].cpu == c
    requires if pick.Some? then pick.id == next else s.cpus[c].idle == Some(next)
    ensures Inv(Switched(s, c, next), None)
  {
    var s' := Switched(s, c, next);
    assert ThreadOK(s, next, pick);
    forall d: nat | d < |s'.cpus|
      ensures CpuOK(s', d, None)
    {
      SwitchedCpu(s, c, pick, next, d);
    }
    forall u | u in s'.threads
      ensures ThreadOK(s', u, None)
    {
      SwitchedThread(s, c, pick, next, u);
    }
    forall p | p in s'.members
      ensures MembersOK(s', p)
    {
      assert MembersOK(s, p);
    }
  }

  lemma SwitchedCpu(s: Sched, c: nat, pick: Opt, next: nat, d: nat)
    requires Inv(s, pick) && c < |s.cpus| && d < |s.cpus| && !CurrentIs(s, c, Running) && next in s.threads && s.threads[next].cpu == c
    requires if pick.Some? then pick.id == next else s.cpus[c].idle == Some(next)
    ensures CpuOK(Switched(s, c, next), d, None)
  {
    assert CpuOK(s, d, pick) && ThreadOK(s, next, pick);
    assert next !in s.cpus[d].runq && next !in s.cpus[d].reap;
  }

  lemma SwitchedThread(s: Sched, c: nat, pick: Opt, next: nat, u: nat)
    requires Inv(s, pick) && c < |s.cpus| && u in s.threads && !CurrentIs(s, c, Running) && next in s.threads && s.threads[next].cpu == c
    requires if pick.Some? then pick.id == next else s.cpus[c].idle == Some(next)
    ensures ThreadOK(Switched(s, c, next), u, None)
  {
    assert ThreadOK(s, u, pick) && CpuOK(s, c, pick);
  }

  lemma DispatchedInv(s: Sched, c: nat, pick: Opt)
    requires Inv(s, pick) && c < |s.cpus| && !CurrentIs(s, c, Running)
    requires if pick.Some? then s.threads[pick.id].cpu == c else !CurrentIs(s, c, Ready)
    ensures Inv(Dispatched(s, c, pick), None) && !CurrentIs(Dispatched(s, c, pick), c, Ready)
  {
    assert CpuOK(s, c, pick);
    if pick.Some? {
      assert ThreadOK(s, pick.id, pick);
      SwitchedInv(s, c, pick, pick.id);
    } else if s.cpus[c].idle.Some? {
      SwitchedInv(s, c, None, s.cpus[c].idle.id);
    }
  }

  // Whole operations

  /** `schedule_locked` */
  function Scheduled(s: Sched, c: nat, enqueue: bool): Sched
    requires c < |s.cpus| && forall t | t in s.threads :: s.threads[t].proc in s.members
  {
    var (s3, pick) := Picked(Requeued(Retired(s, c), c, enqueue), c);
    Dispatched(s3, c, pick)
  }

  /** No current thread is waiting to be switched to. */
  ghost predicate Settled(s: Sched) {
    forall c: nat {:trigger s.cpus[c]} | c < |s.cpus| :: !CurrentIs(s, c, Ready)
  }

  ghost predicate Good(s: Sched) {
    Inv(s, None) && Settled(s)
  }

  /** A thread has been dispatched, is finished, or is at most at position `k` of its queue. */
  ghost predicate Served(s: Sched, c: nat, t: nat, k: int) {
    && c < |s.cpus| && t in s.threads
    && ((s.threads[t].state == Zombie && s.threads[t].proc in s.dying) || s.cpus[c].current == Some(t) || exists j :: 0 <= j <= k && j < |s.cpus[c].runq| && s.cpus[c].runq[j] == t)
  }

  /** Everything that belongs to other CPUs is untouched. */
  ghost predicate Local(s: Sched, s': Sched, c: nat) {
    && |s'.cpus| == |s.cpus| && s'.threads.Keys == s.threads.Keys
    && (forall d | 0 <= d < |s.cpus| && d != c :: s'.cpus[d] == s.cpus[d])
    && (forall t | t in s.threads && s.threads[t].cpu != c :: s'.threads[t] == s.threads[t])
    && (forall t | t in s.threads && s.threads[t].cpu == c :: s'.threads[t].cpu == c)
  }

  lemma LocalSettled(s: Sched, s': Sched, c: nat)
    requires Good(s) && Local(s, s', c) && c < |s.cpus| && !CurrentIs(s', c, Ready)
    ensures Settled(s')
  {
    forall d: nat | d < |s'.cpus|
      ensures !CurrentIs(s', d, Ready)
    {
      if d != c {
        assert CpuOK(s, d, None) && !CurrentIs(s, d, Ready);
      }
    }
  }

  /** The queue before the loop: what was there, then perhaps the current thread. */
  lemma BeforePick(s: Sched, c: nat, enqueue: bool)
    requires Good(s) && c < |s.cpus| && (enqueue || !CurrentIs(s, c, Running))
    requires forall t | t in s.threads :: s.threads[t].proc in s.members
    ensures var s2 := Requeued(Retired(s, c), c, enqueue);
            && Inv(s2, None) && Local(s, s2, c) && !CurrentIs(s2, c, Running) && s.cpus[c].runq <= s2.cpus[c].runq
            && (CurrentIs(s2, c, Ready) ==> s2.cpus[c].current.id in s2.cpus[c].runq)
  {
    RetiredInv(s, c);
    RequeuedInv(Retired(s, c), c, enqueue);
    assert CpuOK(s, c, None) && !CurrentIs(s, c, Ready);
  }

  lemma AfterPick(s2: Sched, c: nat, s3: Sched, pick: Opt, m: nat)
    requires Inv(s2, None) && c < |s2.cpus| && !CurrentIs(s2, c, Running) && PickedOK(s2, c, s3, pick, m)
    requires CurrentIs(s2, c, Ready) ==> s2.cpus[c].current.id in s2.cpus[c].runq
    ensures Local(s2, s3, c) && !CurrentIs(s3, c, Running)
    ensures pick.None? ==> !CurrentIs(s3, c, Ready)
    ensures pick.Some? ==> pick.id in s3.threads && s3.threads[pick.id].cpu == c && s3.threads[pick.id].state == Ready
  {
    assert CpuOK(s2, c, None);
    var q := s2.cpus[c].runq;
    assert pick.Some? ==> pick.id in q;
    assert q[..|q|] == q;
    forall t | t in s2.threads
      ensures s3.threads[t].cpu == s2.threads[t].cpu
      ensures s2.threads[t].cpu != c ==> s3.threads[t] == s2.threads[t]
    {
      assert PickedThread(s2, c, s3, pick, m, t);
    }
    assert s2.cpus[c].current.Some? ==> PickedThread(s2, c, s3, pick, m, s2.cpus[c].current.id);
    assert pick.Some? ==> PickedThread(s2, c, s3, pick, m, pick.id);
  }

  lemma DispatchedLocal(s: Sched, c: nat, pick: Opt)
    requires Inv(s, pick) && c < |s.cpus| && (pick.Some? ==> s.threads[pick.id].cpu == c)
    ensures Local(s, Dispatched(s, c, pick), c) && Dispatched(s, c, pick).cpus[c].runq == s.cpus[c].runq
    ensures pick.Some? && s.threads[pick.id].state == Ready ==> Dispatched(s, c, pick).cpus[c].current == pick
    ensures forall t | t in s.threads && s.threads[t].state == Zombie && pick != Some(t) && s.cpus[c].idle != Some(t) ::
              Dispatched(s, c, pick).threads[t].state == Zombie
  {
    assert CpuOK(s, c, pick);
  }

  /** `schedule_locked` keeps the invariant, and every thread waiting in the queue comes closer to its turn. */
  lemma ScheduledGood(s: Sched, c: nat, enqueue: bool)
    requires Good(s) && c < |s.cpus| && (enqueue || !CurrentIs(s, c, Running))
    requires forall t | t in s.threads :: s.threads[t].proc in s.members
    ensures Good(Scheduled(s, c, enqueue)) && Local(s, Scheduled(s, c, enqueue), c)
    ensures forall k | 0 <= k < |s.cpus[c].runq| :: Served(Scheduled(s, c, enqueue), c, s.cpus[c].runq[k], k - 1)
  {
    hide Picked, Dispatched, Requeued, Retired, Inv;
    BeforePick(s, c, enqueue);
    var s2 := Requeued(Retired(s, c), c, enqueue);
    InvMembers(s2, None);
    var m := PickedInv(s2, c);
    var (s3, pick) := Picked(s2, c);
    AfterPick(s2, c, s3, pick, m);
    DispatchedInv(s3, c, pick);
    DispatchedLocal(s3, c, pick);
    LocalSettled(s, Dispatched(s3, c, pick), c);
    forall k | 0 <= k < |s.cpus[c].runq|
      ensures Served(Dispatched(s3, c, pick), c, s.cpus[c].runq[k], k - 1)
    {
      ServedNext(s2, c, s3, pick, m, k);
    }
  }

  lemma ServedNext(s2: Sched, c: nat, s3: Sched, pick: Opt, m: nat, k: nat)
    requires Inv(s2, None) && c < |s2.cpus| && k < |s2.cpus[c].runq| && PickedOK(s2, c, s3, pick, m) && Inv(s3, pick)
    requires pick.Some? ==> s3.threads[pick.id].cpu == c && s3.threads[pick.id].state == Ready
    ensures Served(Dispatched(s3, c, pick), c, s2.cpus[c].runq[k], k - 1)
  {
    var q, s' := s2.cpus[c].runq, Dispatched(s3, c, pick);
    assert CpuOK(s2, c, None) && q[k] in q;
    DispatchedLocal(s3, c, pick);
    NotIdle(s2, s3, c, pick, m, q[k]);
    hide Inv, Dispatched;
    if k < m {
      assert q[k] in q[..m];
      assert PickedThread(s2, c, s3, pick, m, q[k]);
    } else {
      assert s'.cpus[c].runq[k - m] == q[k];
    }
  }

  lemma NotIdle(s2: Sched, s3: Sched, c: nat, pick: Opt, m: nat, t: nat)
    requires Inv(s2, None) && c < |s2.cpus| && t in s2.cpus[c].runq && PickedOK(s2, c, s3, pick, m) && Inv(s3, pick)
    ensures t in s2.threads && t in s3.threads && s3.threads[t].proc == s2.threads[t].proc && s3.cpus[c].idle != Some(t)
    ensures Dispatched(s3, c, pick).dying == s3.dying && Dispatched(s3, c, pick).threads.Keys == s3.threads.Keys
    ensures Dispatched(s3, c, pick).threads[t].proc == s3.threads[t].proc
  {
    assert CpuOK(s2, c, None) && CpuOK(s3, c, pick);
    assert PickedThread(s2, c, s3, pick, m, t);
  }

  /** The threads a call of `schedule_locked` looks at, in order: the queue, then the current thread if it may go on. */
  function Line(s: Sched, c: nat, enqueue: bool): seq<nat>
    requires c < |s.cpus|
  {
    var cur := s.cpus[c].current;
    s.cpus[c].runq +
    if enqueue && cur.Some? && cur.id in s.threads && !s.threads[cur.id].idle
       && s.threads[cur.id].state == Running && s.threads[cur.id].proc !in s.dying then [cur.id] else []
  }

  /**
   * What a call of `schedule_locked` does: the first `m` threads of the line,
   * all of dying processes, are finished; the next one, of a process that is
   * not dying, runs; without one the CPU is on its idle thread.
   */
  ghost predicate Turned(s: Sched, s': Sched, c: nat, enqueue: bool, m: nat) {
    && c < |s.cpus| == |s'.cpus| && s'.threads.Keys == s.threads.Keys && s'.dying == s.dying
    && var line := Line(s, c, enqueue);
    && m <= |line| && (forall t | t in line :: t in s.threads)
    && (forall k | 0 <= k < m :: s.threads[line[k]].proc in s.dying && s'.threads[line[k]].state == Zombie)
    && (if m < |line| then
          && s.threads[line[m]].proc !in s.dying && s'.threads[line[m]].state == Running
          && s'.cpus[c].current == Some(line[m]) && s'.cpus[c].runq == line[m + 1..]
        else
          && s'.cpus[c].runq == [] && s'.cpus[c].current == (if s.cpus[c].idle.Some? then s.cpus[c].idle else s.cpus[c].current)
          && (s.cpus[c].idle.Some? ==> s.cpus[c].idle.id in s.threads && s'.threads[s.cpus[c].idle.id].state == Running))
    && (forall k | m < k < |line| :: s'.threads[line[k]].state == Ready)
  }

  predicate Ends(s: Sched, t: nat)
    requires t in s.threads
  {
    s.threads[t].state == Zombie || (s.threads[t].state == Running && s.threads[t].proc in s.dying)
  }

  /** A current thread that is finished or of a dying process ends; threads neither in line nor current, nor the CPU's idle thread, do not change. */
  ghost predicate Aside(s: Sched, s': Sched, c: nat, enqueue: bool) {
    && c < |s.cpus| && s'.threads.Keys == s.threads.Keys
    && (forall t | t in s.threads :: s'.threads[t].proc == s.threads[t].proc && s'.threads[t].idle == s.threads[t].idle)
    && var cur := s.cpus[c].current;
    && (cur.Some? && cur.id in s.threads && !s.threads[cur.id].idle && Ends(s, cur.id) ==> s'.threads[cur.id].state == Zombie)
    && (forall t | t in s.threads && t !in Line(s, c, enqueue) && cur != Some(t) && s.cpus[c].idle != Some(t) :: s'.threads[t] == s.threads[t])
  }

  lemma RequeuedIs(s: Sched, c: nat, enqueue: bool)
    requires Good(s) && c < |s.cpus| && forall t | t in s.threads :: s.threads[t].proc in s.members
    ensures var s2 := Requeued(Retired(s, c), c, enqueue);
            && |s2.cpus| == |s.cpus| && s2.dying == s.dying && Aside(s, s2, c, enqueue)
            && s2.cpus[c].runq == Line(s, c, enqueue) && s2.cpus[c].idle == s.cpus[c].idle && s2.cpus[c].current == s.cpus[c].current
  {
    assert CpuOK(s, c, None);
    if CurrentIs(s, c, Running) && s.threads[s.cpus[c].current.id].proc in s.dying {
      assert s.dying + {s.threads[s.cpus[c].current.id].proc} == s.dying;
    }
  }

  lemma DispatchedIs(s: Sched, c: nat, pick: Opt)
    requires Inv(s, pick) && c < |s.cpus| && (pick.Some? ==> s.threads[pick.id].state == Ready)
    ensures var s', idle := Dispatched(s, c, pick), s.cpus[c].idle;
            && |s'.cpus| == |s.cpus| && s'.threads.Keys == s.threads.Keys && s'.dying == s.dying && s'.cpus[c].runq == s.cpus[c].runq
            && s'.cpus[c].current == (if pick.Some? then pick else if idle.Some? then idle else s.cpus[c].current)
            && (pick.Some? ==> s'.threads[pick.id].state == Running)
            && (pick.None? && idle.Some? ==> idle.id in s.threads && s'.threads[idle.id].state == Running)
            && (forall t | t in s.threads :: s'.threads[t].proc == s.threads[t].proc && s'.threads[t].idle == s.threads[t].idle)
            && (forall t | t in s.threads && pick != Some(t) && idle != Some(t) && s.cpus[c].current != Some(t) :: s'.threads[t] == s.threads[t])
            && (forall t | t in s.threads && pick != Some(t) && idle != Some(t) && s.threads[t].state == Zombie :: s'.threads[t] == s.threads[t])
            && (pick.Some? ==> forall t | t in s.threads && pick != Some(t) :: s'.threads[t] == s.threads[t])
  {
    assert CpuOK(s, c, pick);
  }

  /** The threads of the line, after the loop and the switch. */
  lemma LineAfter(s2: Sched, c: nat, s3: Sched, pick: Opt, m: nat, k: nat)
    requires Inv(s2, None) && c < |s2.cpus| && k < |s2.cpus[c].runq| && PickedOK(s2, c, s3, pick, m) && Inv(s3, pick)
    requires pick.Some? ==> s3.threads[pick.id].state == Ready
    ensures var q, s' := s2.cpus[c].runq, Dispatched(s3, c, pick);
            && q[k] in s2.threads && q[k] in s'.threads
            && (pick != Some(q[k]) && k < m ==> s2.threads[q[k]].proc in s2.dying && s'.threads[q[k]].state == Zombie)
            && (k >= m ==> s'.threads[q[k]].state == Ready)
  {
    var q := s2.cpus[c].runq;
    assert CpuOK(s2, c, None) && CpuOK(s3, c, pick) && q[k] in q;
    DispatchedIs(s3, c, pick);
    hide Inv, Dispatched;
    assert PickedThread(s2, c, s3, pick, m, q[k]);
    assert k < m ==> q[k] in q[..m];
    assert k >= m ==> q[k] !in q[..m];
  }

  /** The call from the loop on, when the current thread is not running any more. */
  lemma PickedTurns(s2: Sched, c: nat, s3: Sched, pick: Opt, n: nat) returns (m: nat)
    requires Inv(s2, None) && c < |s2.cpus| && PickedOK(s2, c, s3, pick, n) && Inv(s3, pick)
    requires pick.Some? ==> s3.threads[pick.id].state == Ready
    ensures Turned(s2, Dispatched(s3, c, pick), c, false, m)
  {
    DispatchedIs(s3, c, pick);
    QueueDistinct(s2, c);
    hide Dispatched, Inv;
    m := if pick.Some? then n - 1 else n;
    var q, s' := s2.cpus[c].runq, Dispatched(s3, c, pick);
    forall k | 0 <= k < |q|
      ensures q[k] in s2.threads && (k < m ==> s2.threads[q[k]].proc in s2.dying && s'.threads[q[k]].state == Zombie)
      ensures k > m ==> s'.threads[q[k]].state == Ready
    {
      LineAfter(s2, c, s3, pick, n, k);
    }
  }

  lemma QueueDistinct(s: Sched, c: nat)
    requires Inv(s, None) && c < |s.cpus|
    ensures Distinct(s.cpus[c].runq)
  {
    assert CpuOK(s, c, None);
  }

  lemma PickedAside(s2: Sched, c: nat, s3: Sched, pick: Opt, n: nat)
    requires Inv(s2, None) && c < |s2.cpus| && PickedOK(s2, c, s3, pick, n) && Inv(s3, pick)
    requires pick.Some? ==> s3.threads[pick.id].state == Ready
    ensures var s' := Dispatched(s3, c, pick);
            && s'.threads.Keys == s2.threads.Keys
            && (forall t | t in s2.threads :: s'.threads[t].proc == s2.threads[t].proc && s'.threads[t].idle == s2.threads[t].idle)
            && (forall t | t in s2.threads && t !in s2.cpus[c].runq && s2.cpus[c].idle != Some(t)
                           && (s2.cpus[c].current != Some(t) || s2.threads[t].state == Zombie) :: s'.threads[t] == s2.threads[t])
  {
    DispatchedIs(s3, c, pick);
    hide Dispatched, Inv;
    forall t | t in s2.threads
      ensures s3.threads[t].proc == s2.threads[t].proc && s3.threads[t].idle == s2.threads[t].idle
      ensures t !in s2.cpus[c].runq ==> s3.threads[t] == s2.threads[t]
    {
      assert PickedThread(s2, c, s3, pick, n, t);
    }
  }

  /** `schedule_locked` as a whole. */
  lemma ScheduledIs(s: Sched, c: nat, enqueue: bool) returns (m: nat)
    requires Good(s) && c < |s.cpus| && (enqueue || !CurrentIs(s, c, Running))
    requires forall t | t in s.threads :: s.threads[t].proc in s.members
    ensures Turned(s, Scheduled(s, c, enqueue), c, enqueue, m) && Aside(s, Scheduled(s, c, enqueue), c, enqueue)
  {
    RequeuedIs(s, c, enqueue);
    IdleApart(s, c);
    hide Picked, Dispatched, Requeued, Retired, Inv, Settled, Turned, Aside, Line, CurrentIs;
    BeforePick(s, c, enqueue);
    var s2 := Requeued(Retired(s, c), c, enqueue);
    InvMembers(s2, None);
    var n := PickedInv(s2, c);
    var (s3, pick) := Picked(s2, c);
    AfterPick(s2, c, s3, pick, n);
    m := PickedTurns(s2, c, s3, pick, n);
    PickedAside(s2, c, s3, pick, n);
    hide PickedOK;
    TurnedFrom(s, s2, Dispatched(s3, c, pick), c, enqueue, m);
    AsideFrom(s, s2, Dispatched(s3, c, pick), c, enqueue);
  }

  /** A process that was dying when the call began has no thread dispatched. */
  lemma NoneOfTheDying(s: Sched, s': Sched, c: nat, enqueue: bool, m: nat)
    requires Good(s) && c < |s.cpus| && (enqueue || !CurrentIs(s, c, Running))
    requires Turned(s, s', c, enqueue, m) && Aside(s, s', c, enqueue)
    ensures s'.cpus[c].current.Some? ==>
              var t := s'.cpus[c].current.id;
              t in s'.threads && (s'.threads[t].idle || s'.threads[t].state == Zombie || s'.threads[t].proc !in s.dying)
  {
    assert CpuOK(s, c, None) && !CurrentIs(s, c, Ready);
    hide Inv;
    assert m < |Line(s, c, enqueue)| ==> Line(s, c, enqueue)[m] in Line(s, c, enqueue);
    IdleApart(s, c);
  }

  lemma IdleApart(s: Sched, c: nat)
    requires Good(s) && c < |s.cpus|
    ensures s.cpus[c].idle.Some? ==> s.cpus[c].idle.id in s.threads && s.threads[s.cpus[c].idle.id].idle
    ensures forall t | t in s.cpus[c].runq :: t in s.threads && s.threads[t].state == Ready
  {
    assert CpuOK(s, c, None);
  }

  lemma TurnedFrom(s: Sched, s2: Sched, s': Sched, c: nat, enqueue: bool, m: nat)
    requires c < |s.cpus| == |s2.cpus| && s2.dying == s.dying && Aside(s, s2, c, enqueue) && s2.cpus[c].runq == Line(s, c, enqueue)
    requires s2.cpus[c].idle == s.cpus[c].idle && s2.cpus[c].current == s.cpus[c].current && Turned(s2, s', c, false, m)
    ensures Turned(s, s', c, enqueue, m)
  {
    assert Line(s2, c, false) == s2.cpus[c].runq;
  }

  lemma AsideFrom(s: Sched, s2: Sched, s': Sched, c: nat, enqueue: bool)
    requires c < |s.cpus| == |s2.cpus| && Aside(s, s2, c, enqueue) && s2.cpus[c].runq == Line(s, c, enqueue)
    requires s2.cpus[c].idle == s.cpus[c].idle && s2.cpus[c].current == s.cpus[c].current
    requires s.cpus[c].idle.Some? ==> s.cpus[c].idle.id in s.threads && s.threads[s.cpus[c].idle.id].idle
    requires s'.threads.Keys == s2.threads.Keys
    requires forall t | t in s2.threads :: s'.threads[t].proc == s2.threads[t].proc && s'.threads[t].idle == s2.threads[t].idle
    requires forall t | t in s2.threads && t !in s2.cpus[c].runq && s2.cpus[c].idle != Some(t)
                        && (s2.cpus[c].current != Some(t) || s2.threads[t].state == Zombie) :: s'.threads[t] == s2.threads[t]
    requires forall t | t in s.cpus[c].runq :: t in s.threads && s.threads[t].state == Ready
    ensures Aside(s, s', c, enqueue)
  {
    hide Line;
    var cur := s.cpus[c].current;
    LineHas(s, c, enqueue);
  }

  lemma LineHas(s: Sched, c: nat, enqueue: bool)
    requires c < |s.cpus| && forall t | t in s.cpus[c].runq :: t in s.threads && s.threads[t].state == Ready
    ensures var cur := s.cpus[c].current;
            cur.Some? && cur.id in s.threads && Ends(s, cur.id) ==> cur.id !in Line(s, c, enqueue)
  {
  }

  /** `thread_alloc`: a new thread of a process that is not dying. It belongs to no queue yet; `c` is the CPU that its
      creator has chosen. */
  function Allocated(s: Sched, c: nat, p: nat, t: nat): Sched
    requires p in s.members
  {
    if p in s.dying then s
    else s.(threads := s.threads[t := Tcb(Ready, p, c, false)], members := s.members[p := [t] + s.members[p]], made := s.made + {t})
  }

  lemma AllocatedGood(s: Sched, c: nat, p: nat, t: nat)
    requires Good(s) && c < |s.cpus| && t !in s.threads && p in s.members
    ensures Good(Allocated(s, c, p, t))
  {
    var s' := Allocated(s, c, p, t);
    forall d: nat | d < |s'.cpus|
      ensures CpuOK(s', d, None) && !CurrentIs(s', d, Ready)
    {
      assert CpuOK(s, d, None) && !CurrentIs(s, d, Ready);
      assert t !in s.cpus[d].runq && t !in s.cpus[d].reap;
    }
    forall u | u in s'.threads
      ensures ThreadOK(s', u, None)
    {
      AllocatedThread(s, c, p, t, u);
    }
    forall p' | p' in s'.members
      ensures MembersOK(s', p')
    {
      assert MembersOK(s, p');
    }
  }

  lemma AllocatedThread(s: Sched, c: nat, p: nat, t: nat, u: nat)
    requires Good(s) && c < |s.cpus| && t !in s.threads && p in s.members && u in Allocated(s, c, p, t).threads
    ensures ThreadOK(Allocated(s, c, p, t), u, None)
  {
    assert u != t ==> ThreadOK(s, u, None);
    assert CpuOK(s, c, None);
    assert t !in s.cpus[c].runq && s.cpus[c].current != Some(t);
  }

  /** The second half of `sched_create_thread_on_cpu`: the new thread goes to the end of its queue. */
  function Launched(s: Sched, t: nat): Sched
    requires t in s.threads && s.threads[t].cpu < |s.cpus|
  {
    var c := s.threads[t].cpu;
    var s1 := Pushed(s.(made := s.made - {t}), c, t);
    WithCpu(s1, c, s1.cpus[c].(load := s1.cpus[c].load + 1))
  }

  lemma LaunchedGood(s: Sched, t: nat)
    requires Good(s) && t in s.made && t in s.threads && s.threads[t].cpu < |s.cpus|
    ensures Good(Launched(s, t))
  {
    var s' := Launched(s, t);
    assert ThreadOK(s, t, None);
    forall d: nat | d < |s'.cpus|
      ensures CpuOK(s', d, None) && !CurrentIs(s', d, Ready)
    {
      LaunchedCpu(s, t, d);
    }
    forall u | u in s'.threads
      ensures ThreadOK(s', u, None)
    {
      assert ThreadOK(s, u, None);
    }
    forall p | p in s'.members
      ensures MembersOK(s', p)
    {
      assert MembersOK(s, p);
    }
  }

  lemma LaunchedCpu(s: Sched, t: nat, d: nat)
    requires Good(s) && t in s.made && t in s.threads && s.threads[t].cpu < |s.cpus| && d < |s.cpus|
    ensures CpuOK(Launched(s, t), d, None) && !CurrentIs(Launched(s, t), d, Ready)
  {
    assert ThreadOK(s, t, None) && CpuOK(s, d, None) && !CurrentIs(s, d, Ready);
  }

  /** `sched_process_create`: a process without threads. */
  function Spawned(s: Sched, p: nat): Sched {
    s.(members := s.members[p := []], dying := s.dying - {p})
  }

  lemma SpawnedGood(s: Sched, p: nat)
    requires Good(s) && p !in s.members
    ensures Good(Spawned(s, p))
  {
    var s' := Spawned(s, p);
    forall d: nat | d < |s'.cpus|
      ensures CpuOK(s', d, None) && !CurrentIs(s', d, Ready)
    {
      assert CpuOK(s, d, None) && !CurrentIs(s, d, Ready);
    }
    forall u | u in s'.threads
      ensures ThreadOK(s', u, None)
    {
      assert ThreadOK(s, u, None);
    }
    forall p' | p' in s'.members
      ensures MembersOK(s', p')
    {
      assert p' != p ==> MembersOK(s, p');
    }
  }

  /** The current thread finishes; the rest of its time until the next `schedule_locked` it spends halted. */
  function Exited(s: Sched, c: nat): Sched
    requires c < |s.cpus| && forall t | t in s.threads :: s.threads[t].proc in s.members
  {
    if CurrentIs(s, c, Running) then Finished(s, c, s.cpus[c].current.id) else s
  }

  lemma ExitedGood(s: Sched, c: nat)
    requires Good(s) && c < |s.cpus| && forall t | t in s.threads :: s.threads[t].proc in s.members
    ensures Good(Exited(s, c)) && !CurrentIs(Exited(s, c), c, Running) && Local(s, Exited(s, c), c)
  {
    assert CpuOK(s, c, None);
    if CurrentIs(s, c, Running) {
      FinishedInv(s, c, s.cpus[c].current.id, None);
      LocalSettled(s, Exited(s, c), c);
    }
  }

  /** A signal ends a process; its threads notice when they are next looked at. */
  function Killed(s: Sched, p: nat): Sched {
    s.(dying := s.dying + {p})
  }

  lemma KilledGood(s: Sched, p: nat)
    requires Good(s)
    ensures Good(Killed(s, p))
  {
    var s' := Killed(s, p);
    forall d: nat | d < |s'.cpus|
      ensures CpuOK(s', d, None) && !CurrentIs(s', d, Ready)
    {
      assert CpuOK(s, d, None) && !CurrentIs(s, d, Ready);
    }
    forall u | u in s'.threads
      ensures ThreadOK(s', u, None)
    {
      assert ThreadOK(s, u, None);
    }
    forall p' | p' in s'.members
      ensures MembersOK(s', p')
    {
      assert MembersOK(s, p');
    }
  }

  /** `sched_reap_current_cpu`: every finished thread but the current one is freed. */
  function Reaped(s: Sched, c: nat): Sched
    requires c < |s.cpus|
  {
    var cpu := s.cpus[c];
    var stays := cpu.current.Some? && cpu.current.id in cpu.reap;
    var gone := (set t | t in cpu.reap) - (if stays then {cpu.current.id} else {});
    WithCpu(s.(threads := s.threads - gone), c, cpu.(reap := if stays then [cpu.current.id] else []))
  }

  /** No CPU is left running, and no queue holding, a freed thread. */
  lemma ReapedGood(s: Sched, c: nat)
    requires Good(s) && c < |s.cpus|
    ensures Good(Reaped(s, c))
  {
    var s' := Reaped(s, c);
    assert CpuOK(s, c, None);
    forall t | t in s.made
      ensures t in s'.threads
    {
      assert ThreadOK(s, t, None);
    }
    forall d: nat | d < |s'.cpus|
      ensures CpuOK(s', d, None) && !CurrentIs(s', d, Ready)
    {
      assert CpuOK(s, d, None) && !CurrentIs(s, d, Ready);
      assert s.cpus[d].idle.Some? ==> ThreadOK(s, s.cpus[d].idle.id, None);
    }
    forall u | u in s'.threads
      ensures ThreadOK(s', u, None)
    {
      assert ThreadOK(s, u, None);
    }
    forall p | p in s'.members
      ensures MembersOK(s', p)
    {
      assert MembersOK(s, p);
    }
  }

  // Runs

  datatype Op =
    | Tick(c: nat)
    | SysExit(c: nat)
    | ThreadExit(c: nat)
    | Spawn(p: nat)
    | Allocate(c: nat, p: nat, t: nat)
    | Launch(t: nat)
    | Kill(p: nat)
    | Reap(c: nat)

  predicate Schedules(op: Op, c: nat) {
    op == Tick(c) || op == SysExit(c)
  }

  /** One locked section after another, in any order over all CPUs. */
  ghost predicate Step(s: Sched, s': Sched, op: Op)
    requires Good(s)
  {
    InvMembers(s, None);
    match op
    case Tick(c) => c < |s.cpus| && s' == Scheduled(s, c, true)
    case SysExit(c) => c < |s.cpus| && (ExitedGood(s, c); InvMembers(Exited(s, c), None); s' == Scheduled(Exited(s, c), c, false))
    case ThreadExit(c) => c < |s.cpus| && s' == Exited(s, c)
    case Spawn(p) => p !in s.members && s' == Spawned(s, p)
    case Allocate(c, p, t) => c < |s.cpus| && t !in s.threads && p in s.members && s' == Allocated(s, c, p, t)
    case Launch(t) => t in s.made && t in s.threads && s' == Launched(s, t)
    case Kill(p) => s' == Killed(s, p)
    case Reap(c) => c < |s.cpus| && s' == Reaped(s, c)
  }

  lemma StepGood(s: Sched, s': Sched, op: Op)
    requires Good(s) && Step(s, s', op)
    ensures Good(s') && |s'.cpus| == |s.cpus|
  {
    hide Inv, Settled, Picked, Dispatched, Requeued, Retired, Finished;
    InvMembers(s, None);
    match op
    case Tick(c) => ScheduledGood(s, c, true);
    case SysExit(c) =>
      ExitedGood(s, c);
      InvMembers(Exited(s, c), None);
      ScheduledGood(Exited(s, c), c, false);
    case ThreadExit(c) => ExitedGood(s, c);
    case Spawn(p) => SpawnedGood(s, p);
    case Allocate(c, p, t) => AllocatedGood(s, c, p, t);
    case Launch(t) => LaunchedGood(s, t);
    case Kill(p) => KilledGood(s, p);
    case Reap(c) => ReapedGood(s, c);
  }

  ghost predicate Run(ss: seq<Sched>, ops: seq<Op>) {
    && |ss| == |ops| + 1 && Good(ss[0])
    && forall i {:trigger ops[i]} | 0 <= i < |ops| :: Good(ss[i]) ==> Step(ss[i], ss[i + 1], ops[i])
  }

  lemma {:induction false} RunGood(ss: seq<Sched>, ops: seq<Op>, n: nat)
    requires Run(ss, ops) && n <= |ops|
    ensures Good(ss[n]) && |ss[n].cpus| == |ss[0].cpus|
  {
    hide Good, Step;
    if n > 0 {
      RunGood(ss, ops, n - 1);
      assert ops[n - 1] == ops[n - 1];
      StepGood(ss[n - 1], ss[n], ops[n - 1]);
    }
  }

  ghost predicate Live(s: Sched, t: nat) {
    t in s.threads && !s.threads[t].idle && s.threads[t].state != Zombie && t !in s.made
  }

  ghost predicate InQueue(s: Sched, c: nat, i: nat, t: nat) {
    c < |s.cpus| && i < |s.cpus[c].runq| && s.cpus[c].runq[i] == t
  }

  ghost predicate OnCpu(s: Sched, c: nat, t: nat) {
    c < |s.cpus| && s.cpus[c].current == Some(t)
  }

  /** Every live thread, once launched, is either ready and in one place of one queue and on no CPU, or runs on one CPU and is in
      no queue. */
  lemma EachThreadOnce(s: Sched, t: nat) returns (c: nat, i: nat)
    requires Good(s) && Live(s, t)
    ensures s.threads[t].state == Ready ==> InQueue(s, c, i, t) && forall d, j :: InQueue(s, d, j, t) ==> d == c && j == i
    ensures s.threads[t].state == Ready ==> forall d :: !OnCpu(s, d, t)
    ensures s.threads[t].state == Running ==> OnCpu(s, c, t) && forall d :: OnCpu(s, d, t) ==> d == c
    ensures s.threads[t].state == Running ==> forall d, j :: !InQueue(s, d, j, t)
  {
    assert ThreadOK(s, t, None);
    c, i := s.threads[t].cpu, 0;
    if s.threads[t].state == Ready {
      i :| 0 <= i < |s.cpus[c].runq| && s.cpus[c].runq[i] == t;
    }
    forall d: nat, j: nat | InQueue(s, d, j, t)
      ensures s.threads[t].state == Ready && d == c && (s.threads[t].state == Ready ==> j == i)
    {
      assert CpuOK(s, d, None) && t in s.cpus[d].runq;
    }
    forall d | OnCpu(s, d, t)
      ensures d == c && s.threads[t].state == Running
    {
      assert CpuOK(s, d, None) && !CurrentIs(s, d, Ready);
    }
  }

  /** The load counter is the number of live threads launched on the CPU. */
  lemma LoadIsExact(s: Sched, c: nat)
    requires Good(s) && c < |s.cpus|
    ensures s.cpus[c].load == |set t | t in s.threads && Live(s, t) && s.threads[t].cpu == c|
  {
    assert CpuOK(s, c, None);
    var q, cur := s.cpus[c].runq, s.cpus[c].current;
    var live := set t | t in s.threads && Live(s, t) && s.threads[t].cpu == c;
    SetOfDistinct(q);
    var busy := if CurrentIs(s, c, Running) then {cur.id} else {};
    assert Elements(q) !! busy;
    forall t
      ensures t in live <==> t in Elements(q) + busy
    {
      LiveOnCpu(s, c, t);
    }
    assert live == Elements(q) + busy;
  }

  lemma LiveOnCpu(s: Sched, c: nat, t: nat)
    requires Good(s) && c < |s.cpus|
    ensures t in s.threads && Live(s, t) && s.threads[t].cpu == c <==>
              t in s.cpus[c].runq || (CurrentIs(s, c, Running) && s.cpus[c].current == Some(t))
  {
    assert CpuOK(s, c, None);
    if t in s.threads {
      assert ThreadOK(s, t, None);
    }
  }

  // Waiting time

  /** Calls of `schedule_locked` on CPU `c` among steps `i` to `j`. */
  function Turns(ops: seq<Op>, c: nat, i: nat, j: nat): nat
    requires i <= j <= |ops|
  {
    if i == j then 0 else Turns(ops, c, i, j - 1) + (if Schedules(ops[j - 1], c) then 1 else 0)
  }

  ghost predicate HadTurn(s: Sched, c: nat, t: nat) {
    OnCpu(s, c, t) || (t in s.threads && s.threads[t].state == Zombie && s.threads[t].proc in s.dying)
  }

  ghost predicate QueuedWithin(s: Sched, c: nat, t: nat, k: int) {
    exists i: nat :: i <= k && InQueue(s, c, i, t)
  }

  /** A step that is not a turn on `c` leaves the thread where it is; a turn moves it on. */
  lemma StepServes(s: Sched, s': Sched, op: Op, c: nat, t: nat, k: nat)
    requires Good(s) && Step(s, s', op) && InQueue(s, c, k, t)
    ensures HadTurn(s', c, t) || QueuedWithin(s', c, t, if Schedules(op, c) then k - 1 else k)
  {
    hide Inv, Settled, Picked, Dispatched, Requeued, Retired, Finished;
    InvMembers(s, None);
    match op
    case Tick(d) =>
      ScheduledGood(s, d, true);
      if d == c {
        assert Served(s', c, s.cpus[c].runq[k], k - 1);
        ServedIsQueued(s', c, t, k - 1);
      } else {
        assert InQueue(s', c, k, t);
      }
    case SysExit(d) =>
      ExitedGood(s, d);
      InvMembers(Exited(s, d), None);
      ExitedQueue(s, d);
      ScheduledGood(Exited(s, d), d, false);
      if d == c {
        assert Served(s', c, Exited(s, d).cpus[c].runq[k], k - 1);
        ServedIsQueued(s', c, t, k - 1);
      } else {
        assert InQueue(s', c, k, t);
      }
    case ThreadExit(d) =>
      ExitedQueue(s, d);
      assert InQueue(s', c, k, t);
    case Spawn(p) => assert InQueue(s', c, k, t);
    case Allocate(d, p, u) => assert InQueue(s', c, k, t);
    case Launch(u) => assert InQueue(s', c, k, t);
    case Kill(p) => assert InQueue(s', c, k, t);
    case Reap(d) => assert InQueue(s', c, k, t);
  }

  lemma ServedIsQueued(s: Sched, c: nat, t: nat, k: int)
    requires Served(s, c, t, k)
    ensures HadTurn(s, c, t) || QueuedWithin(s, c, t, k)
  {
    if j :| 0 <= j <= k && j < |s.cpus[c].runq| && s.cpus[c].runq[j] == t {
      assert InQueue(s, c, j, t);
    }
  }

  lemma ExitedQueue(s: Sched, c: nat)
    requires c < |s.cpus| && forall t | t in s.threads :: s.threads[t].proc in s.members
    ensures |Exited(s, c).cpus| == |s.cpus| && forall d | 0 <= d < |s.cpus| :: Exited(s, c).cpus[d].runq == s.cpus[d].runq
  {
  }

  /** A thread at position `k` of a queue is dispatched, or finished because its process is dying, before `k + 1` calls
      of `schedule_locked` on that CPU are over, whatever else happens in between. */
  lemma {:induction false} WaitsAtMostItsPosition(ss: seq<Sched>, ops: seq<Op>, i: nat, j: nat, c: nat, t: nat, k: nat)
    requires Run(ss, ops) && i <= j <= |ops| && InQueue(ss[i], c, k, t)
    ensures (exists m :: i < m <= j && HadTurn(ss[m], c, t)) || QueuedWithin(ss[j], c, t, k - Turns(ops, c, i, j))
    ensures Turns(ops, c, i, j) > k ==> exists m :: i < m <= j && HadTurn(ss[m], c, t)
  {
    hide Good, Step, HadTurn, InQueue;
    if i < j {
      WaitsAtMostItsPosition(ss, ops, i, j - 1, c, t, k);
      if QueuedWithin(ss[j - 1], c, t, k - Turns(ops, c, i, j - 1)) {
        var p: nat :| p <= k - Turns(ops, c, i, j - 1) && InQueue(ss[j - 1], c, p, t);
        RunStep(ss, ops, j - 1);
        StepServes(ss[j - 1], ss[j], ops[j - 1], c, t, p);
      }
    }
  }

  // Dying processes

  ghost predicate Doomed(s: Sched, t: nat) {
    t in s.threads && s.threads[t].proc in s.dying
  }

  ghost predicate Ended(s: Sched, t: nat) {
    t in s.threads && s.threads[t].state == Zombie
  }

  /** Not running, on any CPU. */
  ghost predicate Off(s: Sched, t: nat) {
    t in s.threads && s.threads[t].state != Running && forall d :: !OnCpu(s, d, t)
  }

  lemma QueuedIsOff(s: Sched, c: nat, k: nat, t: nat)
    requires Good(s) && InQueue(s, c, k, t)
    ensures Off(s, t) && s.threads[t].cpu == c && !s.threads[t].idle && t in s.cpus[c].runq && s.cpus[c].idle != Some(t) && t !in s.made
    ensures s.threads[t].state == Ready && s.threads[t].proc in s.members
  {
    assert CpuOK(s, c, None) && t in s.cpus[c].runq;
    assert ThreadOK(s, t, None);
    forall d: nat
      ensures !OnCpu(s, d, t)
    {
      assert d < |s.cpus| ==> CpuOK(s, d, None) && !CurrentIs(s, d, Ready);
    }
  }

  /** A turn ends a thread of a dying process, or moves it on; it is not dispatched. */
  lemma DoomedTurn(s: Sched, c: nat, enqueue: bool, t: nat, k: nat)
    requires Good(s) && InQueue(s, c, k, t) && Doomed(s, t) && (enqueue || !CurrentIs(s, c, Running))
    requires forall u | u in s.threads :: s.threads[u].proc in s.members
    ensures var s' := Scheduled(s, c, enqueue); Doomed(s', t) && Off(s', t) && (Ended(s', t) || QueuedWithin(s', c, t, k - 1))
  {
    hide Scheduled, Good, Turned, Aside, CurrentIs, Off;
    QueuedIsOff(s, c, k, t);
    ScheduledGood(s, c, enqueue);
    var m := ScheduledIs(s, c, enqueue);
    DoomedTurned(s, Scheduled(s, c, enqueue), c, enqueue, t, k, m);
  }

  lemma DoomedTurned(s: Sched, s': Sched, c: nat, enqueue: bool, t: nat, k: nat, m: nat)
    requires InQueue(s, c, k, t) && Doomed(s, t) && Off(s, t) && s.cpus[c].idle != Some(t) && s.threads[t].cpu == c && Good(s')
    requires Turned(s, s', c, enqueue, m) && Aside(s, s', c, enqueue) && Local(s, s', c)
    ensures Doomed(s', t) && Off(s', t) && (Ended(s', t) || QueuedWithin(s', c, t, k - 1))
  {
    hide Good;
    assert Line(s, c, enqueue)[k] == t;
    OnlyThere(s', t);
    assert !OnCpu(s, c, t);
    if k > m {
      assert InQueue(s', c, k - m - 1, t);
      QueuedIsOff(s', c, k - m - 1, t);
    }
  }

  lemma OnlyThere(s: Sched, t: nat)
    requires Good(s) && t in s.threads
    ensures forall d :: OnCpu(s, d, t) ==> d == s.threads[t].cpu
  {
    forall d | OnCpu(s, d, t)
      ensures d == s.threads[t].cpu
    {
      assert CpuOK(s, d, None);
    }
  }

  lemma DoomedStep(s: Sched, s': Sched, op: Op, c: nat, t: nat, k: nat)
    requires Good(s) && Step(s, s', op) && InQueue(s, c, k, t) && Doomed(s, t)
    ensures Doomed(s', t) && Off(s', t)
    ensures Ended(s', t) || QueuedWithin(s', c, t, if Schedules(op, c) then k - 1 else k)
  {
    hide Inv, Settled, Scheduled, Finished, Off;
    InvMembers(s, None);
    QueuedIsOff(s, c, k, t);
    StepGood(s, s', op);
    if op == Tick(c) {
      DoomedTurn(s, c, true, t, k);
    } else if op == SysExit(c) {
      ExitedGood(s, c);
      InvMembers(Exited(s, c), None);
      ExitedElsewhere(s, c, t);
      DoomedTurn(Exited(s, c), c, false, t, k);
    } else {
      StepElsewhere(s, s', op, c, t, k);
      QueuedIsOff(s', c, k, t);
    }
  }

  lemma ExitedElsewhere(s: Sched, d: nat, t: nat)
    requires d < |s.cpus| && t in s.threads && !OnCpu(s, d, t) && forall u | u in s.threads :: s.threads[u].proc in s.members
    ensures var s' := Exited(s, d);
            && t in s'.threads && s'.threads[t] == s.threads[t] && s.dying <= s'.dying && |s'.cpus| == |s.cpus|
            && forall c | 0 <= c < |s.cpus| :: s'.cpus[c].runq == s.cpus[c].runq
  {
  }

  /** A step that is not a turn on `c` leaves a queued thread alone. */
  lemma StepElsewhere(s: Sched, s': Sched, op: Op, c: nat, t: nat, k: nat)
    requires Good(s) && Step(s, s', op) && InQueue(s, c, k, t) && Doomed(s, t) && !Schedules(op, c)
    ensures InQueue(s', c, k, t) && Doomed(s', t)
  {
    hide Inv, Settled, Scheduled, Finished, Exited;
    InvMembers(s, None);
    QueuedIsOff(s, c, k, t);
    match op
    case Tick(d) =>
      ScheduledGood(s, d, true);
      var m := ScheduledIs(s, d, true);
      assert s'.cpus[c] == s.cpus[c];
    case SysExit(d) =>
      ExitedGood(s, d);
      InvMembers(Exited(s, d), None);
      ExitedElsewhere(s, d, t);
      ScheduledGood(Exited(s, d), d, false);
      var m := ScheduledIs(Exited(s, d), d, false);
      assert s'.cpus[c] == Exited(s, d).cpus[c];
    case ThreadExit(d) => ExitedElsewhere(s, d, t);
    case Spawn(p) =>
    case Allocate(d, p, u) =>
    case Launch(u) =>
    case Kill(p) =>
    case Reap(d) => assert t !in s.cpus[d].reap by { ReapedDead(s, d); }
  }

  lemma ReapedDead(s: Sched, d: nat)
    requires Good(s) && d < |s.cpus|
    ensures forall t | t in s.cpus[d].reap :: t in s.threads && s.threads[t].state == Zombie
  {
    assert CpuOK(s, d, None);
  }

  ghost predicate OffBetween(ss: seq<Sched>, t: nat, i: nat, m: nat) {
    m < |ss| && forall n | i <= n <= m :: Off(ss[n], t)
  }

  /**
   * Once its process is dying a queued thread is not dispatched again: it
   * runs nowhere up to the moment it is finished, and that is before
   * `k + 1` calls of `schedule_locked` on its CPU are over.
   */
  lemma {:induction false} TheDyingAreNotDispatched(ss: seq<Sched>, ops: seq<Op>, i: nat, j: nat, c: nat, t: nat, k: nat)
    requires Run(ss, ops) && i <= j <= |ops| && InQueue(ss[i], c, k, t) && Doomed(ss[i], t)
    ensures || (exists m :: i < m <= j && Ended(ss[m], t) && OffBetween(ss, t, i, m))
            || (OffBetween(ss, t, i, j) && Doomed(ss[j], t) && QueuedWithin(ss[j], c, t, k - Turns(ops, c, i, j)))
    ensures Turns(ops, c, i, j) > k ==> exists m :: i < m <= j && Ended(ss[m], t) && OffBetween(ss, t, i, m)
  {
    hide Good, Step, Off, InQueue, Ended, Doomed;
    if i == j {
      RunGood(ss, ops, i);
      QueuedIsOff(ss[i], c, k, t);
    } else {
      TheDyingAreNotDispatched(ss, ops, i, j - 1, c, t, k);
      if OffBetween(ss, t, i, j - 1) && Doomed(ss[j - 1], t) && QueuedWithin(ss[j - 1], c, t, k - Turns(ops, c, i, j - 1)) {
        var p: nat :| p <= k - Turns(ops, c, i, j - 1) && InQueue(ss[j - 1], c, p, t);
        RunStep(ss, ops, j - 1);
        DoomedStep(ss[j - 1], ss[j], ops[j - 1], c, t, p);
        assert OffBetween(ss, t, i, j);
      }
    }
  }

  /** A signal is such a moment. */
  lemma TheKilledAreNotDispatched(ss: seq<Sched>, ops: seq<Op>, i: nat, j: nat, c: nat, t: nat, k: nat)
    requires Run(ss, ops) && i < j <= |ops| && InQueue(ss[i], c, k, t) && t in ss[i].threads && ops[i] == Kill(ss[i].threads[t].proc)
    ensures || (exists m :: i < m <= j && Ended(ss[m], t) && OffBetween(ss, t, i, m))
            || (OffBetween(ss, t, i, j) && QueuedWithin(ss[j], c, t, k - Turns(ops, c, i + 1, j)))
    ensures Turns(ops, c, i + 1, j) > k ==> exists m :: i < m <= j && Ended(ss[m], t) && OffBetween(ss, t, i, m)
  {
    hide Good, Off, Ended, QueuedWithin;
    RunStep(ss, ops, i);
    QueuedIsOff(ss[i], c, k, t);
    assert InQueue(ss[i + 1], c, k, t) && Doomed(ss[i + 1], t);
    hide Run, Step, InQueue, Doomed;
    TheDyingAreNotDispatched(ss, ops, i + 1, j, c, t, k);
    forall m | OffBetween(ss, t, i + 1, m)
      ensures OffBetween(ss, t, i, m)
    {
    }
  }

  lemma RunStep(ss: seq<Sched>, ops: seq<Op>, n: nat)
    requires Run(ss, ops) && n < |ops|
    ensures Good(ss[n]) && Step(ss[n], ss[n + 1], ops[n])
  {
    hide Good, Step;
    RunGood(ss, ops, n);
    assert ops[n] == ops[n];
  }

  // The operations as the kernel runs them, each under its CPU's lock

  function FirstTcb(t: nat): Tcb {
    if t == 0 then Tcb(Running, 1, 0, false) else Tcb(Ready, 0, t - 1, true)
  }

  function FirstCpu(c: nat): Cpu {
    if c == 0 then Cpu([], Some(0), Some(1), 1, []) else Cpu([], Some(c + 1), Some(c + 1), 0, [])
  }

  class Kernel {
    var threads: map<nat, Tcb>
    var cpus: seq<Cpu>
    var dying: set<nat>
    var members: map<nat, seq<nat>>
    /** Threads known only to their creators. */
    ghost var made: set<nat>

    ghost function View(): Sched
      reads this
    {
      Sched(threads, cpus, dying, members, made)
    }

    /** `sched_init`: a bootstrap thread of process 1 runs on the first CPU, every CPU has an idle thread of process 0,
        and the other CPUs start on theirs. Thread 0 is the bootstrap thread. */
    constructor (n: nat)
      requires n > 0
      ensures Good(View()) && |cpus| == n && dying == {}
    {
      threads := map t: nat | t <= n :: FirstTcb(t);
      cpus := seq(n, c requires 0 <= c < n => FirstCpu(c));
      dying := {};
      members := map[0 := seq(n, c requires 0 <= c < n => c + 1), 1 := [0]];
      made := {};
      new;
      InitGood(View(), n);
    }

    method RunqPush(c: nat, t: nat)
      requires c < |cpus| && t in threads
      modifies this
      ensures View() == old(Pushed(View(), c, t))
    {
      threads := threads[t := threads[t].(cpu := c)];
      cpus := cpus[c := cpus[c].(runq := cpus[c].runq + [t])];
    }

    method RunqPop(c: nat) returns (t: Opt)
      requires c < |cpus|
      modifies `cpus
      ensures old(cpus[c].runq) == [] ==> t == None && cpus == old(cpus)
      ensures old(cpus[c].runq) != [] ==> t == Some(old(cpus[c].runq)[0]) && cpus == old(cpus)[c := old(cpus[c]).(runq := old(cpus[c].runq)[1..])]
    {
      if cpus[c].runq == [] { return None; }
      t := Some(cpus[c].runq[0]);
      cpus := cpus[c := cpus[c].(runq := cpus[c].runq[1..])];
    }

    /** `process_remove_thread`: the scan of the process's thread list. */
    method RemoveThread(t: nat)
      requires t in threads && threads[t].proc in members && Distinct(members[threads[t].proc])
      modifies `members, `dying
      ensures var p := threads[t].proc;
              && members == old(members)[p := Without(old(members)[p], t)]
              && dying == if t in old(members)[p] && Without(old(members)[p], t) == [] && p != 0 then old(dying) + {p} else old(dying)
    {
      var p := threads[t].proc;
      var l := members[p];
      var i := 0;
      while i < |l| && l[i] != t
        invariant i <= |l| && t !in l[..i]
      {
        i := i + 1;
      }
      if i < |l| {
        WithoutAt(l, i);
        var left := l[..i] + l[i + 1..];
        members := members[p := left];
        if left == [] && p != 0 {
          dying := dying + {p};
        }
      } else {
        assert l[..i] == l;
        WithoutNone(l, t);
      }
    }

    /** `thread_finish_locked`; an idle thread that tries to exit is a panic. */
    method ThreadFinish(c: nat, t: nat) returns (panic: bool)
      requires c < |cpus| && t in threads && threads[t].proc in members && Distinct(members[threads[t].proc]) && cpus[c].load > 0
      modifies this
      ensures panic <==> old(threads[t].state != Zombie && threads[t].idle)
      ensures panic ==> View() == old(View())
      ensures !panic ==> View() == old(Finished(View(), c, t))
      ensures !panic && old(threads[t].state) != Zombie ==>
                && threads == old(threads)[t := old(threads[t]).(state := Zombie)]
                && cpus == old(cpus)[c := old(cpus[c]).(load := old(cpus[c].load) - 1, reap := [t] + old(cpus[c].reap))]
                && var p := threads[t].proc;
                && members.Keys == old(members.Keys) && (forall q | q in members && q != p :: members[q] == old(members)[q])
                && (forall u :: u in members[p] <==> u in old(members)[p] && u != t)
                && (forall q :: q in dying <==> q in old(dying) || (q == p && q != 0 && t in old(members)[p] && members[p] == []))
    {
      if threads[t].state == Zombie { return false; }
      if threads[t].idle { return true; }
      threads := threads[t := threads[t].(state := Zombie)];
      RemoveThread(t);
      cpus := cpus[c := cpus[c].(load := cpus[c].load - 1, reap := [t] + cpus[c].reap)];
      panic := false;
    }

    /** `schedule_locked`: on a good state no idle thread is ever finished. */
    method ScheduleLocked(c: nat, enqueue: bool) returns (panic: bool)
      requires Good(View()) && c < |cpus| && (enqueue || !CurrentIs(View(), c, Running))
      modifies this
      ensures !panic && Good(View()) && forall t | t in old(threads) :: old(threads)[t].proc in old(members)
      ensures View() == old(Scheduled(View(), c, enqueue))
      ensures Aside(old(View()), View(), c, enqueue) && exists m :: Turned(old(View()), View(), c, enqueue, m)
      ensures cpus[c].current.Some? ==>
                var t := cpus[c].current.id;
                t in threads && (threads[t].idle || threads[t].state == Zombie || threads[t].proc !in old(dying))
    {
      hide Inv, Settled, Picked, Dispatched, Requeued, Retired, Finished, Turned, Aside, CurrentIs;
      InvMembers(View(), None);
      ghost var m := ScheduledIs(View(), c, enqueue);
      NoneOfTheDying(View(), Scheduled(View(), c, enqueue), c, enqueue, m);
      BeforePick(View(), c, enqueue);
      ScheduledGood(View(), c, enqueue);
      panic := Retire(c);
      if panic { return; }
      Requeue(c, enqueue);
      InvMembers(View(), None);
      var pick;
      panic, pick := PickNext(c);
      if panic { return; }
      Dispatch(c, pick);
    }

    /** A current thread whose process is dying is finished. */
    method Retire(c: nat) returns (panic: bool)
      requires Inv(View(), None) && c < |cpus| && forall t | t in threads :: threads[t].proc in members
      modifies this
      ensures !panic && View() == old(Retired(View(), c)) && Inv(View(), None)
    {
      hide Inv;
      RetiredInv(View(), c);
      panic := false;
      if cpus[c].current.Some? {
        CurrentOK(View(), c);
        var prev := cpus[c].current.id;
        if !threads[prev].idle && threads[prev].state == Running && threads[prev].proc in dying {
          panic := ThreadFinish(c, prev);
        }
      }
    }

    method Requeue(c: nat, enqueue: bool)
      requires Inv(View(), None) && c < |cpus|
      modifies this
      ensures View() == old(Requeued(View(), c, enqueue)) && Inv(View(), None)
    {
      hide Inv;
      RequeuedInv(View(), c, enqueue);
      if cpus[c].current.Some? {
        CurrentOK(View(), c);
        var prev := cpus[c].current.id;
        if enqueue && !threads[prev].idle && threads[prev].state == Running {
          threads := threads[prev := threads[prev].(state := Ready)];
          RunqPush(c, prev);
        }
      }
    }

    method PickNext(c: nat) returns (panic: bool, next: Opt)
      requires Inv(View(), None) && c < |cpus| && forall t | t in threads :: threads[t].proc in members
      modifies this
      ensures !panic && old(Picked(View(), c)) == (View(), next) && |cpus| == |old(cpus)| && Inv(View(), next)
      ensures dying == old(dying) && if next.Some? then next.id in threads && threads[next.id].proc !in dying else cpus[c].runq == []
    {
      hide Inv, Finished;
      ghost var goal := Picked(View(), c);
      next := None;
      panic := false;
      while cpus[c].runq != []
        invariant Inv(View(), None) && c < |cpus| == |old(cpus)| && next == None && !panic
        invariant forall t | t in threads :: threads[t].proc in members
        invariant goal == Picked(View(), c) && dying == old(dying)
        decreases |cpus[c].runq|
      {
        ghost var s := View();
        PoppedInv(s, c);
        var t := RunqPop(c);
        HandOK(View(), c, t.id);
        if threads[t.id].state != Ready { continue; }
        if threads[t.id].proc in dying {
          FinishedInv(View(), c, t.id, t);
          FinishedQueue(View(), c, t.id);
          panic := ThreadFinish(c, t.id);
          InvMembers(View(), None);
          continue;
        }
        next := t;
        return;
      }
    }

    /** Switch to the thread picked, or to the idle thread. */
    method Dispatch(c: nat, pick: Opt)
      requires c < |cpus|
      modifies this
      ensures View() == old(Dispatched(View(), c, pick))
    {
      var next := pick;
      var prev := cpus[c].current;
      if next.None? {
        next := cpus[c].idle;
      }
      if next.None? || next.id !in threads {
        if prev.Some? && prev.id in threads && threads[prev.id].state == Ready {
          threads := threads[prev.id := threads[prev.id].(state := Running)];
        }
        return;
      }
      if next == prev && threads[next.id].state == Running { return; }
      threads := threads[next.id := threads[next.id].(state := Running)];
      cpus := cpus[c := cpus[c].(current := next)];
    }

    /** `thread_finish_current_locked`, as used by exits and fatal signals. */
    method ExitCurrent(c: nat) returns (panic: bool)
      requires Good(View()) && c < |cpus| && cpus[c].current.Some? && cpus[c].current.id in threads
      modifies this
      ensures panic <==> old(threads)[old(cpus[c].current.id)].idle
      ensures Good(View()) && forall t | t in old(threads) :: old(threads)[t].proc in old(members)
      ensures View() == old(Exited(View(), c))
    {
      hide Inv, Settled;
      InvMembers(View(), None);
      ExitedGood(View(), c);
      CurrentOK(View(), c);
      CurrentBusy(View(), c);
      var t := cpus[c].current.id;
      panic := threads[t].idle;
      if !panic && threads[t].state != Zombie {
        panic := ThreadFinish(c, t);
      }
    }

    /** `sched_process_create` */
    method CreateProcess(p: nat)
      requires Good(View()) && p !in members
      modifies this
      ensures Good(View()) && View() == old(Spawned(View(), p))
    {
      SpawnedGood(View(), p);
      members, dying := members[p := []], dying - {p};
    }

    /** `thread_alloc`, which fails for a dying process. */
    method AllocThread(c: nat, p: nat, t: nat) returns (ok: bool)
      requires Good(View()) && c < |cpus| && t !in threads && p in members
      modifies this
      ensures Good(View()) && View() == old(Allocated(View(), c, p, t)) && (ok <==> p !in old(dying))
      ensures ok ==> t in made && threads == old(threads)[t := Tcb(Ready, p, c, false)] && cpus == old(cpus)
      ensures ok ==> p in members && t in members[p] && members == old(members)[p := members[p]]
    {
      AllocatedGood(View(), c, p, t);
      if p in dying { return false; }
      threads := threads[t := Tcb(Ready, p, c, false)];
      members := members[p := [t] + members[p]];
      made := made + {t};
      ok := true;
    }

    /** The locked section of `sched_create_thread_on_cpu`. */
    method LaunchThread(t: nat)
      requires Good(View()) && t in made && t in threads && threads[t].cpu < |cpus|
      modifies this
      ensures Good(View()) && View() == old(Launched(View(), t))
      ensures var c := old(threads[t].cpu);
              && threads == old(threads) && dying == old(dying) && members == old(members) && made == old(made) - {t}
              && cpus == old(cpus)[c := old(cpus)[c].(runq := old(cpus)[c].runq + [t], load := old(cpus)[c].load + 1)]
    {
      LaunchedGood(View(), t);
      var c := threads[t].cpu;
      made := made - {t};
      RunqPush(c, t);
      cpus := cpus[c := cpus[c].(load := cpus[c].load + 1)];
    }

    /** `sched_reap_current_cpu` */
    method ReapCurrentCpu(c: nat)
      requires Good(View()) && c < |cpus|
      modifies this
      ensures Good(View()) && View() == old(Reaped(View(), c))
      ensures forall t :: t in threads <==>
                t in old(threads) && (old(threads[t].state) != Zombie || old(threads[t].cpu) != c || old(cpus[c].current) == Some(t))
      ensures forall t | t in threads :: threads[t] == old(threads)[t]
      ensures forall t | t in threads && threads[t].state == Zombie && threads[t].cpu == c :: cpus[c].current == Some(t)
      ensures |cpus| == |old(cpus)| && forall d | 0 <= d < |cpus| :: cpus[d] == if d == c then old(cpus)[c].(reap := cpus[c].reap) else old(cpus)[d]
    {
      hide Inv, Settled;
      ReapedGood(View(), c);
      ReapList(View(), c);
      ReapedAre(View(), c);
      var current := cpus[c].current;
      ghost var reap := cpus[c].reap;
      ghost var gone: set<nat> := {};
      while true
        invariant c < |cpus| && cpus == old(cpus)[c := old(cpus[c]).(reap := cpus[c].reap)] && dying == old(dying) && members == old(members) && made == old(made)
        invariant Distinct(cpus[c].reap) && threads == old(threads) - gone
        invariant gone + Elements(cpus[c].reap) == Elements(reap) && gone !! Elements(cpus[c].reap)
        invariant current.Some? ==> current.id !in gone
        invariant current == old(cpus[c].current) && reap == old(cpus[c].reap)
        decreases |cpus[c].reap|
      {
        var l := cpus[c].reap;
        var i := 0;
        while i < |l| && Some(l[i]) == current
          invariant i <= |l| && forall j | 0 <= j < i :: Some(l[j]) == current
        {
          i := i + 1;
        }
        if i == |l| {
          OnlyCurrent(l, current, reap, gone);
          break;
        }
        TakeAt(l, i);
        gone := gone + {l[i]};
        threads := map t | t in threads && t != l[i] :: threads[t];
        cpus := cpus[c := cpus[c].(reap := l[..i] + l[i + 1..])];
      }
    }
  }

  lemma CurrentOK(s: Sched, c: nat)
    requires Inv(s, None) && c < |s.cpus| && s.cpus[c].current.Some?
    ensures var t := s.cpus[c].current.id;
            t in s.threads && s.threads[t].cpu == c && s.threads[t].proc in s.members && Distinct(s.members[s.threads[t].proc])
    ensures CurrentIs(s, c, Running) ==> s.cpus[c].load > 0
  {
    assert CpuOK(s, c, None);
    assert ThreadOK(s, s.cpus[c].current.id, None);
    assert MembersOK(s, s.threads[s.cpus[c].current.id].proc);
  }

  lemma CurrentBusy(s: Sched, c: nat)
    requires Good(s) && c < |s.cpus| && s.cpus[c].current.Some? && s.cpus[c].current.id in s.threads
    ensures var tcb := s.threads[s.cpus[c].current.id]; !tcb.idle ==> tcb.state == Running || tcb.state == Zombie
  {
    assert !CurrentIs(s, c, Ready);
  }

  lemma HandOK(s: Sched, c: nat, t: nat)
    requires Inv(s, Some(t)) && c < |s.cpus| && s.threads[t].cpu == c
    ensures s.threads[t].proc in s.members && Distinct(s.members[s.threads[t].proc]) && s.cpus[c].load > 0 && !s.threads[t].idle
    ensures s.threads[t].state == Ready
  {
    assert CpuOK(s, c, Some(t)) && ThreadOK(s, t, Some(t));
    assert MembersOK(s, s.threads[t].proc);
  }

  lemma FinishedQueue(s: Sched, c: nat, t: nat)
    requires c < |s.cpus| && t in s.threads && s.threads[t].proc in s.members
    ensures |Finished(s, c, t).cpus| == |s.cpus| && Finished(s, c, t).cpus[c].runq == s.cpus[c].runq
    ensures s.threads[t].proc in s.dying ==> Finished(s, c, t).dying == s.dying
  {
    assert s.threads[t].proc in s.dying ==> s.dying + {s.threads[t].proc} == s.dying;
  }

  lemma ReapList(s: Sched, c: nat)
    requires Inv(s, None) && c < |s.cpus|
    ensures Distinct(s.cpus[c].reap)
  {
    assert CpuOK(s, c, None);
  }

  lemma ReapedAre(s: Sched, c: nat)
    requires Inv(s, None) && c < |s.cpus|
    ensures forall t :: t in Reaped(s, c).threads <==>
              t in s.threads && (s.threads[t].state != Zombie || s.threads[t].cpu != c || s.cpus[c].current == Some(t))
    ensures forall t | t in Reaped(s, c).threads :: Reaped(s, c).threads[t] == s.threads[t]
  {
    assert CpuOK(s, c, None);
    forall t | t in s.threads
      ensures t in s.cpus[c].reap <==> s.threads[t].state == Zombie && s.threads[t].cpu == c
    {
      assert ThreadOK(s, t, None);
    }
  }

  lemma OnlyCurrent(l: seq<nat>, current: Opt, reap: seq<nat>, gone: set<nat>)
    requires Distinct(l) && forall j | 0 <= j < |l| :: Some(l[j]) == current
    requires gone + Elements(l) == Elements(reap) && gone !! Elements(l) && (current.Some? ==> current.id !in gone)
    ensures var stays := current.Some? && current.id in reap;
            && l == (if stays then [current.id] else [])
            && gone == (set t | t in reap) - (if stays then {current.id} else {})
  {
    SetOfDistinct(l);
    var only := if current.Some? then {current.id} else {};
    assert Elements(l) <= only;
    assert Elements(l) == {} || Elements(l) == only;
    assert forall t :: t in reap <==> t in gone || t in l;
    if l != [] {
      assert l[0] in reap;
    }
  }

  lemma TakeAt(l: seq<nat>, i: nat)
    requires Distinct(l) && i < |l|
    ensures Distinct(l[..i] + l[i + 1..]) && Elements(l[..i] + l[i + 1..]) == Elements(l) - {l[i]}
  {
    WithoutAt(l, i);
    WithoutDistinct(l, l[i]);
  }

  lemma InitGood(s: Sched, n: nat)
    requires n > 0 && |s.cpus| == n && s.dying == {} && s.made == {}
    requires s.threads == map t: nat | t <= n :: FirstTcb(t)
    requires forall c | 0 <= c < n :: s.cpus[c] == FirstCpu(c)
    requires s.members.Keys == {0, 1} && s.members[1] == [0]
    requires |s.members[0]| == n && forall c | 0 <= c < n :: s.members[0][c] == c + 1
    ensures Good(s)
  {
    forall t | t in s.threads
      ensures ThreadOK(s, t, None)
    {
      assert t > 0 ==> s.members[0][t - 1] == t;
    }
    forall p | p in s.members
      ensures MembersOK(s, p)
    {
    }
    forall c: nat | c < |s.cpus|
      ensures CpuOK(s, c, None) && !CurrentIs(s, c, Ready)
    {
      assert s.threads[c + 1] == FirstTcb(c + 1) && s.threads[0] == FirstTcb(0);
    }
  }
}
