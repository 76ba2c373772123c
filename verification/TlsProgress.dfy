/** What the TLS server can always still do. Next to the safety of TlsServer: no thread ever waits for another one, all
    combinations of threads come up, and every run can go on until everything has been given back. */
module TlsProgress {
  import opened Options
  import opened Sequences
  import opened ClientLists
  import opened TlsServer

  lemma {:induction false} RunAppend(s: State, front: seq<Action>, m: State, back: seq<Action>, s': State)
    requires Run(s, front, m) && Run(m, back, s')
    ensures Run(s, front + back, s')
    decreases |front|
  {
    if front == [] {
      AppendNone(back);
    } else {
      assert (front + back)[1..] == front[1..] + back;
      RunAppend(Next(s, front[0]), front[1..], m, back, s');
    }
  }

  lemma RunNone(s: State)
    ensures Run(s, [], s)
  {
  }

  lemma RunOne(s: State, a: Action)
    requires Enabled(s, a)
    ensures Run(s, [a], Next(s, a))
  {
  }

  // ---- The acceptor ----

  /** Whatever the threads are doing, a waiting acceptor can take the next connection, on any descriptor and with any
      record that are not in use, and start a thread for it; nothing else changes. */
  lemma ConnectionStarts(sockFd: Fd, actions: seq<Action>, s: State, fd: Fd, addr: Addr)
    requires Run(Initial(sockFd), actions, s) && s.acceptor.Listening? && fd !in s.open && addr !in s.heap
    ensures var more := [Accept(fd), Allocate(addr), Register, Spawn];
      var s' := s.(open := s.open + {fd}, heap := s.heap[addr := fd], clients := [addr] + s.clients,
                   threads := s.threads + [Thread(addr, Created, {}, fd)]);
      Run(s, more, s') && Run(Initial(sockFd), actions + more, s')
  {
    RunKeepsInv(Initial(sockFd), actions, s);
    hide Inv;
    var s1 := s.(open := s.open + {fd}, acceptor := Accepted(fd));
    var s2 := s1.(heap := s.heap[addr := fd], acceptor := Allocated(addr, fd));
    var s3 := s2.(clients := [addr] + s.clients, acceptor := Queued(addr, fd));
    var s4 := s3.(threads := s.threads + [Thread(addr, Created, {}, fd)], acceptor := Listening);
    assert Run(s3, [Spawn], s4);
    StepFirst(s2, Register, s3, [Spawn], s4);
    StepFirst(s1, Allocate(addr), s2, [Register, Spawn], s4);
    StepFirst(s, Accept(fd), s1, [Allocate(addr), Register, Spawn], s4);
    RunAppend(Initial(sockFd), actions, s, [Accept(fd), Allocate(addr), Register, Spawn], s4);
  }

  lemma StepFirst(s: State, a: Action, m: State, more: seq<Action>, s': State)
    requires Enabled(s, a) && Next(s, a) == m && Run(m, more, s')
    ensures Run(s, [a] + more, s')
  {
    assert ([a] + more)[1..] == more;
  }

  /** A waiting acceptor may also find that accept fails; then it closes its own socket and nothing else. */
  lemma AcceptorStops(sockFd: Fd, actions: seq<Action>, s: State)
    requires Run(Initial(sockFd), actions, s) && s.acceptor.Listening?
    ensures Run(s, [AcceptFails], s.(open := s.open - {s.sockFd}, acceptor := Stopped))
  {
    RunKeepsInv(Initial(sockFd), actions, s);
    StepKeepsInv(s, AcceptFails);
    RunOne(s, AcceptFails);
  }

  // ---- A thread on its own ----

  /** While it handles its request, a thread can look up its client, open any file and close it again. */
  lemma RequestIsHandled(sockFd: Fd, actions: seq<Action>, s: State, t: nat, file: Fd)
    requires Run(Initial(sockFd), actions, s) && t < |s.threads| && s.threads[t].phase.Running?
    ensures Run(s, [GetClient(t)], s)
    ensures file !in s.open ==>
              Run(s, [OpenFile(t, file)],
                  s.(open := s.open + {file},
                     threads := s.threads[t := s.threads[t].(files := s.threads[t].files + {file})]))
    ensures file in s.threads[t].files ==>
              Run(s, [CloseFile(t, file)],
                  s.(open := s.open - {file},
                     threads := s.threads[t := s.threads[t].(files := s.threads[t].files - {file})]))
  {
    RunKeepsInv(Initial(sockFd), actions, s);
    InvReady(s, t);
    RunOne(s, GetClient(t));
    if file !in s.open { RunOne(s, OpenFile(t, file)); }
    if file in s.threads[t].files { RunOne(s, CloseFile(t, file)); }
  }

  /** The steps of processRequest and its cleanup. */
  function Steps(t: nat): (r: seq<Action>)
    ensures |r| == 8
  {
    [CountUp(t), NewSsl(t), BeginCleanup(t), Unlist(t), FreeContext(t), FreeRecord(t), CloseSocket(t), CountDown(t)]
  }

  /** How many of its steps a thread has done. */
  function Done(p: Phase): (n: nat)
    ensures n <= 8
  {
    match p
    case Created => 0
    case Counted => 1
    case Running => 2
    case Cleaning(_) => 3
    case Unlisted(_, _) => 4
    case ContextFreed(_, _) => 5
    case RecordFreed(_) => 6
    case Closed => 7
    case Exited => 8
  }

  /** The threads but for one, and the acceptor, are where they were. */
  predicate OthersSame(s: State, t: nat, s': State) {
    && s'.sockFd == s.sockFd && s'.acceptor == s.acceptor && |s'.threads| == |s.threads|
    && forall i :: 0 <= i < |s.threads| && i != t ==> s'.threads[i] == s.threads[i]
  }

  /** A thread's next step never waits for another thread. */
  lemma NextStep(s: State, t: nat)
    requires Inv(s) && t < |s.threads| && !s.threads[t].phase.Exited?
    ensures Enabled(s, Steps(t)[Done(s.threads[t].phase)])
    ensures var s' := Next(s, Steps(t)[Done(s.threads[t].phase)]);
      Inv(s') && OthersSame(s, t, s') && Done(s'.threads[t].phase) == Done(s.threads[t].phase) + 1
  {
    var a := Steps(t)[Done(s.threads[t].phase)];
    InvReady(s, t);
    NextIsEnabled(s, t);
    hide Inv; hide Enabled; hide Ready; hide Next;
    StepKeepsInv(s, a);
    ThreadStepReplaces(s, a);
    NextIsDone(s, t);
  }

  lemma NextIsEnabled(s: State, t: nat)
    requires Ready(s, t) && !s.fault && !s.threads[t].phase.Exited?
    ensures Enabled(s, Steps(t)[Done(s.threads[t].phase)])
  {
  }

  lemma NextIsDone(s: State, t: nat)
    requires t < |s.threads| && !s.threads[t].phase.Exited?
    requires var a := Steps(t)[Done(s.threads[t].phase)]; Enabled(s, a) && !Next(s, a).fault
    ensures var s' := Next(s, Steps(t)[Done(s.threads[t].phase)]);
      |s'.threads| == |s.threads| && Done(s'.threads[t].phase) == Done(s.threads[t].phase) + 1
  {
    hide Lookup;
  }

  lemma DoneAll(p: Phase)
    ensures Done(p) == 8 <==> p.Exited?
  {
  }

  lemma {:induction false} GoesTo(s: State, t: nat, n: nat) returns (s': State)
    requires Inv(s) && t < |s.threads| && Done(s.threads[t].phase) <= n <= 8
    ensures Run(s, Steps(t)[Done(s.threads[t].phase)..n], s')
    ensures Inv(s') && OthersSame(s, t, s') && Done(s'.threads[t].phase) == n
    decreases 8 - Done(s.threads[t].phase)
  {
    hide Inv; hide Enabled; hide Next; hide Done; hide Steps;
    var d := Done(s.threads[t].phase);
    if d == n {
      s' := s;
    } else {
      DoneAll(s.threads[t].phase);
      NextStep(s, t);
      var m := Next(s, Steps(t)[d]);
      s' := GoesTo(m, t, n);
      assert Steps(t)[d..n] == [Steps(t)[d]] + Steps(t)[d + 1..n];
      StepFirst(s, Steps(t)[d], m, Steps(t)[d + 1..n], s');
    }
  }

  /** From any reachable state, each thread can go through all the steps it has left, while nobody else moves. */
  lemma ThreadFinishesAlone(sockFd: Fd, actions: seq<Action>, s: State, t: nat) returns (s': State)
    requires Run(Initial(sockFd), actions, s) && t < |s.threads|
    ensures Run(s, Steps(t)[Done(s.threads[t].phase)..], s')
    ensures OthersSame(s, t, s') && s'.threads[t].phase.Exited?
  {
    hide Inv; hide Run; hide Next; hide Enabled;
    InitialInv(sockFd);
    RunKeepsInv(Initial(sockFd), actions, s);
    s' := GoesTo(s, t, 8);
    DoneAll(s'.threads[t].phase);
    assert Steps(t)[Done(s.threads[t].phase)..8] == Steps(t)[Done(s.threads[t].phase)..];
  }

  // ---- All threads ----

  lemma {:induction false} Unused(used: set<int>) returns (x: int)
    ensures x !in used && forall y :: y in used ==> y < x
    decreases |used|
  {
    x := 0;
    if y :| y in used {
      var z := Unused(used - {y});
      x := if z > y then z else y + 1;
      assert forall w :: w in used && w != y ==> w in used - {y};
    }
  }

  lemma AcceptorStep(s: State, a: Action)
    requires Inv(s) && Enabled(s, a) && (a.Allocate? || a.Register? || a.Spawn?)
    ensures var s' := Next(s, a);
      && Inv(s') && |s.threads| <= |s'.threads| <= |s.threads| + (if a.Spawn? then 1 else 0) && s'.sockFd == s.sockFd
      && (forall i :: 0 <= i < |s.threads| ==> s'.threads[i] == s.threads[i])
      && (if a.Allocate? then s'.acceptor.Allocated? else if a.Register? then s'.acceptor.Queued?
          else s'.acceptor.Listening?)
  {
    StepKeepsInv(s, a);
    hide Inv;
  }

  /** How many steps the acceptor has left. */
  function Waits(a: Acceptor): nat {
    if a.Accepted? then 3 else if a.Allocated? then 2 else if a.Queued? then 1 else 0
  }

  /** An acceptor that has a connection gets it to a thread. */
  lemma {:induction false} AcceptorReturns(s: State) returns (more: seq<Action>, s': State)
    requires Inv(s)
    ensures Run(s, more, s') && Inv(s') && |s.threads| <= |s'.threads| && s'.sockFd == s.sockFd
    ensures s'.acceptor == if s.acceptor.Stopped? then Stopped else Listening
    ensures forall i :: 0 <= i < |s.threads| ==> s'.threads[i] == s.threads[i]
    decreases Waits(s.acceptor)
  {
    more, s' := [], s;
    if Waits(s.acceptor) > 0 {
      var addr := Unused(s.heap.Keys);
      var a := if s.acceptor.Accepted? then Allocate(addr) else if s.acceptor.Allocated? then Register else Spawn;
      NotFaulty(s);
      hide Inv; hide Next; hide Run;
      AcceptorStep(s, a);
      var m := Next(s, a);
      more, s' := AcceptorReturns(m);
      StepFirst(s, a, m, more, s');
      more := [a] + more;
    }
  }

  lemma NotFaulty(s: State)
    requires Inv(s)
    ensures !s.fault
  {
  }

  lemma {:induction false} ThreadsFinish(s: State, n: nat) returns (more: seq<Action>, s': State)
    requires Inv(s) && n <= |s.threads|
    ensures Run(s, more, s') && Inv(s') && s'.acceptor == s.acceptor && |s'.threads| == |s.threads|
    ensures s'.sockFd == s.sockFd && forall i :: 0 <= i < n ==> s'.threads[i].phase.Exited?
  {
    hide Inv; hide Run; hide Done; hide Steps; hide Next; hide Enabled;
    if n == 0 {
      more, s' := [], s;
      RunNone(s);
    } else {
      var front, m := ThreadsFinish(s, n - 1);
      var d := Done(m.threads[n - 1].phase);
      s' := GoesTo(m, n - 1, 8);
      DoneAll(s'.threads[n - 1].phase);
      more := front + Steps(n - 1)[d..8];
      RunAppend(s, front, m, Steps(n - 1)[d..8], s');
    }
  }

  /** Every run can go on until all threads have exited and the acceptor waits again, or has stopped as it had before;
      and by then everything has been given back. */
  lemma EveryRunCanFinish(sockFd: Fd, actions: seq<Action>, s: State) returns (more: seq<Action>, s': State)
    requires Run(Initial(sockFd), actions, s)
    ensures Run(s, more, s') && Run(Initial(sockFd), actions + more, s')
    ensures |s'.threads| >= |s.threads| && forall i :: 0 <= i < |s'.threads| ==> s'.threads[i].phase.Exited?
    ensures s'.acceptor == if s.acceptor.Stopped? then Stopped else Listening
    ensures s'.clients == [] && s'.heap == map[] && s'.contextRefs == 1 && s'.threadCount == 0
    ensures Allocations(actions + more) == Frees(actions + more)
    ensures forall fd :: fd in s'.open ==>
              fd == s'.sockFd || exists i :: 0 <= i < |s'.threads| && fd in s'.threads[i].files
  {
    hide Run; hide Inv; hide Next; hide Enabled;
    InitialInv(sockFd);
    RunKeepsInv(Initial(sockFd), actions, s);
    var front, m := AcceptorReturns(s);
    var back;
    back, s' := ThreadsFinish(m, |m.threads|);
    more := front + back;
    RunAppend(s, front, m, back, s');
    RunAppend(Initial(sockFd), actions, s, more, s');
    NothingLeaks(sockFd, actions + more, s');
  }

  lemma NewThread(addr: Addr, fd: Fd)
    ensures Done(Thread(addr, Created, {}, fd).phase) == 0
  {
  }

  /** Any number of threads can be alive at once, in any combination of phases. */
  lemma {:induction false} EveryCombinationIsReached(sockFd: Fd, done: seq<nat>)
    returns (actions: seq<Action>, s: State)
    requires forall i :: 0 <= i < |done| ==> done[i] <= 8
    ensures Run(Initial(sockFd), actions, s) && s.acceptor.Listening? && |s.threads| == |done|
    ensures forall i :: 0 <= i < |done| ==> Done(s.threads[i].phase) == done[i]
  {
    hide Inv; hide Run; hide Next; hide Enabled; hide Done; hide Steps;
    if done == [] {
      RunNone(Initial(sockFd));
      return [], Initial(sockFd);
    }
    var n := |done| - 1;
    var front, m := EveryCombinationIsReached(sockFd, done[..n]);
    var fd := Unused(m.open);
    var addr := Unused(m.heap.Keys);
    ConnectionStarts(sockFd, front, m, fd, addr);
    var start := [Accept(fd), Allocate(addr), Register, Spawn];
    var u := m.(open := m.open + {fd}, heap := m.heap[addr := fd], clients := [addr] + m.clients,
                threads := m.threads + [Thread(addr, Created, {}, fd)]);
    InitialInv(sockFd);
    RunKeepsInv(Initial(sockFd), front + start, u);
    NewThread(addr, fd);
    s := GoesTo(u, n, done[n]);
    actions := front + start + Steps(n)[0..done[n]];
    RunAppend(Initial(sockFd), front + start, u, Steps(n)[0..done[n]], s);
    assert forall i :: 0 <= i < n ==> s.threads[i] == m.threads[i] && done[..n][i] == done[i];
  }

  /** So n requests can be handled at the same time, for every n. */
  lemma AnyNumberRunsAtOnce(sockFd: Fd, n: nat) returns (actions: seq<Action>, s: State)
    ensures Run(Initial(sockFd), actions, s) && s.acceptor.Listening? && |s.threads| == n
    ensures forall i :: 0 <= i < n ==> s.threads[i].phase.Running?
  {
    hide Run;
    actions, s := EveryCombinationIsReached(sockFd, seq(n, _ => 2));
  }
}
