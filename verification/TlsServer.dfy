/** The TLS server (tlsServer.c): one acceptor, one thread per accepted connection, and a client list
    shared under a mutex, as a transition system. Each action is one atomic step of one thread; a run
    is any sequence of enabled actions, so every interleaving is covered. The kernel may hand out any
    descriptor that is not open, and malloc any address that is not allocated. */
module TlsServer {
  import opened Options
  import opened Sequences
  import opened ClientLists

  type Fd = int
  type Addr = int

  datatype Acceptor =
    | Listening
    | Accepted(fd: Fd)                 // accept returned
    | Allocated(addr: Addr, fd: Fd)    // record malloc'ed and filled in
    | Queued(addr: Addr, fd: Fd)       // setClientConnection done
    | Stopped                          // accept failed: cleanup(sockFd) and return

  datatype Phase =
    | Created
    | Counted                                        // threadCount++ done
    | Running                                        // SSL_new done, handling the request
    | Cleaning(fd: Fd)                               // cleanup(c->fd) entered
    | Unlisted(fd: Fd, found: Option<Addr>)          // removeClientConnection returned
    | ContextFreed(fd: Fd, record: Addr)              // SSL_CTX_free done
    | RecordFreed(fd: Fd)                            // free(c) done
    | Closed                                         // close(fd) done
    | Exited                                         // threadCount-- done

  /** `param` is the pointer handed to the thread, `files` the descriptors it opened while handling its
      request. `accepted` is a history variable: the descriptor accept returned for this thread. */
  datatype Thread = Thread(param: Addr, phase: Phase, files: set<Fd>, accepted: Fd)

  datatype State = State(
    sockFd: Fd,
    acceptor: Acceptor,
    threads: seq<Thread>,
    open: set<Fd>,             // descriptors open in this process
    heap: map<Addr, Fd>,       // allocated client records, with their fd field
    clients: seq<Addr>,        // the client list, from its head
    contextRefs: int,          // reference count of the shared SSL_CTX
    threadCount: int,
    fault: bool                // a freed record used, a double free or close, or a missing client
  )

  datatype Action =
    | Accept(newFd: Fd) | AcceptFails | Allocate(newAddr: Addr) | Register | Spawn
    | CountUp(t: nat) | NewSsl(t: nat) | GetClient(t: nat)
    | OpenFile(t: nat, file: Fd) | CloseFile(t: nat, file: Fd)
    | BeginCleanup(t: nat) | Unlist(t: nat) | FreeContext(t: nat) | FreeRecord(t: nat)
    | CloseSocket(t: nat) | CountDown(t: nat)

  function Initial(sockFd: Fd): State {
    State(sockFd, Listening, [], {sockFd}, map[], [], 1, 0, false)
  }

  predicate Enabled(s: State, a: Action) {
    && !s.fault
    && match a
       case Accept(fd) => s.acceptor.Listening? && fd !in s.open
       case AcceptFails => s.acceptor.Listening?
       case Allocate(addr) => s.acceptor.Accepted? && addr !in s.heap
       case Register => s.acceptor.Allocated?
       case Spawn => s.acceptor.Queued?
       case CountUp(t) => t < |s.threads| && s.threads[t].phase.Created?
       case NewSsl(t) => t < |s.threads| && s.threads[t].phase.Counted?
       case GetClient(t) => t < |s.threads| && s.threads[t].phase.Running?
       case OpenFile(t, file) => t < |s.threads| && s.threads[t].phase.Running? && file !in s.open
       case CloseFile(t, file) => t < |s.threads| && s.threads[t].phase.Running? && file in s.threads[t].files
       case BeginCleanup(t) => t < |s.threads| && s.threads[t].phase.Running?
       case Unlist(t) => t < |s.threads| && s.threads[t].phase.Cleaning?
       case FreeContext(t) => t < |s.threads| && s.threads[t].phase.Unlisted? && s.threads[t].phase.found.Some?
       case FreeRecord(t) => t < |s.threads| && s.threads[t].phase.ContextFreed?
       case CloseSocket(t) => t < |s.threads|
           && (s.threads[t].phase.RecordFreed? || (s.threads[t].phase.Unlisted? && s.threads[t].phase.found.None?))
       case CountDown(t) => t < |s.threads| && s.threads[t].phase.Closed?
  }

  /** Walking the list reads the fd field of every record on it. */
  predicate Readable(s: State) {
    forall i :: 0 <= i < |s.clients| ==> s.clients[i] in s.heap
  }

  function ClientFds(s: State): seq<Fd>
    requires Readable(s)
  {
    seq(|s.clients|, i requires 0 <= i < |s.clients| => s.heap[s.clients[i]])
  }

  /** getClientConnection: the first record on the list with this fd. */
  function Lookup(s: State, fd: Fd): Option<Addr>
    requires Readable(s)
  {
    var k := FirstWith(ClientFds(s), fd);
    if k < |s.clients| then Some(s.clients[k]) else None
  }

  function Fault(s: State): State { s.(fault := true) }

  function Move(s: State, t: nat, p: Phase): State
    requires t < |s.threads|
  {
    s.(threads := s.threads[t := s.threads[t].(phase := p)])
  }

  function Next(s: State, a: Action): State
    requires Enabled(s, a)
  {
    match a
    case Accept(fd) => s.(open := s.open + {fd}, acceptor := Accepted(fd))
    case AcceptFails =>
      if !Readable(s) || Lookup(s, s.sockFd).Some? || s.sockFd !in s.open then Fault(s)
      else s.(open := s.open - {s.sockFd}, acceptor := Stopped)
    case Allocate(addr) =>
      s.(heap := s.heap[addr := s.acceptor.fd], acceptor := Allocated(addr, s.acceptor.fd))
    case Register =>
      s.(clients := [s.acceptor.addr] + s.clients, acceptor := Queued(s.acceptor.addr, s.acceptor.fd))
    case Spawn =>
      s.(threads := s.threads + [Thread(s.acceptor.addr, Created, {}, s.acceptor.fd)], acceptor := Listening)
    case CountUp(t) => Move(s, t, Counted).(threadCount := s.threadCount + 1)
    case NewSsl(t) =>
      if s.threads[t].param !in s.heap then Fault(s)
      else Move(s, t, Running).(contextRefs := s.contextRefs + 1)
    case GetClient(t) =>
      if s.threads[t].param !in s.heap || !Readable(s) || Lookup(s, s.heap[s.threads[t].param]).None? then Fault(s)
      else s
    case OpenFile(t, file) =>
      s.(open := s.open + {file}, threads := s.threads[t := s.threads[t].(files := s.threads[t].files + {file})])
    case CloseFile(t, file) =>
      if file !in s.open then Fault(s)
      else s.(open := s.open - {file}, threads := s.threads[t := s.threads[t].(files := s.threads[t].files - {file})])
    case BeginCleanup(t) =>
      if s.threads[t].param !in s.heap then Fault(s)
      else Move(s, t, Cleaning(s.heap[s.threads[t].param]))
    case Unlist(t) =>
      if !Readable(s) then Fault(s)
      else
        var fd := s.threads[t].phase.fd;
        Move(s, t, Unlisted(fd, Lookup(s, fd))).(clients := RemoveAt(s.clients, FirstWith(ClientFds(s), fd)))
    case FreeContext(t) =>
      var p := s.threads[t].phase;
      if p.found.value !in s.heap || s.contextRefs <= 0 then Fault(s)
      else Move(s, t, ContextFreed(p.fd, p.found.value)).(contextRefs := s.contextRefs - 1)
    case FreeRecord(t) =>
      var p := s.threads[t].phase;
      if p.record !in s.heap then Fault(s)
      else Move(s, t, RecordFreed(p.fd)).(heap := s.heap - {p.record})
    case CloseSocket(t) =>
      var fd := s.threads[t].phase.fd;
      if fd !in s.open then Fault(s) else Move(s, t, Closed).(open := s.open - {fd})
    case CountDown(t) => Move(s, t, Exited).(threadCount := s.threadCount - 1)
  }

  predicate Run(s: State, actions: seq<Action>, s': State)
    decreases |actions|
  {
    if actions == [] then s == s'
    else Enabled(s, actions[0]) && Run(Next(s, actions[0]), actions[1..], s')
  }

  // ---- The invariant ----

  predicate HoldsRecord(t: Thread) {
    t.phase.Created? || t.phase.Counted? || t.phase.Running? || t.phase.Cleaning? || t.phase.Unlisted?
        || t.phase.ContextFreed?
  }

  predicate IsListed(t: Thread) {
    t.phase.Created? || t.phase.Counted? || t.phase.Running? || t.phase.Cleaning?
  }

  predicate HoldsSocket(t: Thread) {
    !t.phase.Closed? && !t.phase.Exited?
  }

  predicate HoldsContext(t: Thread) {
    t.phase.Running? || t.phase.Cleaning? || t.phase.Unlisted?
  }

  predicate InCount(t: Thread) {
    !t.phase.Created? && !t.phase.Exited?
  }

  function Claims(t: Thread): set<Fd> {
    t.files + if HoldsSocket(t) then {t.accepted} else {}
  }

  function AcceptorFd(a: Acceptor): set<Fd> {
    if a.Accepted? || a.Allocated? || a.Queued? then {a.fd} else {}
  }

  function AcceptorAddr(a: Acceptor): set<Addr> {
    if a.Allocated? || a.Queued? then {a.addr} else {}
  }

  predicate PhaseOk(t: Thread) {
    match t.phase
    case Cleaning(fd) => fd == t.accepted
    case Unlisted(fd, found) => fd == t.accepted && found == Some(t.param)
    case ContextFreed(fd, record) => fd == t.accepted && record == t.param
    case RecordFreed(fd) => fd == t.accepted
    case _ => true
  }

  predicate ThreadOk(s: State, t: Thread) {
    && PhaseOk(t)
    && (HoldsRecord(t) ==> t.param in s.heap && s.heap[t.param] == t.accepted)
    && (HoldsRecord(t) ==> (t.param in s.clients <==> IsListed(t)))
    && Claims(t) <= s.open
    && (!s.acceptor.Stopped? ==> s.sockFd !in Claims(t))
    && (HoldsSocket(t) ==> t.accepted !in t.files)
  }

  predicate Apart(t: Thread, u: Thread) {
    Claims(t) !! Claims(u)
  }

  predicate AcceptorOk(s: State) {
    && AcceptorFd(s.acceptor) <= s.open
    && (!s.acceptor.Stopped? ==> s.sockFd in s.open && s.sockFd !in AcceptorFd(s.acceptor))
    && (s.acceptor.Allocated? || s.acceptor.Queued? ==>
          && s.acceptor.addr in s.heap && s.heap[s.acceptor.addr] == s.acceptor.fd
          && (s.acceptor.addr in s.clients <==> s.acceptor.Queued?))
  }

  predicate ApartFromAcceptor(a: Acceptor, t: Thread) {
    AcceptorFd(a) !! Claims(t)
  }

  ghost predicate ThreadLists(ts: seq<Thread>, a: Addr) {
    exists i :: 0 <= i < |ts| && IsListed(ts[i]) && ts[i].param == a
  }

  ghost predicate ThreadHolds(ts: seq<Thread>, a: Addr) {
    exists i :: 0 <= i < |ts| && HoldsRecord(ts[i]) && ts[i].param == a
  }

  ghost predicate ThreadClaims(ts: seq<Thread>, fd: Fd) {
    exists i :: 0 <= i < |ts| && fd in Claims(ts[i])
  }

  /** Nothing is listed, allocated or open without a holder. */
  ghost predicate Owned(s: State) {
    && (forall a :: a in s.clients ==> (s.acceptor.Queued? && s.acceptor.addr == a) || ThreadLists(s.threads, a))
    && (forall a :: a in s.heap ==> a in AcceptorAddr(s.acceptor) || ThreadHolds(s.threads, a))
    && (forall fd :: fd in s.open ==> fd == s.sockFd || fd in AcceptorFd(s.acceptor) || ThreadClaims(s.threads, fd))
  }

  function Count(ts: seq<Thread>, p: Thread -> bool): nat {
    if ts == [] then 0 else Count(ts[..|ts| - 1], p) + if p(ts[|ts| - 1]) then 1 else 0
  }

  predicate Counters(s: State) {
    && s.contextRefs == 1 + Count(s.threads, HoldsContext)
    && s.threadCount == Count(s.threads, InCount)
  }

  predicate Ownership(s: State) {
    && (forall i :: 0 <= i < |s.threads| ==> ThreadOk(s, s.threads[i]) && ApartFromAcceptor(s.acceptor, s.threads[i]))
    && (forall i, j :: 0 <= i < j < |s.threads| ==> Apart(s.threads[i], s.threads[j]))
    && AcceptorOk(s)
    && (forall i, j :: 0 <= i < j < |s.clients| ==> s.clients[i] != s.clients[j])
  }

  ghost predicate Inv(s: State) {
    !s.fault && Ownership(s) && Owned(s) && Counters(s)
  }

  lemma CountUpdate(ts: seq<Thread>, i: nat, t: Thread, p: Thread -> bool)
    requires i < |ts|
    ensures Count(ts[i := t], p) == Count(ts, p) - (if p(ts[i]) then 1 else 0) + (if p(t) then 1 else 0)
  {
    if i < |ts| - 1 {
      assert ts[i := t][..|ts| - 1] == ts[..|ts| - 1][i := t];
      CountUpdate(ts[..|ts| - 1], i, t, p);
    } else {
      assert ts[i := t][..|ts| - 1] == ts[..|ts| - 1];
    }
  }

  /** A record on the list is the acceptor's or that of exactly one thread. */
  lemma ListedRecord(s: State, a: Addr)
    requires Ownership(s) && Owned(s) && a in s.clients
    ensures a in s.heap && s.heap[a] in s.open && (!s.acceptor.Stopped? ==> s.heap[a] != s.sockFd)
    ensures (s.acceptor.Queued? && s.acceptor.addr == a)
         || exists i :: 0 <= i < |s.threads| && IsListed(s.threads[i]) && s.threads[i].param == a
             && s.heap[a] == s.threads[i].accepted
  {
    if !(s.acceptor.Queued? && s.acceptor.addr == a) {
      assert ThreadLists(s.threads, a);
      var i :| 0 <= i < |s.threads| && IsListed(s.threads[i]) && s.threads[i].param == a;
      assert ThreadOk(s, s.threads[i]);
    }
  }

  lemma ListedApart(s: State, a: Addr, b: Addr)
    requires Ownership(s) && Owned(s) && a in s.clients && b in s.clients && a != b
    ensures a in s.heap && b in s.heap && s.heap[a] != s.heap[b]
  {
    ListedRecord(s, a);
    ListedRecord(s, b);
  }

  /** Every listed record is allocated, and no two have the same descriptor. */
  lemma ListedFdsDistinct(s: State)
    requires Ownership(s) && Owned(s)
    ensures Readable(s)
    ensures forall i, j :: 0 <= i < j < |s.clients| ==> ClientFds(s)[i] != ClientFds(s)[j]
    ensures forall i :: 0 <= i < |s.clients| ==>
              ClientFds(s)[i] in s.open && (!s.acceptor.Stopped? ==> ClientFds(s)[i] != s.sockFd)
  {
    forall i | 0 <= i < |s.clients|
      ensures s.clients[i] in s.heap && s.heap[s.clients[i]] in s.open
      ensures !s.acceptor.Stopped? ==> s.heap[s.clients[i]] != s.sockFd
    {
      ListedRecord(s, s.clients[i]);
    }
    forall i, j | 0 <= i < j < |s.clients|
      ensures s.clients[i] in s.heap && s.clients[j] in s.heap && s.heap[s.clients[i]] != s.heap[s.clients[j]]
    {
      ListedApart(s, s.clients[i], s.clients[j]);
    }
  }

  lemma FindsOwnRecord(s: State, t: nat)
    requires Ownership(s) && Owned(s) && t < |s.threads| && IsListed(s.threads[t])
    ensures Readable(s) && Lookup(s, s.threads[t].accepted) == Some(s.threads[t].param)
  {
    ListedFdsDistinct(s);
    var u := s.threads[t];
    assert ThreadOk(s, u) && ApartFromAcceptor(s.acceptor, u);
    hide Owned; hide Ownership; hide ThreadOk; hide ApartFromAcceptor; hide FirstWith;
    var j :| 0 <= j < |s.clients| && s.clients[j] == u.param;
    var k := FirstWith(ClientFds(s), u.accepted);
    assert ClientFds(s)[j] == u.accepted;
  }

  /** Thread `t` becomes `u`, giving up or taking only what is its own. */
  ghost predicate Replaces(s: State, t: nat, u: Thread, s': State)
    requires t < |s.threads|
  {
    var v := s.threads[t];
    && s' == s.(threads := s.threads[t := u], open := s'.open, heap := s'.heap, clients := s'.clients,
                contextRefs := s'.contextRefs, threadCount := s'.threadCount)
    && u.param == v.param && u.accepted == v.accepted && PhaseOk(u)
    && (HoldsRecord(u) ==> HoldsRecord(v)) && (IsListed(u) ==> IsListed(v))
    && s'.heap == (if HoldsRecord(v) && !HoldsRecord(u) then s.heap - {v.param} else s.heap)
    && (forall a :: a in s'.clients <==> a in s.clients && (a == v.param && HoldsRecord(v) ==> IsListed(u)))
    && (forall i, j :: 0 <= i < j < |s'.clients| ==> s'.clients[i] != s'.clients[j])
    && (Claims(u) - Claims(v)) !! s.open
    && s'.open == s.open - Claims(v) + Claims(u)
    && (HoldsSocket(u) ==> u.accepted !in u.files)
  }

  lemma ReplaceKeepsOwnership(s: State, t: nat, u: Thread, s': State)
    requires Ownership(s) && t < |s.threads| && Replaces(s, t, u, s')
    ensures Ownership(s')
  {
  }

  lemma ReplaceKeepsOwned(s: State, t: nat, u: Thread, s': State)
    requires Ownership(s) && Owned(s) && t < |s.threads| && Replaces(s, t, u, s')
    ensures Owned(s')
  {
    var v, ts := s.threads[t], s'.threads;
    forall a | a in s'.clients && ThreadLists(s.threads, a) ensures ThreadLists(ts, a) {
      var i :| 0 <= i < |s.threads| && IsListed(s.threads[i]) && s.threads[i].param == a;
      assert IsListed(ts[i]) && ts[i].param == a;
    }
    forall a | a in s'.heap && ThreadHolds(s.threads, a) ensures ThreadHolds(ts, a) {
      var i :| 0 <= i < |s.threads| && HoldsRecord(s.threads[i]) && s.threads[i].param == a;
      assert HoldsRecord(ts[i]) && ts[i].param == a;
    }
    forall fd | fd in s'.open && fd !in Claims(u) && ThreadClaims(s.threads, fd) ensures ThreadClaims(ts, fd) {
      var i :| 0 <= i < |s.threads| && fd in Claims(s.threads[i]);
      assert i != t && ts[i] == s.threads[i];
    }
    forall fd | fd in Claims(u) ensures ThreadClaims(ts, fd) {
      assert ts[t] == u;
    }
  }

  predicate IsThreadAction(a: Action) {
    !a.Accept? && !a.AcceptFails? && !a.Allocate? && !a.Register? && !a.Spawn?
  }

  /** What a thread's own step relies on. */
  ghost predicate Ready(s: State, t: nat) {
    && t < |s.threads| && ThreadOk(s, s.threads[t])
    && (forall i, j :: 0 <= i < j < |s.clients| ==> s.clients[i] != s.clients[j])
    && (IsListed(s.threads[t]) ==> Readable(s) && Lookup(s, s.threads[t].accepted) == Some(s.threads[t].param))
    && (HoldsContext(s.threads[t]) ==> s.contextRefs > 1)
  }

  lemma InvReady(s: State, t: nat)
    requires Inv(s) && t < |s.threads|
    ensures Ready(s, t)
  {
    var v := s.threads[t];
    assert ThreadOk(s, v) && ApartFromAcceptor(s.acceptor, v);
    if IsListed(v) { FindsOwnRecord(s, t); }
    CountUpdate(s.threads, t, v.(phase := Closed), HoldsContext);
  }

  lemma PhaseStepReplaces(s: State, a: Action)
    requires Enabled(s, a) && IsThreadAction(a) && Ready(s, a.t)
    requires !a.OpenFile? && !a.CloseFile? && !a.Unlist? && !a.FreeRecord? && !a.CloseSocket?
    ensures !Next(s, a).fault
    ensures Replaces(s, a.t, Next(s, a).threads[a.t], Next(s, a))
  {
    assert Claims(Next(s, a).threads[a.t]) == Claims(s.threads[a.t]);
  }

  lemma FileStepReplaces(s: State, a: Action)
    requires Enabled(s, a) && (a.OpenFile? || a.CloseFile? || a.CloseSocket?) && Ready(s, a.t)
    ensures !Next(s, a).fault
    ensures Replaces(s, a.t, Next(s, a).threads[a.t], Next(s, a))
  {
  }

  lemma FreeRecordReplaces(s: State, t: nat)
    requires Enabled(s, FreeRecord(t)) && Ready(s, t)
    ensures !Next(s, FreeRecord(t)).fault
    ensures Replaces(s, t, Next(s, FreeRecord(t)).threads[t], Next(s, FreeRecord(t)))
  {
  }

  lemma UnlistReplaces(s: State, t: nat)
    requires Enabled(s, Unlist(t)) && Ready(s, t)
    ensures !Next(s, Unlist(t)).fault
    ensures Replaces(s, t, Next(s, Unlist(t)).threads[t], Next(s, Unlist(t)))
  {
    RemoveFromDistinct(s.clients, FirstWith(ClientFds(s), s.threads[t].accepted));
  }

  lemma ThreadStepReplaces(s: State, a: Action)
    requires Enabled(s, a) && IsThreadAction(a) && Ready(s, a.t)
    ensures !Next(s, a).fault
    ensures Replaces(s, a.t, Next(s, a).threads[a.t], Next(s, a))
  {
    match a
    case OpenFile(t, file) => FileStepReplaces(s, a);
    case CloseFile(t, file) => FileStepReplaces(s, a);
    case CloseSocket(t) => FileStepReplaces(s, a);
    case Unlist(t) => UnlistReplaces(s, t);
    case FreeRecord(t) => FreeRecordReplaces(s, t);
    case _ => PhaseStepReplaces(s, a);
  }

  lemma ThreadStepKeepsCounters(s: State, a: Action)
    requires Enabled(s, a) && IsThreadAction(a) && Ready(s, a.t) && Counters(s)
    ensures Counters(Next(s, a))
  {
    ThreadStepReplaces(s, a);
    CountUpdate(s.threads, a.t, Next(s, a).threads[a.t], HoldsContext);
    CountUpdate(s.threads, a.t, Next(s, a).threads[a.t], InCount);
  }

  lemma AcceptKeepsOwnership(s: State, a: Action)
    requires Inv(s) && Enabled(s, a) && (a.Accept? || a.AcceptFails?)
    ensures !Next(s, a).fault && Ownership(Next(s, a))
  {
    ListedFdsDistinct(s);
  }

  lemma AllocateKeepsOwnership(s: State, addr: Addr)
    requires Inv(s) && Enabled(s, Allocate(addr))
    ensures Ownership(Next(s, Allocate(addr)))
  {
    ListedFdsDistinct(s);
    assert addr !in s.clients;
  }

  lemma RegisterKeepsOwnership(s: State)
    requires Inv(s) && Enabled(s, Register)
    ensures Ownership(Next(s, Register))
  {
  }

  lemma SpawnKeepsOwnership(s: State)
    requires Inv(s) && Enabled(s, Spawn)
    ensures Ownership(Next(s, Spawn))
  {
    var n, s' := |s.threads|, Next(s, Spawn);
    assert ThreadOk(s', s'.threads[n]);
    assert forall i :: 0 <= i < n ==>
             s'.threads[i] == s.threads[i] && ThreadOk(s, s.threads[i]) && ApartFromAcceptor(s.acceptor, s.threads[i]);
  }

  lemma AcceptorStepKeepsOwnership(s: State, a: Action)
    requires Inv(s) && Enabled(s, a) && !IsThreadAction(a)
    ensures !Next(s, a).fault && Ownership(Next(s, a))
  {
    match a
    case Allocate(addr) => AllocateKeepsOwnership(s, addr);
    case Register => RegisterKeepsOwnership(s);
    case Spawn => SpawnKeepsOwnership(s);
    case _ => AcceptKeepsOwnership(s, a);
  }

  lemma AcceptorStepKeepsOwned(s: State, a: Action)
    requires Owned(s) && Counters(s) && Enabled(s, a) && !IsThreadAction(a) && !Next(s, a).fault
    ensures Owned(Next(s, a)) && Counters(Next(s, a))
  {
    if a.Spawn? {
      SpawnKeepsOwned(s);
    }
  }

  lemma SpawnKeepsOwned(s: State)
    requires Owned(s) && Counters(s) && Enabled(s, Spawn)
    ensures Owned(Next(s, Spawn)) && Counters(Next(s, Spawn))
  {
    var ts, c := s.threads, Next(s, Spawn).threads;
    assert c[|ts|].param == s.acceptor.addr && IsListed(c[|ts|]) && HoldsRecord(c[|ts|])
        && s.acceptor.fd in Claims(c[|ts|]);
    assert c[..|c| - 1] == ts;
    assert forall i :: 0 <= i < |ts| ==> c[i] == ts[i];
  }

  lemma StepKeepsInv(s: State, a: Action)
    requires Inv(s) && Enabled(s, a)
    ensures Inv(Next(s, a))
  {
    if IsThreadAction(a) {
      InvReady(s, a.t);
      ThreadStepReplaces(s, a);
      ReplaceKeepsOwnership(s, a.t, Next(s, a).threads[a.t], Next(s, a));
      ReplaceKeepsOwned(s, a.t, Next(s, a).threads[a.t], Next(s, a));
      ThreadStepKeepsCounters(s, a);
    } else {
      AcceptorStepKeepsOwnership(s, a);
      AcceptorStepKeepsOwned(s, a);
    }
  }

  lemma InitialInv(sockFd: Fd)
    ensures Inv(Initial(sockFd))
  {
  }

  lemma {:induction false} RunKeepsInv(s: State, actions: seq<Action>, s': State)
    requires Inv(s) && Run(s, actions, s')
    ensures Inv(s')
    decreases |actions|
  {
    if actions != [] {
      StepKeepsInv(s, actions[0]);
      RunKeepsInv(Next(s, actions[0]), actions[1..], s');
    }
  }

  // ---- What holds in every reachable state ----

  /** No freed record is read, no record or descriptor is released twice, getClient never misses; and the
      registered descriptors are pairwise distinct, open, and never the listening socket. */
  lemma RegisteredClientsAreSafe(sockFd: Fd, actions: seq<Action>, s: State)
    requires Run(Initial(sockFd), actions, s)
    ensures !s.fault && Readable(s)
    ensures forall i, j :: 0 <= i < j < |s.clients| ==> ClientFds(s)[i] != ClientFds(s)[j]
    ensures forall fd :: fd in ClientFds(s) ==> fd in s.open && (!s.acceptor.Stopped? ==> fd != s.sockFd)
  {
    RunKeepsInv(Initial(sockFd), actions, s);
    ListedFdsDistinct(s);
  }

  lemma NotListedForOther(s: State, a: Addr, t: nat)
    requires Ownership(s) && Owned(s) && a in s.clients && t < |s.threads|
    requires HoldsSocket(s.threads[t]) && !IsListed(s.threads[t])
    ensures a in s.heap && s.heap[a] != s.threads[t].accepted
  {
    var v := s.threads[t];
    assert ThreadOk(s, v) && ApartFromAcceptor(s.acceptor, v);
    ListedRecord(s, a);
    if !(s.acceptor.Queued? && s.acceptor.addr == a) {
      var i :| 0 <= i < |s.threads| && IsListed(s.threads[i]) && s.threads[i].param == a
          && s.heap[a] == s.threads[i].accepted;
      assert i != t && (if i < t then Apart(s.threads[i], v) else Apart(v, s.threads[i]));
    }
  }

  /** Until it removes its record, a thread looking up its descriptor finds its own record. From then on until it closes
      the descriptor no listed record answers to it, even if the record's address is in use again; after that the
      descriptor may belong to a new connection. */
  lemma ThreadFindsItsOwnRecord(sockFd: Fd, actions: seq<Action>, s: State, t: nat)
    requires Run(Initial(sockFd), actions, s) && t < |s.threads|
    ensures Readable(s)
    ensures IsListed(s.threads[t]) ==>
              && s.threads[t].param in s.heap && s.heap[s.threads[t].param] == s.threads[t].accepted
              && Lookup(s, s.threads[t].accepted) == Some(s.threads[t].param)
    ensures HoldsSocket(s.threads[t]) && !IsListed(s.threads[t]) ==> Lookup(s, s.threads[t].accepted).None?
  {
    RunKeepsInv(Initial(sockFd), actions, s);
    ListedFdsDistinct(s);
    var v := s.threads[t];
    if IsListed(v) {
      assert ThreadOk(s, v);
      FindsOwnRecord(s, t);
    } else if HoldsSocket(v) {
      var k := FirstWith(ClientFds(s), v.accepted);
      if k < |s.clients| {
        assert s.clients[k] in s.clients;
        NotListedForOther(s, s.clients[k], t);
      }
    }
  }

  /** The context is released only by the last reference: while the acceptor exists its count is one plus
      the threads between SSL_new and SSL_CTX_free, and threadCount counts the threads between its two
      critical sections. */
  lemma ContextAndCounterAreExact(sockFd: Fd, actions: seq<Action>, s: State)
    requires Run(Initial(sockFd), actions, s)
    ensures s.contextRefs == 1 + Count(s.threads, HoldsContext) >= 1
    ensures s.threadCount == Count(s.threads, InCount)
  {
    InitialInv(sockFd);
    RunKeepsInv(Initial(sockFd), actions, s);
  }

  /** Whatever a thread is about to use is still there: its record until it has freed it, its reference to the context
      until it has given it up, its descriptor until it has closed it, and what its cleanup found is its own record. */
  lemma WhatIsUsedIsThere(sockFd: Fd, actions: seq<Action>, s: State, t: nat)
    requires Run(Initial(sockFd), actions, s) && t < |s.threads|
    ensures var u := s.threads[t]; var p := u.phase;
      && (p.Created? || p.Counted? || p.Running? ==> u.param in s.heap && s.heap[u.param] == u.accepted)
      && (p.Cleaning? ==> p.fd == u.accepted && u.param in s.heap)
      && (p.Unlisted? ==> p.fd == u.accepted && p.found == Some(u.param) && u.param in s.heap)
      && (p.Running? || p.Cleaning? || p.Unlisted? ==> s.contextRefs > 1)
      && (p.ContextFreed? ==> p.fd == u.accepted && p.record == u.param && u.param in s.heap)
      && (p.RecordFreed? ==> p.fd == u.accepted)
      && (!p.Closed? && !p.Exited? ==> u.accepted in s.open)
      && u.files <= s.open
  {
    RunKeepsInv(Initial(sockFd), actions, s);
    InvReady(s, t);
  }

  /** No two connections share a record or a descriptor. */
  lemma NothingIsShared(sockFd: Fd, actions: seq<Action>, s: State, t: nat, u: nat)
    requires Run(Initial(sockFd), actions, s) && t < |s.threads| && u < |s.threads| && t != u
    requires HoldsRecord(s.threads[t]) && HoldsRecord(s.threads[u])
    ensures s.threads[t].param != s.threads[u].param && s.threads[t].accepted != s.threads[u].accepted
    ensures s.threads[t].files !! s.threads[u].files && s.threads[t].accepted !in s.threads[u].files
  {
    RunKeepsInv(Initial(sockFd), actions, s);
    assert ThreadOk(s, s.threads[t]) && ThreadOk(s, s.threads[u]);
    assert if t < u then Apart(s.threads[t], s.threads[u]) else Apart(s.threads[u], s.threads[t]);
  }

  function FreesBy(actions: seq<Action>, t: nat): nat {
    if actions == [] then 0 else (if actions[0] == FreeRecord(t) then 1 else 0) + FreesBy(actions[1..], t)
  }

  function Freed(s: State, t: nat): nat {
    if t < |s.threads| && !HoldsRecord(s.threads[t]) then 1 else 0
  }

  lemma FreesMatchStep(s: State, a: Action, t: nat)
    requires Enabled(s, a) && (IsThreadAction(a) ==> Ready(s, a.t))
    ensures Freed(Next(s, a), t) == Freed(s, t) + if a == FreeRecord(t) then 1 else 0
  {
    if IsThreadAction(a) { ThreadStepReplaces(s, a); }
  }

  lemma {:induction false} FreesMatchPhase(s: State, actions: seq<Action>, s': State, t: nat)
    requires Inv(s) && Run(s, actions, s')
    ensures Freed(s', t) == Freed(s, t) + FreesBy(actions, t)
    decreases |actions|
  {
    if actions != [] {
      var a := actions[0];
      assert IsThreadAction(a) ==> Ready(s, a.t) by { if IsThreadAction(a) { InvReady(s, a.t); } }
      FreesMatchStep(s, a, t);
      StepKeepsInv(s, a);
      FreesMatchPhase(Next(s, a), actions[1..], s', t);
    }
  }

  /** Each thread frees exactly one record, its own: never twice, and always by the time it exits. */
  lemma EachRecordFreedOnce(sockFd: Fd, actions: seq<Action>, s: State, t: nat)
    requires Run(Initial(sockFd), actions, s)
    ensures FreesBy(actions, t) <= 1
    ensures t < |s.threads| && s.threads[t].phase.Exited? ==> FreesBy(actions, t) == 1
    ensures t < |s.threads| && s.threads[t].phase.ContextFreed? ==> s.threads[t].phase.record == s.threads[t].param
  {
    InitialInv(sockFd);
    RunKeepsInv(Initial(sockFd), actions, s);
    FreesMatchPhase(Initial(sockFd), actions, s, t);
    if t < |s.threads| { assert ThreadOk(s, s.threads[t]); }
  }

  function Allocations(actions: seq<Action>): nat {
    if actions == [] then 0 else (if actions[0].Allocate? then 1 else 0) + Allocations(actions[1..])
  }

  function Frees(actions: seq<Action>): nat {
    if actions == [] then 0 else (if actions[0].FreeRecord? then 1 else 0) + Frees(actions[1..])
  }

  lemma HeapStep(s: State, a: Action)
    requires Enabled(s, a) && !Next(s, a).fault
    ensures a.Allocate? ==> a.newAddr !in s.heap && Next(s, a).heap.Keys == s.heap.Keys + {a.newAddr}
    ensures a.FreeRecord? ==>
              var r := s.threads[a.t].phase.record; r in s.heap && Next(s, a).heap.Keys == s.heap.Keys - {r}
    ensures !a.Allocate? && !a.FreeRecord? ==> Next(s, a).heap == s.heap
  {
  }

  lemma RecordsConservedStep(s: State, a: Action)
    requires Enabled(s, a) && !Next(s, a).fault
    ensures |Next(s, a).heap| == |s.heap| + (if a.Allocate? then 1 else 0) - (if a.FreeRecord? then 1 else 0)
  {
    HeapStep(s, a);
    hide Next;
    assert |s.heap| == |s.heap.Keys| && |Next(s, a).heap| == |Next(s, a).heap.Keys|;
  }

  lemma {:induction false} RecordsConserved(s: State, actions: seq<Action>, s': State)
    requires Inv(s) && Run(s, actions, s')
    ensures |s'.heap| + Frees(actions) == |s.heap| + Allocations(actions)
    decreases |actions|
  {
    if actions != [] {
      var a := actions[0];
      StepKeepsInv(s, a);
      RecordsConservedStep(s, a);
      RecordsConserved(Next(s, a), actions[1..], s');
    }
  }

  lemma CountNone(ts: seq<Thread>, p: Thread -> bool)
    requires forall i :: 0 <= i < |ts| ==> !p(ts[i])
    ensures Count(ts, p) == 0
  {
  }

  lemma ExitedHoldNothing(ts: seq<Thread>)
    requires forall i :: 0 <= i < |ts| ==> ts[i].phase.Exited?
    ensures forall a :: !ThreadHolds(ts, a)
    ensures forall a :: !ThreadLists(ts, a)
  {
  }

  lemma FirstIsMember(s: seq<Addr>)
    ensures s == [] || s[0] in s
  {
  }

  lemma AllReleased(s: State)
    requires Owned(s) && Counters(s)
    requires s.acceptor.Listening? || s.acceptor.Stopped?
    requires forall i :: 0 <= i < |s.threads| ==> s.threads[i].phase.Exited?
    ensures s.clients == [] && s.heap == map[] && s.contextRefs == 1 && s.threadCount == 0
    ensures forall fd :: fd in s.open ==> fd == s.sockFd || exists i :: 0 <= i < |s.threads| && fd in s.threads[i].files
  {
    FirstIsMember(s.clients);
    CountNone(s.threads, HoldsContext);
    CountNone(s.threads, InCount);
    ExitedHoldNothing(s.threads);
    assert forall a :: a !in s.heap && a !in s.clients;
    forall fd | fd in s.open && fd != s.sockFd
      ensures exists i :: 0 <= i < |s.threads| && fd in s.threads[i].files
    {
      assert ThreadClaims(s.threads, fd);
      var i :| 0 <= i < |s.threads| && fd in Claims(s.threads[i]);
      assert fd in s.threads[i].files;
    }
  }

  /** When every thread has exited and the acceptor waits again or has stopped, everything has been given back: the list
      and the heap are empty, the context has its one reference, the counter is zero, and the only open
      descriptors are the listening socket and files a request handler left open. */
  lemma NothingLeaks(sockFd: Fd, actions: seq<Action>, s: State)
    requires Run(Initial(sockFd), actions, s)
    requires s.acceptor.Listening? || s.acceptor.Stopped?
    requires forall i :: 0 <= i < |s.threads| ==> s.threads[i].phase.Exited?
    ensures s.clients == [] && s.heap == map[] && s.contextRefs == 1 && s.threadCount == 0
    ensures Allocations(actions) == Frees(actions)
    ensures forall fd :: fd in s.open ==> fd == s.sockFd || exists i :: 0 <= i < |s.threads| && fd in s.threads[i].files
  {
    InitialInv(sockFd);
    RunKeepsInv(Initial(sockFd), actions, s);
    RecordsConserved(Initial(sockFd), actions, s);
    AllReleased(s);
  }
}
