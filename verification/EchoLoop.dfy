// The kqueue event loop of redis/main.go over a small model of the kernel.
//
// Connections have identities that are never reused; file descriptors are. An event carries, as a
// specification-only note, the connection it was raised for, so that it can be asked on which connection
// the loop really acts.
module EchoLoop {
  import opened Bytes
  import opened Modular
  import opened Options
  import opened Sums

  const BUF_SIZE := 1024

  /** One accepted connection, from the first byte the client sent. */
  datatype Conn = Conn(
    sent: seq<Byte>,         // by the client
    consumed: nat,           // bytes read by the loop
    echoed: seq<Byte>,       // bytes written back
    eof: bool,               // the client has closed its side
    writeFailed: bool)       // some write returned an error

  /** `raisedFor` is None on the listener. */
  datatype Event = Event(fd: nat, eof: bool, raisedFor: Option<nat>)

  datatype Kernel = Kernel(
    listenerFd: nat,
    listenerOpen: bool,
    reserved: set<nat>,      // other descriptors of the process
    backlog: nat,            // connections waiting to be accepted
    open: map<nat, nat>,     // client descriptor -> connection
    registered: set<nat>,    // descriptors in the kqueue
    ready: set<nat>,         // connections with an edge that was not reported yet
    conns: seq<Conn>)

  /** `pending` are the events of the current batch not handled yet. */
  datatype State = State(kernel: Kernel, pending: seq<Event>)

  /** What the system calls made for one event answer. */
  datatype Answer = Answer(accepts: bool, newFd: nat, registers: bool, readOk: bool, writeOk: bool)

  datatype Action =
    | Connect                                // a client connects
    | Deliver(conn: nat, bytes: seq<Byte>)   // bytes of a client arrive
    | PeerClose(conn: nat)                   // a client closes
    | Poll(batch: seq<Event>)                // kevent returns a batch
    | Handle(answer: Answer)                 // the loop handles the next event

  // ---------------------------------------------------------------------------------------------
  // The loop body
  // ---------------------------------------------------------------------------------------------

  function Unread(c: Conn): int {
    |c.sent| - c.consumed
  }

  /** Closing a descriptor also removes it from the kqueue. */
  function Close(k: Kernel, fd: nat): Kernel {
    if fd == k.listenerFd then k.(listenerOpen := false, registered := k.registered - {fd})
    else k.(open := k.open - {fd}, registered := k.registered - {fd})
  }

  predicate Unused(k: Kernel, fd: nat) {
    fd !in k.open && fd !in k.reserved && fd != k.listenerFd
  }

  function AcceptOne(k: Kernel, answer: Answer): Kernel {
    if !(answer.accepts && k.listenerOpen && k.backlog > 0 && Unused(k, answer.newFd)) then k
    else
      var conn := |k.conns|;
      var accepted := k.(backlog := k.backlog - 1, open := k.open[answer.newFd := conn],
                         conns := k.conns + [Conn([], 0, [], false, false)]);
      if answer.registers then accepted.(registered := accepted.registered + {answer.newFd})
      else Close(accepted, answer.newFd)
  }

  function ReadAndEcho(k: Kernel, fd: nat, answer: Answer): Kernel {
    if fd !in k.open || k.open[fd] >= |k.conns| then Close(k, fd)
    else
      var c := k.conns[k.open[fd]];
      var n := Min(Unread(c), BUF_SIZE);
      if !answer.readOk || n <= 0 then Close(k, fd)
      else
        var buf := c.sent[c.consumed..c.consumed + n];
        k.(conns := k.conns[k.open[fd] :=
             if answer.writeOk then c.(consumed := c.consumed + n, echoed := c.echoed + buf)
             else c.(consumed := c.consumed + n, writeFailed := true)])
  }

  function HandleEvent(k: Kernel, ev: Event, answer: Answer): Kernel {
    if ev.eof then Close(k, ev.fd)
    else if ev.fd == k.listenerFd then AcceptOne(k, answer)
    else ReadAndEcho(k, ev.fd, answer)
  }

  // ---------------------------------------------------------------------------------------------
  // The whole system
  // ---------------------------------------------------------------------------------------------

  /** A batch reports each descriptor at most once; a client descriptor is reported only with an edge and
      with something to read or an end of file. */
  ghost predicate ValidBatch(k: Kernel, batch: seq<Event>) {
    && (forall i, j :: 0 <= i < j < |batch| ==> batch[i].fd != batch[j].fd)
    && (forall ev <- batch :: ev.fd in k.registered)
    && (forall ev <- batch :: ev.fd == k.listenerFd ==> ev.raisedFor.None?)
    && (forall ev <- batch :: ev.fd != k.listenerFd ==>
          && ev.fd in k.open && ev.raisedFor == Some(k.open[ev.fd]) && k.open[ev.fd] < |k.conns|
          && k.open[ev.fd] in k.ready
          && (ev.eof <==> k.conns[k.open[ev.fd]].eof)
          && (ev.eof || Unread(k.conns[k.open[ev.fd]]) > 0))
  }

  /** The connections a batch reports. */
  function Reported(batch: seq<Event>): set<nat> {
    set ev <- batch | ev.raisedFor.Some? :: ev.raisedFor.value
  }

  ghost predicate Enabled(s: State, a: Action) {
    match a
    case Connect => true
    case Deliver(c, bytes) => c < |s.kernel.conns| && !s.kernel.conns[c].eof && bytes != []
    case PeerClose(c) => c < |s.kernel.conns|
    case Poll(batch) => s.pending == [] && ValidBatch(s.kernel, batch)
    case Handle(_) => s.pending != []
  }

  ghost function Apply(s: State, a: Action): State
    requires Enabled(s, a)
  {
    var k := s.kernel;
    match a
    case Connect => s.(kernel := k.(backlog := k.backlog + 1))
    case Deliver(c, bytes) =>
      s.(kernel := k.(conns := k.conns[c := k.conns[c].(sent := k.conns[c].sent + bytes)], ready := k.ready + {c}))
    case PeerClose(c) =>
      s.(kernel := k.(conns := k.conns[c := k.conns[c].(eof := true)], ready := k.ready + {c}))
    case Poll(batch) => State(k.(ready := k.ready - Reported(batch)), batch)
    case Handle(answer) => State(HandleEvent(k, s.pending[0], answer), s.pending[1..])
  }

  ghost predicate Init(s: State) {
    var k := s.kernel;
    && s.pending == []
    && k.listenerOpen && k.listenerFd !in k.reserved && k.backlog == 0
    && k.open == map[] && k.registered == {k.listenerFd} && k.ready == {} && k.conns == []
  }

  ghost predicate CanRun(s: State, run: seq<Action>)
    decreases run
  {
    run != [] ==> Enabled(s, run[0]) && CanRun(Apply(s, run[0]), run[1..])
  }

  ghost function Run(s: State, run: seq<Action>): State
    requires CanRun(s, run)
    decreases run
  {
    if run == [] then s else Run(Apply(s, run[0]), run[1..])
  }

  // ---------------------------------------------------------------------------------------------
  // The invariant
  // ---------------------------------------------------------------------------------------------

  ghost predicate DescriptorInv(k: Kernel) {
    && k.listenerFd !in k.open
    && k.registered == k.open.Keys + (if k.listenerOpen then {k.listenerFd} else {})
    && (forall fd :: fd in k.open ==> k.open[fd] < |k.conns|)
    && (forall fd, fd' :: fd in k.open && fd' in k.open && k.open[fd] == k.open[fd'] ==> fd == fd')
  }

  ghost predicate EchoInv(c: Conn) {
    && c.consumed <= |c.sent|
    && if c.writeFailed then |c.echoed| < c.consumed else c.echoed == c.sent[..c.consumed]
  }

  /** A pending event still finds the connection it was raised for behind its descriptor, and there is still
      something to do about it. */
  ghost predicate OnTarget(k: Kernel, ev: Event) {
    if ev.fd == k.listenerFd then ev.raisedFor.None? && k.listenerOpen
    else
      && ev.fd in k.open && ev.raisedFor == Some(k.open[ev.fd]) && k.open[ev.fd] < |k.conns|
      && (if ev.eof then k.conns[k.open[ev.fd]].eof else Unread(k.conns[k.open[ev.fd]]) > 0)
  }

  ghost predicate PendingInv(s: State) {
    && (forall i, j :: 0 <= i < j < |s.pending| ==> s.pending[i].fd != s.pending[j].fd)
    && (forall i :: 0 <= i < |s.pending| ==> OnTarget(s.kernel, s.pending[i]))
  }

  ghost predicate Inv(s: State) {
    && DescriptorInv(s.kernel) && PendingInv(s)
    && forall c <- s.kernel.conns :: EchoInv(c)
  }

  // What one event changes among the client descriptors.
  lemma {:induction false} HandleTouchesOneDescriptor(k: Kernel, ev: Event, answer: Answer, fd: nat)
    requires DescriptorInv(k) && fd != ev.fd && fd in k.open
    ensures fd in HandleEvent(k, ev, answer).open && HandleEvent(k, ev, answer).open[fd] == k.open[fd]
    ensures k.open[fd] < |HandleEvent(k, ev, answer).conns|
         && HandleEvent(k, ev, answer).conns[k.open[fd]] == k.conns[k.open[fd]]
  {
  }

  lemma {:induction false} ReadKeepsEchoInv(k: Kernel, fd: nat, answer: Answer)
    requires forall i :: 0 <= i < |k.conns| ==> EchoInv(k.conns[i])
    ensures var conns := ReadAndEcho(k, fd, answer).conns;
            forall i :: 0 <= i < |conns| ==> EchoInv(conns[i])
  {
  }

  lemma {:induction false} HandleKeepsEchoInv(k: Kernel, ev: Event, answer: Answer)
    requires forall c <- k.conns :: EchoInv(c)
    ensures forall c <- HandleEvent(k, ev, answer).conns :: EchoInv(c)
  {
    ReadKeepsEchoInv(k, ev.fd, answer);
    var conns := AcceptOne(k, answer).conns;
    forall i | 0 <= i < |conns| ensures EchoInv(conns[i]) {
      assert i < |k.conns| ==> conns[i] == k.conns[i];
    }
  }

  lemma {:induction false} HandleKeepsPendingInv(s: State, answer: Answer)
    requires DescriptorInv(s.kernel) && PendingInv(s) && s.pending != []
    ensures PendingInv(Apply(s, Handle(answer)))
  {
    var t := Apply(s, Handle(answer));
    forall i | 0 <= i < |t.pending| ensures t.pending[i] == s.pending[i + 1] && OnTarget(t.kernel, t.pending[i]) {
      assert OnTarget(s.kernel, s.pending[i + 1]);
      if t.pending[i].fd != s.kernel.listenerFd {
        HandleTouchesOneDescriptor(s.kernel, s.pending[0], answer, t.pending[i].fd);
      }
    }
  }

  lemma {:induction false} ClientKeepsInv(s: State, a: Action)
    requires Inv(s) && Enabled(s, a) && (a.Deliver? || a.PeerClose?)
    ensures Inv(Apply(s, a))
  {
    var t, c := Apply(s, a), s.kernel.conns[a.conn];
    assert EchoInv(c);
    if a.Deliver? {
      assert (c.sent + a.bytes)[..c.consumed] == c.sent[..c.consumed];
    }
    assert EchoInv(t.kernel.conns[a.conn]);
    forall i | 0 <= i < |t.pending| ensures OnTarget(t.kernel, t.pending[i]) {
      assert OnTarget(s.kernel, s.pending[i]);
    }
  }

  lemma {:induction false} StepInv(s: State, a: Action)
    requires Inv(s) && Enabled(s, a)
    ensures Inv(Apply(s, a))
  {
    match a
    case Handle(answer) =>
      HandleKeepsEchoInv(s.kernel, s.pending[0], answer);
      HandleKeepsPendingInv(s, answer);
    case Deliver(_, _) => ClientKeepsInv(s, a);
    case PeerClose(_) => ClientKeepsInv(s, a);
    case _ =>
  }

  lemma {:induction false} RunInv(s: State, run: seq<Action>)
    requires Inv(s) && CanRun(s, run)
    ensures Inv(Run(s, run))
    decreases run
  {
    if run != [] {
      StepInv(s, run[0]);
      RunInv(Apply(s, run[0]), run[1..]);
    }
  }

  /** In every run, every event not handled yet is on the connection it was raised for, although
      descriptors are closed and reused inside the batch. */
  lemma {:induction false} EventsHitTheirConnection(s: State, run: seq<Action>)
    requires Init(s) && CanRun(s, run)
    ensures forall ev <- Run(s, run).pending :: OnTarget(Run(s, run).kernel, ev)
  {
    RunInv(s, run);
  }

  /** A client event either ends its connection's descriptor, when the client is gone or the read fails, or
      answers with the next bytes the client sent: all that are there, up to the buffer. Nothing else changes. */
  lemma {:induction false} ClientEventOutcome(s: State, run: seq<Action>, answer: Answer)
    requires Init(s) && CanRun(s, run)
    requires Run(s, run).pending != [] && Run(s, run).pending[0].fd != Run(s, run).kernel.listenerFd
    ensures var t := Run(s, run).kernel;
            var ev, k := Run(s, run).pending[0], HandleEvent(t, Run(s, run).pending[0], answer);
            && ev.raisedFor.Some? && ev.raisedFor.value < |t.conns| && ev.fd in t.open
            && t.open[ev.fd] == ev.raisedFor.value
            && var before := t.conns[ev.raisedFor.value];
               var n := Min(|before.sent| - before.consumed, 1024);
               if ev.eof || !answer.readOk then k == t.(open := t.open - {ev.fd}, registered := t.registered - {ev.fd})
               else
                 && 0 < n && before.consumed + n <= |before.sent|
                 && k == t.(conns := t.conns[ev.raisedFor.value := before.(
                              consumed := before.consumed + n,
                              echoed := before.echoed + (if answer.writeOk then before.sent[before.consumed..][..n]
                                                         else []),
                              writeFailed := before.writeFailed || !answer.writeOk)])
  {
    RunInv(s, run);
    var t := Run(s, run);
    assert OnTarget(t.kernel, t.pending[0]);
    var c := t.kernel.conns[t.pending[0].raisedFor.value];
    assert EchoInv(c);
    var n := Min(|c.sent| - c.consumed, BUF_SIZE);
    assert 0 < n ==> c.sent[c.consumed..][..n] == c.sent[c.consumed..c.consumed + n];
    assert c.echoed + [] == c.echoed;
  }

  /** A listener event that is no end of file finds the listener open. When accept succeeds it takes exactly one
      connection from the backlog; that one is new, has sent nothing yet, and is open and registered exactly when
      its registration succeeds. When accept fails nothing changes, and older connections never do. */
  lemma {:induction false} ListenerEventOutcome(s: State, run: seq<Action>, answer: Answer)
    requires Init(s) && CanRun(s, run)
    requires Run(s, run).pending != [] && Run(s, run).pending[0].fd == Run(s, run).kernel.listenerFd
    requires !Run(s, run).pending[0].eof
    ensures var t := Run(s, run).kernel;
            var k := HandleEvent(t, Run(s, run).pending[0], answer);
            var fd := answer.newFd;
            if answer.accepts && t.backlog > 0 && fd !in t.open && fd !in t.reserved && fd != t.listenerFd then
              && k.backlog == t.backlog - 1
              && k.conns == t.conns + [Conn([], 0, [], false, false)]
              && (fd in k.open <==> answer.registers) && (fd in k.registered <==> answer.registers)
              && (answer.registers ==> k.open[fd] == |t.conns|)
              && (forall other :: other != fd ==>
                    && (other in k.open <==> other in t.open) && (other in k.registered <==> other in t.registered)
                    && (other in t.open ==> k.open[other] == t.open[other]))
              && k.ready == t.ready && k.listenerOpen
            else k == t
  {
    RunInv(s, run);
    var t := Run(s, run);
    assert OnTarget(t.kernel, t.pending[0]);
  }

  /** Once a batch is done, what is outstanding can be reported: a connection that waits to be accepted, and an open
      connection with an edge that has something to read or is at its end. */
  lemma {:induction false} OutstandingIsReportable(s: State, run: seq<Action>)
    requires Init(s) && CanRun(s, run) && Run(s, run).pending == []
    ensures var t := Run(s, run);
            && (t.kernel.listenerOpen ==> Enabled(t, Poll([Event(t.kernel.listenerFd, false, None)])))
            && forall fd :: fd in t.kernel.open ==>
                 var conn := t.kernel.open[fd];
                 && conn < |t.kernel.conns|
                 && var c := t.kernel.conns[conn];
                    conn in t.kernel.ready && (c.eof || Unread(c) > 0) ==>
                      Enabled(t, Poll([Event(fd, c.eof, Some(conn))]))
  {
    RunInv(s, run);
  }

  ghost predicate EndAnnounced(s: State, conn: nat) {
    conn in s.kernel.ready || exists ev <- s.pending :: ev.raisedFor == Some(conn) && ev.eof
  }

  /** A client that has closed is not forgotten: as long as its connection is open there is an edge, or an event
      with an end of file, which will release the descriptor. */
  ghost predicate EndIsAnnounced(s: State) {
    forall conn :: 0 <= conn < |s.kernel.conns| && s.kernel.conns[conn].eof && IsOpen(s.kernel, conn) ==>
      EndAnnounced(s, conn)
  }

  lemma {:induction false} HandleKeepsEnd(s: State, answer: Answer, conn: nat)
    requires Inv(s) && EndIsAnnounced(s) && s.pending != []
    requires var k := Apply(s, Handle(answer)).kernel; conn < |k.conns| && k.conns[conn].eof && IsOpen(k, conn)
    ensures EndAnnounced(Apply(s, Handle(answer)), conn)
  {
    assert OnTarget(s.kernel, s.pending[0]);
    if s.pending[0].raisedFor == Some(conn) {
      OwnEvent(s, answer, conn);
    } else if conn < |s.kernel.conns| {
      OtherEventLeavesIt(s, answer, conn);
    }
  }

  lemma {:induction false} PollKeepsEnd(s: State, batch: seq<Event>, conn: nat)
    requires Inv(s) && EndIsAnnounced(s) && Enabled(s, Poll(batch))
    requires conn < |s.kernel.conns| && s.kernel.conns[conn].eof && IsOpen(s.kernel, conn)
    ensures EndAnnounced(Apply(s, Poll(batch)), conn)
  {
    if conn in Reported(batch) {
      var ev :| ev in batch && ev.raisedFor == Some(conn);
      assert ev in Apply(s, Poll(batch)).pending && ev.eof;
    }
  }

  lemma {:induction false} StepKeepsEnd(s: State, a: Action)
    requires Inv(s) && EndIsAnnounced(s) && Enabled(s, a)
    ensures EndIsAnnounced(Apply(s, a))
  {
    var t := Apply(s, a);
    forall conn | 0 <= conn < |t.kernel.conns| && t.kernel.conns[conn].eof && IsOpen(t.kernel, conn)
      ensures EndAnnounced(t, conn)
    {
      match a
      case Handle(answer) => HandleKeepsEnd(s, answer, conn);
      case Poll(batch) => PollKeepsEnd(s, batch, conn);
      case _ => assert IsOpen(s.kernel, conn) <==> IsOpen(t.kernel, conn);
    }
  }

  lemma {:induction false} RunKeepsEnd(s: State, run: seq<Action>)
    requires Inv(s) && EndIsAnnounced(s) && CanRun(s, run)
    ensures EndIsAnnounced(Run(s, run))
    decreases run
  {
    if run != [] {
      StepKeepsEnd(s, run[0]);
      StepInv(s, run[0]);
      RunKeepsEnd(Apply(s, run[0]), run[1..]);
    }
  }

  /** In every run a client that closes is noticed: its open connection has an edge or an end-of-file event. */
  lemma {:induction false} ClosedClientIsNoticed(s: State, run: seq<Action>)
    requires Init(s) && CanRun(s, run)
    ensures EndIsAnnounced(Run(s, run))
  {
    RunKeepsEnd(s, run);
  }

  function DeliveredBy(a: Action, conn: nat): seq<Byte> {
    if a.Deliver? && a.conn == conn then a.bytes else []
  }

  function Delivered(run: seq<Action>, conn: nat): seq<Byte> {
    if run == [] then [] else DeliveredBy(run[0], conn) + Delivered(run[1..], conn)
  }

  function SentOn(k: Kernel, conn: nat): seq<Byte> {
    if conn < |k.conns| then k.conns[conn].sent else []
  }

  lemma {:induction false} StepSends(s: State, a: Action, conn: nat)
    requires Inv(s) && Enabled(s, a)
    ensures SentOn(Apply(s, a).kernel, conn) == SentOn(s.kernel, conn) + DeliveredBy(a, conn)
  {
    if a.Handle? {
      assert OnTarget(s.kernel, s.pending[0]);
    }
  }

  lemma {:induction false} Regroup(a: seq<Byte>, b: seq<Byte>, c: seq<Byte>)
    ensures (a + b) + c == a + (b + c)
  {
  }

  /** What counts as sent on a connection is exactly what its client sent, in order. */
  lemma {:induction false} SentIsWhatWasDelivered(s: State, run: seq<Action>, conn: nat)
    requires Inv(s) && CanRun(s, run)
    ensures SentOn(Run(s, run).kernel, conn) == SentOn(s.kernel, conn) + Delivered(run, conn)
    decreases run
  {
    if run != [] {
      StepSends(s, run[0], conn);
      StepInv(s, run[0]);
      SentIsWhatWasDelivered(Apply(s, run[0]), run[1..], conn);
      Regroup(SentOn(s.kernel, conn), DeliveredBy(run[0], conn), Delivered(run[1..], conn));
    }
  }

  function IsConnect(a: Action): nat {
    if a.Connect? then 1 else 0
  }

  /** No connection is lost or made up: those accepted and those waiting are those that came. */
  lemma {:induction false} ConnectionsConserved(s: State, run: seq<Action>)
    requires CanRun(s, run)
    ensures var k := Run(s, run).kernel;
            |k.conns| + k.backlog == |s.kernel.conns| + s.kernel.backlog + Sum(run, IsConnect)
    decreases run
  {
    if run != [] {
      ConnectionsConserved(Apply(s, run[0]), run[1..]);
    }
  }

  /** No descriptor leaks: after every event the open client descriptors are the registered ones. */
  lemma {:induction false} OpenIsRegistered(s: State, run: seq<Action>)
    requires Init(s) && CanRun(s, run)
    ensures var k := Run(s, run).kernel; k.open.Keys == k.registered - {k.listenerFd}
  {
    RunInv(s, run);
  }

  /** What a connection got back is exactly what was read of what it sent, or some write failed: the loop drops
      the bytes of a failed write for good. */
  lemma {:induction false} EchoIsPrefix(s: State, run: seq<Action>)
    requires Init(s) && CanRun(s, run)
    ensures forall c <- Run(s, run).kernel.conns :: c.consumed <= |c.sent|
    ensures forall c <- Run(s, run).kernel.conns :: c.echoed == c.sent[..c.consumed] <==> !c.writeFailed
  {
    RunInv(s, run);
    var conns := Run(s, run).kernel.conns;
    forall c | c in conns ensures c.echoed == c.sent[..c.consumed] <==> !c.writeFailed {
      assert EchoInv(c);
    }
  }

  /** The event ends its own connection: the client is gone, or the read fails. */
  predicate Ends(ev: Event, answer: Answer, conn: nat) {
    ev.raisedFor == Some(conn) && (ev.eof || !answer.readOk)
  }

  /** In every run an open connection keeps its descriptor, whatever else happens, until an event that was raised
      for it ends it; then the descriptor is released. */
  lemma {:induction false} OpenUntilItsOwnEnd(s: State, run: seq<Action>, a: Action, fd: nat)
    requires Init(s) && CanRun(s, run) && Enabled(Run(s, run), a) && fd in Run(s, run).kernel.open
    ensures var t, k := Run(s, run), Apply(Run(s, run), a).kernel;
            if a.Handle? && Ends(t.pending[0], a.answer, t.kernel.open[fd]) then fd !in k.open && fd !in k.registered
            else fd in k.open && k.open[fd] == t.kernel.open[fd] && fd in k.registered
  {
    RunInv(s, run);
    var t := Run(s, run);
    StepInv(t, a);
    if a.Handle? {
      var ev := t.pending[0];
      assert OnTarget(t.kernel, ev);
      if ev.fd != fd {
        HandleTouchesOneDescriptor(t.kernel, ev, a.answer, fd);
      } else {
        assert ev.raisedFor == Some(t.kernel.open[fd]);
      }
    }
  }

  // ---------------------------------------------------------------------------------------------
  // Edge-triggered reading with one bounded read
  // ---------------------------------------------------------------------------------------------

  ghost predicate Announced(s: State, conn: nat) {
    conn in s.kernel.ready || exists ev <- s.pending :: ev.raisedFor == Some(conn)
  }

  predicate IsOpen(k: Kernel, conn: nat) {
    exists fd <- k.open :: k.open[fd] == conn
  }

  /** Unread bytes of the connection will be looked at: it is open, and there is an edge or an event of the
      batch. */
  ghost predicate Attended(s: State, conn: nat) {
    conn < |s.kernel.conns| && Unread(s.kernel.conns[conn]) > 0 ==> IsOpen(s.kernel, conn) && Announced(s, conn)
  }

  /** The action leaves bytes of the connection behind: it reads some of more unread bytes than the buffer holds,
      with no newer edge; or it closes the connection, for an end of file or a failed read, before all is read; or
      the bytes come after the loop has closed the connection. */
  ghost predicate LeavesBytesBehind(s: State, a: Action, conn: nat) {
    match a
    case Handle(answer) =>
      && s.pending != [] && s.pending[0].raisedFor == Some(conn) && conn < |s.kernel.conns|
      && if Ends(s.pending[0], answer, conn) then Unread(s.kernel.conns[conn]) > 0
         else Unread(s.kernel.conns[conn]) > 1024 && conn !in s.kernel.ready
    case Deliver(c, _) => c == conn && !IsOpen(s.kernel, conn)
    case _ => false
  }

  // An event for something else leaves the connection as it was.
  lemma {:induction false} OtherEventLeavesIt(s: State, answer: Answer, conn: nat)
    requires Inv(s) && s.pending != [] && s.pending[0].raisedFor != Some(conn) && conn < |s.kernel.conns|
    ensures var t := Apply(s, Handle(answer));
            && conn < |t.kernel.conns| && t.kernel.conns[conn] == s.kernel.conns[conn]
            && (IsOpen(t.kernel, conn) <==> IsOpen(s.kernel, conn))
            && (Announced(t, conn) <==> Announced(s, conn))
  {
    var t, ev := Apply(s, Handle(answer)), s.pending[0];
    assert OnTarget(s.kernel, ev);
    if fd :| fd in s.kernel.open && s.kernel.open[fd] == conn {
      HandleTouchesOneDescriptor(s.kernel, ev, answer, fd);
    }
    if fd :| fd in t.kernel.open && t.kernel.open[fd] == conn {
      assert fd in s.kernel.open && s.kernel.open[fd] == conn;
    }
    assert s.pending == [ev] + t.pending;
  }

  // The connection of the event is not announced by another event of the batch.
  lemma {:induction false} OneEventEach(s: State, answer: Answer, conn: nat)
    requires Inv(s) && s.pending != [] && s.pending[0].raisedFor == Some(conn)
    ensures Announced(Apply(s, Handle(answer)), conn) <==> conn in s.kernel.ready
  {
    var t := Apply(s, Handle(answer));
    assert OnTarget(s.kernel, s.pending[0]);
    forall ev | ev in t.pending ensures ev.raisedFor != Some(conn) {
      var i :| 0 <= i < |t.pending| && t.pending[i] == ev;
      assert s.pending[i + 1] == ev && OnTarget(s.kernel, ev);
    }
  }

  // What the event of a connection does to it: close it, or read.
  lemma {:induction false} OwnEvent(s: State, answer: Answer, conn: nat)
    requires Inv(s) && s.pending != [] && s.pending[0].raisedFor == Some(conn)
    ensures var t := Apply(s, Handle(answer));
            && conn < |s.kernel.conns| == |t.kernel.conns| && IsOpen(s.kernel, conn)
            && t.kernel.conns[conn].eof == s.kernel.conns[conn].eof
            && var before, after := Unread(s.kernel.conns[conn]), Unread(t.kernel.conns[conn]);
               if Ends(s.pending[0], answer, conn) then !IsOpen(t.kernel, conn) && after == before
               else IsOpen(t.kernel, conn) && after == before - Min(before, BUF_SIZE)
  {
    var t, fd := Apply(s, Handle(answer)), s.pending[0].fd;
    assert OnTarget(s.kernel, s.pending[0]);
    assert s.kernel.open[fd] == conn;
    if !Ends(s.pending[0], answer, conn) {
      assert t.kernel.open[fd] == conn;
    }
  }

  lemma {:induction false} PollKeepsAnnounced(s: State, batch: seq<Event>, conn: nat)
    requires Enabled(s, Poll(batch))
    ensures Announced(Apply(s, Poll(batch)), conn) <==> Announced(s, conn)
  {
    var t := Apply(s, Poll(batch));
    if conn in Reported(batch) {
      var ev :| ev in batch && ev.raisedFor == Some(conn);
      assert ev in t.pending;
    }
  }

  /** An action keeps the unread bytes of a connection attended to exactly when it leaves none behind. */
  lemma {:induction false} WakeKeptExactly(s: State, a: Action, conn: nat)
    requires Inv(s) && Attended(s, conn) && Enabled(s, a)
    ensures Attended(Apply(s, a), conn) <==> !LeavesBytesBehind(s, a, conn)
  {
    match a
    case Handle(answer) =>
      if s.pending[0].raisedFor == Some(conn) {
        OwnEvent(s, answer, conn);
        OneEventEach(s, answer, conn);
      } else if conn < |s.kernel.conns| {
        OtherEventLeavesIt(s, answer, conn);
      }
    case Poll(batch) => PollKeepsAnnounced(s, batch, conn);
    case Deliver(c, bytes) =>
      assert EchoInv(s.kernel.conns[c]);
      assert IsOpen(Apply(s, a).kernel, conn) <==> IsOpen(s.kernel, conn);
    case _ => assert IsOpen(Apply(s, a).kernel, conn) <==> IsOpen(s.kernel, conn);
  }

  /** No action of the run leaves bytes of this connection behind. */
  ghost predicate NothingLeftBehind(s: State, run: seq<Action>, conn: nat)
    requires CanRun(s, run)
    decreases run
  {
    run != [] ==> !LeavesBytesBehind(s, run[0], conn) && NothingLeftBehind(Apply(s, run[0]), run[1..], conn)
  }

  /** At every moment of the run, unread bytes of this connection will be looked at. */
  ghost predicate AlwaysAttended(s: State, run: seq<Action>, conn: nat)
    requires CanRun(s, run)
    decreases run
  {
    Attended(s, conn) && (run != [] ==> AlwaysAttended(Apply(s, run[0]), run[1..], conn))
  }

  lemma {:induction false} AttendedExactly(s: State, run: seq<Action>, conn: nat)
    requires Inv(s) && Attended(s, conn) && CanRun(s, run)
    ensures AlwaysAttended(s, run, conn) <==> NothingLeftBehind(s, run, conn)
    ensures AlwaysAttended(s, run, conn) ==> Attended(Run(s, run), conn)
    decreases run
  {
    if run != [] {
      WakeKeptExactly(s, run[0], conn);
      StepInv(s, run[0]);
      if Attended(Apply(s, run[0]), conn) {
        AttendedExactly(Apply(s, run[0]), run[1..], conn);
      }
    }
  }

  /** In a run of the loop the unread bytes of a connection are attended to at every moment exactly when no action
      leaves some of them behind. */
  lemma {:induction false} AlwaysAttendedExactly(s: State, run: seq<Action>, conn: nat)
    requires Init(s) && CanRun(s, run)
    ensures AlwaysAttended(s, run, conn) <==> NothingLeftBehind(s, run, conn)
  {
    AttendedExactly(s, run, conn);
  }

  /** The loop has nothing left to do for the connection: it is closed, or has no edge and no event. */
  ghost predicate Settled(s: State, conn: nat) {
    !IsOpen(s.kernel, conn) || !Announced(s, conn)
  }

  /** If no action left bytes of a connection behind, then whenever the loop has nothing left to do for it, whatever
      it has to do for others, its client has got back all that it sent, or a write to it failed. */
  lemma {:induction false} EverythingIsEchoed(s: State, run: seq<Action>, conn: nat)
    requires Init(s) && CanRun(s, run) && NothingLeftBehind(s, run, conn)
    requires conn < |Run(s, run).kernel.conns| && Settled(Run(s, run), conn)
    ensures var c := Run(s, run).kernel.conns[conn]; c.echoed == c.sent <==> !c.writeFailed
  {
    RunInv(s, run);
    AttendedExactly(s, run, conn);
    var c := Run(s, run).kernel.conns[conn];
    assert EchoInv(c);
    assert c.consumed == |c.sent| && c.sent[..c.consumed] == c.sent;
  }

  // ---------------------------------------------------------------------------------------------
  // Clients that wait for their answers
  // ---------------------------------------------------------------------------------------------

  /** The client of the connection never has more bytes outstanding than one read takes, and closes only when it
      has got an answer to all of them. */
  ghost predicate Waits(s: State, run: seq<Action>, conn: nat)
    requires CanRun(s, run)
    decreases run
  {
    run != [] ==>
      && (run[0].Deliver? && run[0].conn == conn ==>
            Unread(s.kernel.conns[conn]) + |run[0].bytes| <= 1024)
      && (run[0].PeerClose? && run[0].conn == conn ==> Unread(s.kernel.conns[conn]) <= 0)
      && Waits(Apply(s, run[0]), run[1..], conn)
  }

  /** A call for the connection fails: its registration, or a read although bytes are there. */
  ghost predicate CallFails(s: State, a: Action, conn: nat) {
    && a.Handle? && s.pending != [] && !s.pending[0].eof
    && if s.pending[0].fd == s.kernel.listenerFd then conn == |s.kernel.conns| && !a.answer.registers
       else s.pending[0].raisedFor == Some(conn) && !a.answer.readOk
  }

  ghost predicate NoCallFails(s: State, run: seq<Action>, conn: nat)
    requires CanRun(s, run)
    decreases run
  {
    run != [] ==> !CallFails(s, run[0], conn) && NoCallFails(Apply(s, run[0]), run[1..], conn)
  }

  /** The unread bytes fit one read; there are none when the client has closed, and until then the connection is
      open. */
  ghost predicate WaitingInv(k: Kernel, conn: nat) {
    conn < |k.conns| ==>
      && Unread(k.conns[conn]) <= BUF_SIZE
      && (if k.conns[conn].eof then Unread(k.conns[conn]) <= 0 else IsOpen(k, conn))
  }

  // One call of the loop; a connection that was accepted just now is open and has sent nothing.
  lemma {:induction false} HandleKeepsWaiting(s: State, answer: Answer, conn: nat)
    requires Inv(s) && s.pending != [] && WaitingInv(s.kernel, conn) && !CallFails(s, Handle(answer), conn)
    ensures !LeavesBytesBehind(s, Handle(answer), conn) && WaitingInv(Apply(s, Handle(answer)).kernel, conn)
  {
    var t, ev := Apply(s, Handle(answer)), s.pending[0];
    assert OnTarget(s.kernel, ev);
    if ev.raisedFor == Some(conn) {
      OwnEvent(s, answer, conn);
    } else if conn < |s.kernel.conns| {
      OtherEventLeavesIt(s, answer, conn);
    } else if conn < |t.kernel.conns| {
      assert t.kernel.open[answer.newFd] == conn;
    }
  }

  lemma {:induction false} WaitingLeavesNothingBehind(s: State, run: seq<Action>, conn: nat)
    requires Inv(s) && WaitingInv(s.kernel, conn) && CanRun(s, run)
    requires Waits(s, run, conn) && NoCallFails(s, run, conn)
    ensures NothingLeftBehind(s, run, conn)
    decreases run
  {
    if run != [] {
      var t := Apply(s, run[0]);
      match run[0] {
        case Handle(answer) => HandleKeepsWaiting(s, answer, conn);
        case _ => assert IsOpen(t.kernel, conn) <==> IsOpen(s.kernel, conn);
      }
      StepInv(s, run[0]);
      WaitingLeavesNothingBehind(t, run[1..], conn);
    }
  }

  /** A client that keeps at most 1024 bytes outstanding, and closes only when it has its answers, gets back all
      that it sent, unless a call for its connection fails; what other clients do does not matter. */
  lemma {:induction false} ShortMessagesAreEchoed(s: State, run: seq<Action>, conn: nat)
    requires Init(s) && CanRun(s, run) && Waits(s, run, conn) && NoCallFails(s, run, conn)
    requires conn < |Run(s, run).kernel.conns| && Settled(Run(s, run), conn)
    ensures var c := Run(s, run).kernel.conns[conn]; c.echoed == c.sent <==> !c.writeFailed
  {
    WaitingLeavesNothingBehind(s, run, conn);
    EverythingIsEchoed(s, run, conn);
  }

  // ---------------------------------------------------------------------------------------------
  // Bytes left behind
  // ---------------------------------------------------------------------------------------------

  lemma {:induction false} StaysClosed(s: State, a: Action, conn: nat)
    requires Inv(s) && Enabled(s, a) && conn < |s.kernel.conns| && !IsOpen(s.kernel, conn)
    ensures var k := Apply(s, a).kernel;
            && conn < |k.conns| && !IsOpen(k, conn)
            && k.conns[conn].consumed == s.kernel.conns[conn].consumed
            && k.conns[conn].echoed == s.kernel.conns[conn].echoed
  {
    match a
    case Handle(answer) =>
      assert OnTarget(s.kernel, s.pending[0]);
      OtherEventLeavesIt(s, answer, conn);
    case _ => assert Apply(s, a).kernel.open == s.kernel.open;
  }

  /** Bytes that were unread when the loop closed their connection stay unread and unanswered for ever. */
  lemma {:induction false} ClosedForGood(s: State, run: seq<Action>, conn: nat)
    requires Inv(s) && CanRun(s, run) && conn < |s.kernel.conns| && !IsOpen(s.kernel, conn)
    ensures var k := Run(s, run).kernel;
            && conn < |k.conns| && !IsOpen(k, conn)
            && k.conns[conn].consumed == s.kernel.conns[conn].consumed
            && k.conns[conn].echoed == s.kernel.conns[conn].echoed
    decreases run
  {
    if run != [] {
      StaysClosed(s, run[0], conn);
      StepInv(s, run[0]);
      ClosedForGood(Apply(s, run[0]), run[1..], conn);
    }
  }

  predicate Concerns(a: Action, conn: nat) {
    match a
    case Deliver(c, _) => c == conn
    case PeerClose(c) => c == conn
    case _ => false
  }

  lemma {:induction false} SilentStep(s: State, a: Action, conn: nat)
    requires Inv(s) && Enabled(s, a) && conn < |s.kernel.conns|
    requires !Announced(s, conn) && !Concerns(a, conn)
    ensures var t := Apply(s, a);
            conn < |t.kernel.conns| && t.kernel.conns[conn] == s.kernel.conns[conn] && !Announced(t, conn)
  {
    var t := Apply(s, a);
    if a.Handle? {
      assert OnTarget(s.kernel, s.pending[0]);
      assert s.pending[0].raisedFor != Some(conn);
    }
  }

  /** A connection that is not announced gets nothing back, however long the loop runs, until its client
      sends again or closes; bytes left behind stay unread. */
  lemma {:induction false} SilentUntilClientActs(s: State, run: seq<Action>, conn: nat)
    requires Inv(s) && CanRun(s, run) && conn < |s.kernel.conns|
    requires !Announced(s, conn) && forall a <- run :: !Concerns(a, conn)
    ensures conn < |Run(s, run).kernel.conns| && Run(s, run).kernel.conns[conn] == s.kernel.conns[conn]
    decreases run
  {
    if run != [] {
      SilentStep(s, run[0], conn);
      StepInv(s, run[0]);
      SilentUntilClientActs(Apply(s, run[0]), run[1..], conn);
    }
  }

  lemma {:induction false} RunCons(s: State, a: Action, rest: seq<Action>)
    requires Enabled(s, a) && CanRun(Apply(s, a), rest)
    ensures CanRun(s, [a] + rest) && Run(s, [a] + rest) == Run(Apply(s, a), rest)
  {
    assert ([a] + rest)[1..] == rest;
  }

  function AcceptAs(fd: nat): Action {
    Handle(Answer(true, fd, true, true, true))
  }

  function ReadFully(): Action {
    Handle(Answer(false, 0, false, true, true))
  }

  lemma {:induction false} AcceptedClient(s: State, fd: nat) returns (run: seq<Action>)
    requires Init(s) && Unused(s.kernel, fd)
    ensures CanRun(s, run)
    ensures Run(s, run) == State(s.kernel.(open := map[fd := 0], registered := {s.kernel.listenerFd, fd},
                                           conns := [Conn([], 0, [], false, false)]), [])
  {
    var ev := Event(s.kernel.listenerFd, false, None);
    var s1 := Apply(s, Connect);
    var s2 := Apply(s1, Poll([ev]));
    var s3 := Apply(s2, AcceptAs(fd));
    assert Reported([ev]) == {};
    assert s3.kernel.open == map[fd := 0];
    RunCons(s2, AcceptAs(fd), []);
    RunCons(s1, Poll([ev]), [AcceptAs(fd)] + []);
    run := [Connect] + ([Poll([ev])] + ([AcceptAs(fd)] + []));
    RunCons(s, Connect, run[1..]);
  }

  lemma {:induction false} SendAndRead(s: State, fd: nat, bytes: seq<Byte>) returns (run: seq<Action>)
    requires s.pending == [] && s.kernel.ready == {} && s.kernel.conns == [Conn([], 0, [], false, false)]
    requires s.kernel.open == map[fd := 0] && fd != s.kernel.listenerFd && fd in s.kernel.registered
    requires bytes != []
    ensures CanRun(s, run)
    ensures var n := Min(|bytes|, BUF_SIZE);
            Run(s, run) == State(s.kernel.(conns := [Conn(bytes, n, bytes[..n], false, false)]), [])
  {
    var ev := Event(fd, false, Some(0));
    var s1 := Apply(s, Deliver(0, bytes));
    assert [] + bytes == bytes;
    assert s1.kernel.conns == [Conn(bytes, 0, [], false, false)];
    var s2 := Apply(s1, Poll([ev]));
    assert Reported([ev]) == {0} by {
      assert ev in [ev];
    }
    var s3 := Apply(s2, ReadFully());
    var n := Min(|bytes|, BUF_SIZE);
    assert [] + bytes[0..0 + n] == bytes[..n];
    assert s3.kernel.conns == [Conn(bytes, n, bytes[..n], false, false)];
    RunCons(s2, ReadFully(), []);
    RunCons(s1, Poll([ev]), [ReadFully()] + []);
    run := [Deliver(0, bytes)] + ([Poll([ev])] + ([ReadFully()] + []));
    RunCons(s, Deliver(0, bytes), run[1..]);
  }

  /** A client that sends one message of more than 1024 bytes and waits gets only its first 1024 bytes back:
      this run leaves the rest unread and unannounced. */
  lemma {:induction false} LongMessageStalls(s: State, fd: nat, bytes: seq<Byte>) returns (accept: seq<Action>,
          exchange: seq<Action>)
    requires Init(s) && Unused(s.kernel, fd) && |bytes| > 1024
    ensures CanRun(s, accept) && CanRun(Run(s, accept), exchange)
    ensures var t := Run(Run(s, accept), exchange);
            && t.kernel.conns == [Conn(bytes, 1024, bytes[..1024], false, false)]
            && !Announced(t, 0)
  {
    accept := AcceptedClient(s, fd);
    exchange := SendAndRead(Run(s, accept), fd, bytes);
  }

  lemma {:induction false} SendAndClose(s: State, fd: nat, bytes: seq<Byte>, answer: Answer)
    returns (run: seq<Action>)
    requires s.pending == [] && s.kernel.ready == {} && s.kernel.conns == [Conn([], 0, [], false, false)]
    requires s.kernel.open == map[fd := 0] && fd != s.kernel.listenerFd && fd in s.kernel.registered
    requires bytes != []
    ensures CanRun(s, run)
    ensures Run(s, run) == State(s.kernel.(open := map[], registered := s.kernel.registered - {fd},
                                           conns := [Conn(bytes, 0, [], true, false)]), [])
  {
    var ev := Event(fd, true, Some(0));
    var s1 := Apply(s, Deliver(0, bytes));
    assert [] + bytes == bytes;
    assert s1.kernel.conns == [Conn(bytes, 0, [], false, false)];
    var s2 := Apply(s1, PeerClose(0));
    assert s2.kernel.conns == [Conn(bytes, 0, [], true, false)];
    var s3 := Apply(s2, Poll([ev]));
    assert Reported([ev]) == {0} by {
      assert ev in [ev];
    }
    assert map[fd := 0] - {fd} == map[];
    RunCons(s3, Handle(answer), []);
    RunCons(s2, Poll([ev]), [Handle(answer)] + []);
    run := [PeerClose(0)] + ([Poll([ev])] + ([Handle(answer)] + []));
    RunCons(s1, PeerClose(0), run[1..]);
    RunCons(s, Deliver(0, bytes), run);
    run := [Deliver(0, bytes)] + run;
  }

  /** A client that sends and closes before the loop has looked gets nothing back, however short its message: the
      loop closes the descriptor at the end of file without reading. */
  lemma {:induction false} ClosingEarlyLosesBytes(s: State, fd: nat, bytes: seq<Byte>, answer: Answer)
    returns (accept: seq<Action>, exchange: seq<Action>)
    requires Init(s) && Unused(s.kernel, fd) && bytes != []
    ensures CanRun(s, accept) && CanRun(Run(s, accept), exchange)
    ensures var t := Run(Run(s, accept), exchange);
            && t.kernel.conns == [Conn(bytes, 0, [], true, false)]
            && t.pending == [] && t.kernel.ready == {} && t.kernel.open == map[]
  {
    accept := AcceptedClient(s, fd);
    exchange := SendAndClose(Run(s, accept), fd, bytes, answer);
  }

  // ---------------------------------------------------------------------------------------------
  // The loop of the program over one batch, run without interference
  // ---------------------------------------------------------------------------------------------

  function HandleAll(k: Kernel, batch: seq<Event>, answers: seq<Answer>): Kernel
    requires |batch| == |answers|
  {
    if batch == [] then k
    else
      var last := |batch| - 1;
      HandleEvent(HandleAll(k, batch[..last], answers[..last]), batch[last], answers[last])
  }

  class EventLoop {
    const listenerFd: nat
    const reserved: set<nat>
    var listenerOpen: bool
    var backlog: nat
    var open: map<nat, nat>
    var registered: set<nat>
    var ready: set<nat>
    var conns: seq<Conn>

    constructor (listenerFd: nat, reserved: set<nat>)
      requires listenerFd !in reserved
      ensures Init(State(Snapshot(), [])) && this.listenerFd == listenerFd && this.reserved == reserved
    {
      this.listenerFd, this.reserved := listenerFd, reserved;
      listenerOpen, backlog, open, registered, ready, conns := true, 0, map[], {listenerFd}, {}, [];
    }

    function Snapshot(): Kernel
      reads this
    {
      Kernel(listenerFd, listenerOpen, reserved, backlog, open, registered, ready, conns)
    }

    method CloseFd(fd: nat)
      modifies this`listenerOpen, this`open, this`registered
      ensures Snapshot() == Close(old(Snapshot()), fd)
    {
      if fd == listenerFd {
        listenerOpen := false;
      } else {
        open := open - {fd};
      }
      registered := registered - {fd};
    }

    /** Accept, then register; a connection that cannot be registered is closed. */
    method AcceptConn(answer: Answer)
      modifies this`backlog, this`open, this`conns, this`registered, this`listenerOpen
      ensures Snapshot() == AcceptOne(old(Snapshot()), answer)
    {
      var conn := answer.newFd;
      if !(answer.accepts && listenerOpen && backlog > 0
           && conn !in open && conn !in reserved && conn != listenerFd) {
        return;
      }
      backlog := backlog - 1;
      open := open[conn := |conns|];
      conns := conns + [Conn([], 0, [], false, false)];
      if answer.registers {
        registered := registered + {conn};
      } else {
        CloseFd(conn);
      }
    }

    /** One read into the buffer, one write of what was read. */
    method Echo(fd: nat, answer: Answer)
      modifies this`conns, this`open, this`registered, this`listenerOpen
      ensures Snapshot() == ReadAndEcho(old(Snapshot()), fd, answer)
    {
      if fd !in open || open[fd] >= |conns| {
        CloseFd(fd);
        return;
      }
      var c := conns[open[fd]];
      var n := Min(|c.sent| - c.consumed, BUF_SIZE);
      if !answer.readOk || n <= 0 {
        CloseFd(fd);
        return;
      }
      var buf := c.sent[c.consumed..c.consumed + n];
      c := c.(consumed := c.consumed + n);
      if answer.writeOk {
        c := c.(echoed := c.echoed + buf);
      } else {
        c := c.(writeFailed := true);
      }
      conns := conns[open[fd] := c];
    }

    /** The loop over the events of one batch. */
    method HandleBatch(events: seq<Event>, answers: seq<Answer>)
      requires |events| == |answers|
      modifies this
      ensures Snapshot() == HandleAll(old(Snapshot()), events, answers)
    {
      for i := 0 to |events|
        invariant Snapshot() == HandleAll(old(Snapshot()), events[..i], answers[..i])
      {
        var ev := events[i];
        if ev.eof {
          CloseFd(ev.fd);
        } else if ev.fd == listenerFd {
          AcceptConn(answers[i]);
        } else {
          Echo(ev.fd, answers[i]);
        }
        assert events[..i + 1][..i] == events[..i] && answers[..i + 1][..i] == answers[..i];
      }
      assert events[..|events|] == events && answers[..|answers|] == answers;
    }
  }

  function HandleActions(answers: seq<Answer>): seq<Action> {
    if answers == [] then [] else [Handle(answers[0])] + HandleActions(answers[1..])
  }

  lemma {:induction false} HandleAllFromFront(k: Kernel, batch: seq<Event>, answers: seq<Answer>)
    requires |batch| == |answers| > 0
    ensures HandleAll(k, batch, answers) == HandleAll(HandleEvent(k, batch[0], answers[0]), batch[1..], answers[1..])
    decreases |batch|
  {
    var last := |batch| - 1;
    if last > 0 {
      HandleAllFromFront(k, batch[..last], answers[..last]);
      assert batch[..last][1..] == batch[1..][..last - 1] && answers[..last][1..] == answers[1..][..last - 1];
    }
  }

  /** What HandleBatch computes is the run of the system that handles the pending events one by one. */
  lemma {:induction false} BatchIsARun(s: State, answers: seq<Answer>)
    requires |answers| == |s.pending|
    ensures CanRun(s, HandleActions(answers))
    ensures Run(s, HandleActions(answers)) == State(HandleAll(s.kernel, s.pending, answers), [])
    decreases |answers|
  {
    if answers != [] {
      var run := HandleActions(answers);
      assert run[1..] == HandleActions(answers[1..]);
      HandleAllFromFront(s.kernel, s.pending, answers);
      BatchIsARun(Apply(s, run[0]), answers[1..]);
    }
  }
}
