/** The thread-per-client echo server (modules/socket/socket_multi_server.c:29-84 and
    134-172) as a state machine: the accept loop and any number of session threads, whose
    steps interleave freely over the kernel's descriptor table and the heap. */
module EchoServer {
  import opened Utf8
  import opened History

  type Fd = nat
  type Ptr = nat

  /** What came in on a connection, what was sent back, and whether every send so far took
      all of its bytes. */
  datatype Stream = Stream(received: seq<byte>, echoed: seq<byte>, full: bool)

  /** Where the accept loop stands. */
  datatype Acceptor =
    | Idle
    | Accepted(conn: nat, fd: Fd)
    | Allocated(conn: nat, fd: Fd, ptr: Ptr)
    | Dropping(conn: nat, ptr: Ptr)

  /** Where a session thread stands; conn is the connection it was created for.  Before it
      begins, fd only records what its session holds: the thread reads it from there. */
  datatype Worker =
    | Started(conn: nat, ptr: Ptr, fd: Fd)
    | Looping(conn: nat, ptr: Ptr, fd: Fd)
    | Got(conn: nat, ptr: Ptr, fd: Fd, data: seq<byte>)
    | Leaving(conn: nat, ptr: Ptr, fd: Fd)
    | Closing(conn: nat, ptr: Ptr, fd: Fd)
    | Freeing(conn: nat, ptr: Ptr)

  /** open: the kernel's table of client descriptors, each on one connection; heap: the
      session blocks with their client_fd; fault: something was closed or freed twice, or
      used when it was not there or belonged to another connection. */
  datatype Server = Server(
    open: map<Fd, nat>,
    heap: map<Ptr, Fd>,
    main: Acceptor,
    workers: map<nat, Worker>,
    streams: map<nat, Stream>,
    next: nat,
    fault: bool)

  const INIT: Server := Server(map[], map[], Idle, map[], map[], 0, false)

  // ----- kernel and allocator

  function Used(s: Server, fd: Fd, conn: nat): Server {
    if fd in s.open && s.open[fd] == conn then s else s.(fault := true)
  }

  function Closed(s: Server, fd: Fd, conn: nat): Server {
    if fd in s.open && s.open[fd] == conn then s.(open := s.open - {fd}) else s.(fault := true)
  }

  function Freed(s: Server, ptr: Ptr): Server {
    if ptr in s.heap then s.(heap := s.heap - {ptr}) else s.(fault := true)
  }

  // ----- steps

  datatype Step =
    | Accept(fd: Fd)
    | MallocFails
    | MallocWorks(ptr: Ptr)
    | CreateFails
    | DropSession
    | CreateWorks(tid: nat)
    | Begin(tid: nat)
    | Recv(tid: nat, data: seq<byte>)
    | RecvEnds(tid: nat)
    | Send(tid: nat, n: nat)
    | SendFails(tid: nat)
    | Shutdown(tid: nat)
    | Close(tid: nat)
    | Free(tid: nat)

  /** accept may return any descriptor that is not open, one closed before included; malloc
      any block that is not allocated; recv between 1 and 511 bytes; send any count. */
  predicate Enabled(s: Server, st: Step) {
    match st
    case Accept(fd) => s.main.Idle? && fd !in s.open
    case MallocFails => s.main.Accepted?
    case MallocWorks(ptr) => s.main.Accepted? && ptr !in s.heap
    case CreateFails => s.main.Allocated?
    case DropSession => s.main.Dropping?
    case CreateWorks(tid) => s.main.Allocated? && tid !in s.workers
    case Begin(tid) => tid in s.workers && s.workers[tid].Started?
    case Recv(tid, data) => tid in s.workers && s.workers[tid].Looping? && 1 <= |data| <= 511
    case RecvEnds(tid) => tid in s.workers && s.workers[tid].Looping?
    case Send(tid, n) => tid in s.workers && s.workers[tid].Got? && n <= |s.workers[tid].data|
    case SendFails(tid) => tid in s.workers && s.workers[tid].Got?
    case Shutdown(tid) => tid in s.workers && s.workers[tid].Leaving?
    case Close(tid) => tid in s.workers && s.workers[tid].Closing?
    case Free(tid) => tid in s.workers && s.workers[tid].Freeing?
  }

  function StreamOf(s: Server, conn: nat): Stream {
    if conn in s.streams then s.streams[conn] else Stream([], [], true)
  }

  function To(s: Server, tid: nat, w: Worker): Server { s.(workers := s.workers[tid := w]) }

  function Apply(s: Server, st: Step): Server
    requires Enabled(s, st)
  {
    match st
    case Accept(fd) =>
      s.(open := s.open[fd := s.next], main := Accepted(s.next, fd),
         streams := s.streams[s.next := Stream([], [], true)], next := s.next + 1)
    case MallocFails => Closed(s, s.main.fd, s.main.conn).(main := Idle)
    case MallocWorks(ptr) => s.(heap := s.heap[ptr := s.main.fd], main := Allocated(s.main.conn, s.main.fd, ptr))
    case CreateFails => Closed(s, s.main.fd, s.main.conn).(main := Dropping(s.main.conn, s.main.ptr))
    case DropSession => Freed(s, s.main.ptr).(main := Idle)
    case CreateWorks(tid) => To(s, tid, Started(s.main.conn, s.main.ptr, s.main.fd)).(main := Idle)
    case Begin(tid) =>
      var w := s.workers[tid];
      if w.ptr in s.heap then To(s, tid, Looping(w.conn, w.ptr, s.heap[w.ptr]))
      else To(s, tid, Freeing(w.conn, w.ptr)).(fault := true)
    case Recv(tid, data) =>
      var w, old' := s.workers[tid], StreamOf(s, s.workers[tid].conn);
      To(Used(s, w.fd, w.conn), tid, Got(w.conn, w.ptr, w.fd, data))
      .(streams := s.streams[w.conn := old'.(received := old'.received + data)])
    case RecvEnds(tid) =>
      var w := s.workers[tid];
      To(Used(s, w.fd, w.conn), tid, Leaving(w.conn, w.ptr, w.fd))
    case Send(tid, n) =>
      var w, old' := s.workers[tid], StreamOf(s, s.workers[tid].conn);
      To(Used(s, w.fd, w.conn), tid, Looping(w.conn, w.ptr, w.fd))
      .(streams := s.streams[w.conn := Stream(old'.received, old'.echoed + w.data[..n], old'.full && n == |w.data|)])
    case SendFails(tid) =>
      var w, old' := s.workers[tid], StreamOf(s, s.workers[tid].conn);
      To(Used(s, w.fd, w.conn), tid, Leaving(w.conn, w.ptr, w.fd))
      .(streams := s.streams[w.conn := old'.(full := false)])
    case Shutdown(tid) =>
      var w := s.workers[tid];
      To(Used(s, w.fd, w.conn), tid, Closing(w.conn, w.ptr, w.fd))
    case Close(tid) =>
      var w := s.workers[tid];
      To(Closed(s, w.fd, w.conn), tid, Freeing(w.conn, w.ptr))
    case Free(tid) =>
      var w := s.workers[tid];
      Freed(s, w.ptr).(workers := s.workers - {tid})
  }

  // ----- who owns what

  datatype Owner = Main | Thread(tid: nat)

  predicate Live(s: Server, o: Owner) {
    match o
    case Main => !s.main.Idle?
    case Thread(tid) => tid in s.workers
  }

  function ConnOf(s: Server, o: Owner): nat
    requires Live(s, o)
  {
    if o.Main? then s.main.conn else s.workers[o.tid].conn
  }

  /** The descriptor an owner has to close. */
  function FdOf(s: Server, o: Owner): Option<Fd>
    requires Live(s, o)
  {
    if o.Main? then (if s.main.Dropping? then None else Some(s.main.fd))
    else
      var w := s.workers[o.tid];
      if w.Freeing? then None else Some(w.fd)
  }

  /** The session block an owner has to free. */
  function PtrOf(s: Server, o: Owner): Option<Ptr>
    requires Live(s, o)
  {
    if o.Main? then (if s.main.Accepted? then None else Some(s.main.ptr))
    else Some(s.workers[o.tid].ptr)
  }

  predicate OwnsFd(s: Server, o: Owner, fd: Fd) { Live(s, o) && FdOf(s, o) == Some(fd) }

  predicate OwnsPtr(s: Server, o: Owner, ptr: Ptr) { Live(s, o) && PtrOf(s, o) == Some(ptr) }

  /** Each owner's descriptor is open on the owner's own connection, and no two owners have
      the same connection, so each descriptor has at most one owner; every open descriptor
      has one. */
  ghost predicate FdsOwned(s: Server) {
    && (forall o, fd :: OwnsFd(s, o, fd) ==> fd in s.open && s.open[fd] == ConnOf(s, o))
    && (forall o, o' :: Live(s, o) && Live(s, o') && ConnOf(s, o) == ConnOf(s, o') ==> o == o')
    && (forall fd :: fd in s.open ==> exists o :: OwnsFd(s, o, fd))
  }

  /** The same for session blocks. */
  ghost predicate PtrsOwned(s: Server) {
    && (forall o, ptr :: OwnsPtr(s, o, ptr) ==> ptr in s.heap)
    && (forall o, ptr, fd :: OwnsPtr(s, o, ptr) && OwnsFd(s, o, fd) ==> s.heap[ptr] == fd)
    && (forall o, o', ptr :: OwnsPtr(s, o, ptr) && OwnsPtr(s, o', ptr) ==> o == o')
    && (forall ptr :: ptr in s.heap ==> exists o :: OwnsPtr(s, o, ptr))
  }

  function Pending(s: Server, o: Owner): seq<byte>
    requires Live(s, o)
  {
    if o.Thread? && s.workers[o.tid].Got? then s.workers[o.tid].data else []
  }

  /** What has come back, plus what a thread is about to send, is what came in exactly as
      long as every send was full; otherwise bytes are missing for good. */
  predicate Echoes(t: Stream, pending: seq<byte>) {
    if t.full then t.received == t.echoed + pending
    else |t.echoed| + |pending| < |t.received|
  }

  ghost predicate StreamsOk(s: Server) {
    && (forall c: nat :: c in s.streams <==> c < s.next)
    && (forall o :: Live(s, o) ==> ConnOf(s, o) < s.next)
    && (forall o :: Live(s, o) ==> Echoes(StreamOf(s, ConnOf(s, o)), Pending(s, o)))
    && (forall tid :: tid in s.workers && s.workers[tid].Got? ==> s.workers[tid].data != [])
    && (forall c: nat :: c < s.next && (forall o :: Live(s, o) ==> ConnOf(s, o) != c) ==> Echoes(StreamOf(s, c), []))
  }

  ghost predicate ServerInv(s: Server) { !s.fault && FdsOwned(s) && PtrsOwned(s) && StreamsOk(s) }

  lemma InitOk()
    ensures ServerInv(INIT)
  {}

  predicate AcceptorStep(st: Step) {
    st.Accept? || st.MallocFails? || st.MallocWorks? || st.CreateFails? || st.DropSession? || st.CreateWorks?
  }

  // ----- every step keeps the ownership of descriptors

  lemma AcceptKeepsFds(s: Server, fd: Fd)
    requires ServerInv(s) && Enabled(s, Accept(fd))
    ensures FdsOwned(Apply(s, Accept(fd)))
  {
    var r := Apply(s, Accept(fd));
    forall o, f | OwnsFd(r, o, f) ensures f in r.open && r.open[f] == ConnOf(r, o) {
      if o.Thread? {
        assert OwnsFd(s, o, f);
      }
    }
    forall o | Live(r, o) ensures o.Thread? ==> Live(s, o) && ConnOf(r, o) == ConnOf(s, o) < s.next {
    }
    assert OwnsFd(r, Main, fd);
    forall f | f in r.open ensures exists o :: OwnsFd(r, o, f) {
      if f != fd {
        var o :| OwnsFd(s, o, f);
        assert OwnsFd(r, o, f);
      }
    }
  }

  /** The owner that o was before an acceptor step: a new thread was the acceptor. */
  function Was(st: Step, o: Owner): Owner {
    if st.CreateWorks? && o == Thread(st.tid) then Main else o
  }

  function Became(st: Step, o: Owner): Owner {
    if st.CreateWorks? && o.Main? then Thread(st.tid) else o
  }

  /** An acceptor step changes nobody else's connection, descriptor and session; a thread
      takes over those of the acceptor. */
  lemma AcceptorFrame(s: Server, st: Step, o: Owner)
    requires ServerInv(s) && Enabled(s, st) && AcceptorStep(st) && !st.Accept?
    ensures var r := Apply(s, st);
            Live(r, o) ==>
              && Live(s, Was(st, o)) && ConnOf(r, o) == ConnOf(s, Was(st, o))
              && PtrOf(r, o) == (if st.MallocWorks? && o.Main? then Some(st.ptr) else PtrOf(s, Was(st, o)))
              && FdOf(r, o) == (if st.CreateFails? && o.Main? then None else FdOf(s, Was(st, o)))
    ensures var r := Apply(s, st);
            Live(s, o) && !(o.Main? && (st.MallocFails? || st.DropSession?)) ==>
              Live(r, Became(st, o)) && Was(st, Became(st, o)) == o
  {
    hide ServerInv;
  }

  lemma AcceptorResources(s: Server, st: Step)
    requires ServerInv(s) && Enabled(s, st) && AcceptorStep(st) && !st.Accept?
    ensures var r := Apply(s, st);
            && !r.fault && Live(s, Main)
            && (s.main.Dropping? || OwnsFd(s, Main, s.main.fd))
            && (s.main.Accepted? || OwnsPtr(s, Main, s.main.ptr))
            && r.open == (if st.MallocFails? || st.CreateFails? then s.open - {s.main.fd} else s.open)
            && r.heap == (if st.MallocWorks? then s.heap[st.ptr := s.main.fd]
                          else if st.DropSession? then s.heap - {s.main.ptr} else s.heap)
  {
    assert s.main.Dropping? || OwnsFd(s, Main, s.main.fd);
    assert s.main.Accepted? || OwnsPtr(s, Main, s.main.ptr);
  }

  lemma AcceptorKeepsFds(s: Server, st: Step)
    requires ServerInv(s) && Enabled(s, st) && AcceptorStep(st) && !st.Accept?
    ensures !Apply(s, st).fault && FdsOwned(Apply(s, st))
  {
    hide Apply, ConnOf, FdOf, PtrOf, Live, StreamsOk, PtrsOwned;
    var r := Apply(s, st);
    AcceptorResources(s, st);
    forall o, f | OwnsFd(r, o, f) ensures f in r.open && r.open[f] == ConnOf(r, o) {
      AcceptorFrame(s, st, o);
      GoneOwner(s, st, o);
      assert OwnsFd(s, Was(st, o), f);
      OneFdOwner(s, Was(st, o), Main, f);
    }
    forall o, o' | Live(r, o) && Live(r, o') && ConnOf(r, o) == ConnOf(r, o') ensures o == o' {
      AcceptorFrame(s, st, o);
      AcceptorFrame(s, st, o');
      OneWas(s, st, o, o');
    }
    forall f | f in r.open ensures exists o :: OwnsFd(r, o, f) {
      var o :| OwnsFd(s, o, f);
      MainFd(s, o, f);
      AcceptorFrame(s, st, o);
      AcceptorFrame(s, st, Became(st, o));
      assert OwnsFd(r, Became(st, o), f);
    }
  }

  lemma OneFdOwner(s: Server, o: Owner, o': Owner, f: Fd)
    requires FdsOwned(s)
    ensures OwnsFd(s, o, f) && OwnsFd(s, o', f) ==> o == o'
  {}

  lemma MainFd(s: Server, o: Owner, f: Fd)
    requires OwnsFd(s, o, f)
    ensures o.Main? ==> !s.main.Idle? && !s.main.Dropping? && f == s.main.fd
  {}

  lemma MainPtr(s: Server, o: Owner, p: Ptr)
    requires OwnsPtr(s, o, p)
    ensures o.Main? ==> !s.main.Idle? && !s.main.Accepted? && p == s.main.ptr
  {}

  lemma ThreadFd(s: Server, tid: nat, f: Fd)
    requires OwnsFd(s, Thread(tid), f)
    ensures tid in s.workers && !s.workers[tid].Freeing? && f == s.workers[tid].fd
  {}

  /** Two owners were not the same one before. */
  lemma OneWas(s: Server, st: Step, o: Owner, o': Owner)
    requires Enabled(s, st) && AcceptorStep(st) && Live(Apply(s, st), o) && Live(Apply(s, st), o')
    ensures Was(st, o) == Was(st, o') ==> o == o'
  {}

  /** A thread owns its descriptor until it has closed it, and its session to the end. */
  lemma ThreadResources(s: Server, st: Step)
    requires ServerInv(s) && Enabled(s, st) && !AcceptorStep(st)
    ensures Live(s, Thread(st.tid))
    ensures var w := s.workers[st.tid];
            && OwnsPtr(s, Thread(st.tid), w.ptr) && w.ptr in s.heap
            && (!w.Freeing? ==>
                  && OwnsFd(s, Thread(st.tid), w.fd) && w.fd in s.open && s.open[w.fd] == w.conn
                  && s.heap[w.ptr] == w.fd)
  {
    hide StreamsOk;
    var me, w := Thread(st.tid), s.workers[st.tid];
    assert OwnsPtr(s, me, w.ptr);
    if !w.Freeing? {
      assert OwnsFd(s, me, w.fd);
    }
  }

  /** So its steps find them in place, and take away no more than what is its own. */
  lemma ThreadIsSafe(s: Server, st: Step)
    requires ServerInv(s) && Enabled(s, st) && !AcceptorStep(st)
    ensures Live(s, Thread(st.tid))
    ensures var r, w := Apply(s, st), s.workers[st.tid];
            && !r.fault
            && r.open == (if st.Close? then s.open - {w.fd} else s.open)
            && r.heap == (if st.Free? then s.heap - {w.ptr} else s.heap)
            && r.main == s.main && r.next == s.next
            && OwnsPtr(s, Thread(st.tid), w.ptr) && w.ptr in s.heap
            && (!w.Freeing? ==> OwnsFd(s, Thread(st.tid), w.fd))
  {
    hide FdsOwned, PtrsOwned, StreamsOk, OwnsFd, OwnsPtr, StreamOf;
    ThreadResources(s, st);
  }

  /** A thread's step changes nobody's connection, descriptor and session, but for the
      descriptor it closes, and the session it frees as it ends. */
  lemma ThreadFrame(s: Server, st: Step, o: Owner)
    requires Enabled(s, st) && !AcceptorStep(st)
    requires st.Begin? ==> s.workers[st.tid].ptr in s.heap && s.heap[s.workers[st.tid].ptr] == s.workers[st.tid].fd
    ensures var r, me := Apply(s, st), Thread(st.tid);
            && (Live(r, o) <==> Live(s, o) && !(st.Free? && o == me))
            && (Live(r, o) ==>
                  && ConnOf(r, o) == ConnOf(s, o) && PtrOf(r, o) == PtrOf(s, o)
                  && FdOf(r, o) == if st.Close? && o == me then None else FdOf(s, o))
  {
    hide StreamOf;
  }

  lemma ThreadStep(s: Server, st: Step, o: Owner)
    requires ServerInv(s) && Enabled(s, st) && !AcceptorStep(st)
    ensures var r, me := Apply(s, st), Thread(st.tid);
            && (Live(r, o) <==> Live(s, o) && !(st.Free? && o == me))
            && (Live(r, o) ==>
                  && ConnOf(r, o) == ConnOf(s, o) && PtrOf(r, o) == PtrOf(s, o)
                  && FdOf(r, o) == if st.Close? && o == me then None else FdOf(s, o))
  {
    hide FdsOwned, PtrsOwned, StreamsOk, OwnsFd, OwnsPtr, Apply, Live, ConnOf, FdOf, PtrOf;
    ThreadResources(s, st);
    ThreadFrame(s, st, o);
  }

  lemma WorkerKeepsFds(s: Server, st: Step)
    requires ServerInv(s) && Enabled(s, st) && !AcceptorStep(st)
    ensures !Apply(s, st).fault && FdsOwned(Apply(s, st))
  {
    hide Apply, ConnOf, FdOf, PtrOf, StreamsOk, PtrsOwned;
    var r, me := Apply(s, st), Thread(st.tid);
    ThreadIsSafe(s, st);
    ThreadStep(s, st, me);
    forall o, f | OwnsFd(r, o, f) ensures f in r.open && r.open[f] == ConnOf(r, o) {
      ThreadStep(s, st, o);
      assert OwnsFd(s, o, f);
    }
    forall o, o' | Live(r, o) && Live(r, o') && ConnOf(r, o) == ConnOf(r, o') ensures o == o' {
      ThreadStep(s, st, o);
      ThreadStep(s, st, o');
    }
    assert st.Close? ==> FdOf(s, me) == Some(s.workers[st.tid].fd) && s.workers[st.tid].fd !in r.open;
    forall f | f in r.open ensures exists o :: OwnsFd(r, o, f) {
      var o :| OwnsFd(s, o, f);
      ThreadStep(s, st, o);
      if o == me {
        ThreadFd(s, st.tid, f);
      }
      assert OwnsFd(r, o, f);
    }
  }

  // ----- and of session blocks

  lemma WorkerKeepsPtrs(s: Server, st: Step)
    requires ServerInv(s) && Enabled(s, st) && !AcceptorStep(st)
    ensures PtrsOwned(Apply(s, st))
  {
    hide Apply, ConnOf, FdOf, PtrOf, StreamsOk, FdsOwned;
    var r, me := Apply(s, st), Thread(st.tid);
    ThreadIsSafe(s, st);
    ThreadStep(s, st, me);
    forall o, p | OwnsPtr(r, o, p) ensures p in r.heap && OwnsPtr(s, o, p) {
      ThreadStep(s, st, o);
      assert OwnsPtr(s, o, p);
    }
    forall o, p, f | OwnsPtr(r, o, p) && OwnsFd(r, o, f) ensures r.heap[p] == f {
      ThreadStep(s, st, o);
      assert OwnsPtr(s, o, p) && OwnsFd(s, o, f);
    }
    forall p | p in r.heap ensures exists o :: OwnsPtr(r, o, p) {
      var o :| OwnsPtr(s, o, p);
      ThreadStep(s, st, o);
      assert OwnsPtr(r, o, p);
    }
  }

  lemma AcceptKeepsPtrs(s: Server, fd: Fd)
    requires ServerInv(s) && Enabled(s, Accept(fd))
    ensures PtrsOwned(Apply(s, Accept(fd)))
  {
    var r := Apply(s, Accept(fd));
    forall o, p ensures OwnsPtr(r, o, p) <==> OwnsPtr(s, o, p) {
    }
    forall o, p, f | OwnsPtr(r, o, p) && OwnsFd(r, o, f) ensures r.heap[p] == f {
      assert OwnsPtr(s, o, p) && OwnsFd(s, o, f);
    }
    forall p | p in r.heap ensures exists o :: OwnsPtr(r, o, p) {
      var o :| OwnsPtr(s, o, p);
      assert OwnsPtr(r, o, p);
    }
  }

  lemma AcceptorKeepsPtrs(s: Server, st: Step)
    requires ServerInv(s) && Enabled(s, st) && AcceptorStep(st) && !st.Accept?
    ensures PtrsOwned(Apply(s, st))
  {
    hide Apply, ConnOf, FdOf, PtrOf, Live, StreamsOk, FdsOwned;
    var r := Apply(s, st);
    AcceptorResources(s, st);
    assert st.MallocWorks? ==> Was(st, Main) == Main;
    forall o, p | OwnsPtr(r, o, p)
      ensures p in r.heap && (OwnsPtr(s, Was(st, o), p) || (st.MallocWorks? && o.Main? && p == st.ptr))
    {
      AcceptorFrame(s, st, o);
      assert OwnsPtr(s, Was(st, o), p) || (st.MallocWorks? && o.Main? && p == st.ptr);
      GoneOwner(s, st, o);
    }
    forall o, p, f | OwnsPtr(r, o, p) && OwnsFd(r, o, f) ensures r.heap[p] == f {
      AcceptorFrame(s, st, o);
      assert OwnsFd(s, Was(st, o), f);
    }
    forall o, o', p | OwnsPtr(r, o, p) && OwnsPtr(r, o', p) ensures o == o' {
      AcceptorFrame(s, st, o);
      AcceptorFrame(s, st, o');
      OneWas(s, st, o, o');
    }
    forall p | p in r.heap ensures exists o :: OwnsPtr(r, o, p) {
      if st.MallocWorks? && p == st.ptr {
        NewBlock(s, st);
      } else {
        var o :| OwnsPtr(s, o, p);
        MainPtr(s, o, p);
        AcceptorFrame(s, st, o);
        AcceptorFrame(s, st, Became(st, o));
        assert OwnsPtr(r, Became(st, o), p);
      }
    }
  }

  lemma GoneOwner(s: Server, st: Step, o: Owner)
    requires Enabled(s, st) && AcceptorStep(st) && Live(Apply(s, st), o)
    ensures st.DropSession? || st.MallocFails? ==> Was(st, o) != Main
  {}

  lemma NewBlock(s: Server, st: Step)
    requires Enabled(s, st) && st.MallocWorks?
    ensures OwnsPtr(Apply(s, st), Main, st.ptr)
  {}

  // ----- and the streams

  lemma AcceptKeepsStreams(s: Server, fd: Fd)
    requires ServerInv(s) && Enabled(s, Accept(fd))
    ensures StreamsOk(Apply(s, Accept(fd)))
  {
    var r := Apply(s, Accept(fd));
    forall o | Live(r, o)
      ensures ConnOf(r, o) < r.next && Echoes(StreamOf(r, ConnOf(r, o)), Pending(r, o))
    {
      if o.Thread? {
        assert Live(s, o) && ConnOf(s, o) < s.next && Pending(r, o) == Pending(s, o);
      }
    }
    forall c: nat | c < r.next && forall o :: Live(r, o) ==> ConnOf(r, o) != c
      ensures Echoes(StreamOf(r, c), [])
    {
      assert Live(r, Main) && ConnOf(r, Main) == s.next;
      forall o | Live(s, o) ensures ConnOf(s, o) != c {
        assert Live(r, o) && ConnOf(r, o) == ConnOf(s, o);
      }
      assert StreamOf(r, c) == StreamOf(s, c);
    }
  }

  lemma AcceptorKeepsStreams(s: Server, st: Step)
    requires ServerInv(s) && Enabled(s, st) && AcceptorStep(st) && !st.Accept?
    ensures StreamsOk(Apply(s, st))
  {
    hide FdsOwned, PtrsOwned, PtrOf, FdOf, Echoes, Apply, StreamOf, Pending, ConnOf;
    var r := Apply(s, st);
    SameStreams(s, st);
    forall o | Live(r, o)
      ensures ConnOf(r, o) < r.next && Echoes(StreamOf(r, ConnOf(r, o)), Pending(r, o))
    {
      AcceptorFrame(s, st, o);
      SamePending(s, st, o);
    }
    forall c: nat | c < r.next && forall o :: Live(r, o) ==> ConnOf(r, o) != c
      ensures Echoes(StreamOf(r, c), [])
    {
      assert Echoes(StreamOf(s, ConnOf(s, Main)), []);
      if c != ConnOf(s, Main) {
        forall o | Live(s, o) ensures ConnOf(s, o) != c {
          AcceptorFrame(s, st, o);
          AcceptorFrame(s, st, Became(st, o));
          assert o.Main? || Live(r, Became(st, o));
        }
      }
    }
  }

  lemma SameStreams(s: Server, st: Step)
    requires Enabled(s, st) && AcceptorStep(st) && !st.Accept?
    ensures Live(s, Main) && Pending(s, Main) == []
    ensures var r := Apply(s, st);
            && r.streams == s.streams && r.next == s.next && forall c :: StreamOf(r, c) == StreamOf(s, c)
    ensures var r := Apply(s, st);
            forall tid :: tid in r.workers && r.workers[tid].Got? ==>
                            tid in s.workers && s.workers[tid] == r.workers[tid]
  {}

  lemma SamePending(s: Server, st: Step, o: Owner)
    requires Enabled(s, st) && AcceptorStep(st) && !st.Accept?
    requires Live(Apply(s, st), o) && Live(s, Was(st, o))
    ensures Pending(Apply(s, st), o) == Pending(s, Was(st, o))
  {}

  /** What a thread's step does to its own connection. */
  lemma OwnStream(s: Server, st: Step)
    requires ServerInv(s) && Enabled(s, st) && !AcceptorStep(st)
    ensures var r, c := Apply(s, st), s.workers[st.tid].conn;
            && (forall d :: d != c ==> StreamOf(r, d) == StreamOf(s, d))
            && r.streams.Keys == s.streams.Keys
            && Echoes(StreamOf(r, c), if Live(r, Thread(st.tid)) then Pending(r, Thread(st.tid)) else [])
  {
    hide FdsOwned, PtrsOwned, FdOf, PtrOf, OwnsFd, OwnsPtr;
    var me := Thread(st.tid);
    ThreadIsSafe(s, st);
    assert Live(s, me) && ConnOf(s, me) < s.next && Echoes(StreamOf(s, ConnOf(s, me)), Pending(s, me));
    var t := StreamOf(s, ConnOf(s, me));
    match st
    case Recv(_, data) =>
      assert t.echoed + [] == t.echoed;
    case Send(_, n) =>
      assert s.workers[st.tid].data[..|s.workers[st.tid].data|] == s.workers[st.tid].data;
      assert t.echoed + Pending(s, me) + [] == t.echoed + Pending(s, me);
    case _ =>
  }

  lemma WorkerKeepsStreams(s: Server, st: Step)
    requires ServerInv(s) && Enabled(s, st) && !AcceptorStep(st)
    ensures StreamsOk(Apply(s, st))
  {
    hide FdsOwned, PtrsOwned, PtrOf, FdOf, Echoes, StreamOf;
    var r, me := Apply(s, st), Thread(st.tid);
    OwnStream(s, st);
    ThreadIsSafe(s, st);
    ThreadStep(s, st, me);
    var c := s.workers[st.tid].conn;
    assert c == ConnOf(s, me);
    DataPending(s, st);
    forall o | Live(r, o)
      ensures ConnOf(r, o) < r.next && Echoes(StreamOf(r, ConnOf(r, o)), Pending(r, o))
    {
      ThreadStep(s, st, o);
      if o != me {
        OneConn(s, o, me);
        assert Pending(r, o) == Pending(s, o);
      }
    }
    forall d: nat | d < r.next && forall o :: Live(r, o) ==> ConnOf(r, o) != d
      ensures Echoes(StreamOf(r, d), [])
    {
      if d == c {
        assert !Live(r, me);
      } else {
        forall o | Live(s, o) ensures ConnOf(s, o) != d {
          ThreadStep(s, st, o);
        }
      }
    }
  }

  lemma DataPending(s: Server, st: Step)
    requires ServerInv(s) && Enabled(s, st) && !AcceptorStep(st)
    ensures var r := Apply(s, st);
            forall tid :: tid in r.workers && r.workers[tid].Got? ==> r.workers[tid].data != []
  {}

  lemma OneConn(s: Server, o: Owner, o': Owner)
    requires FdsOwned(s) && Live(s, o) && Live(s, o') && o != o'
    ensures ConnOf(s, o) != ConnOf(s, o')
  {}

  // ----- every interleaving

  lemma StepKeeps(s: Server, st: Step)
    requires ServerInv(s) && Enabled(s, st)
    ensures ServerInv(Apply(s, st))
  {
    hide FdsOwned, PtrsOwned, StreamsOk, Apply;
    if st.Accept? {
      AcceptKeepsFds(s, st.fd);
      AcceptKeepsPtrs(s, st.fd);
      AcceptKeepsStreams(s, st.fd);
      AcceptIsSafe(s, st.fd);
    } else if AcceptorStep(st) {
      AcceptorKeepsFds(s, st);
      AcceptorKeepsPtrs(s, st);
      AcceptorKeepsStreams(s, st);
    } else {
      WorkerKeepsFds(s, st);
      WorkerKeepsPtrs(s, st);
      WorkerKeepsStreams(s, st);
    }
  }

  lemma AcceptIsSafe(s: Server, fd: Fd)
    requires Enabled(s, Accept(fd))
    ensures Apply(s, Accept(fd)).fault == s.fault
  {}

  /** The steps of run are enabled one after the other. */
  predicate IsRun(s: Server, run: seq<Step>)
    decreases |run|
  {
    run == [] || (Enabled(s, run[0]) && IsRun(Apply(s, run[0]), run[1..]))
  }

  function After(s: Server, run: seq<Step>): Server
    requires IsRun(s, run)
    decreases |run|
  {
    if run == [] then s else After(Apply(s, run[0]), run[1..])
  }

  lemma {:induction false} RunKeeps(s: Server, run: seq<Step>)
    requires ServerInv(s) && IsRun(s, run)
    ensures ServerInv(After(s, run))
    decreases |run|
  {
    hide ServerInv, Enabled, Apply;
    if run != [] {
      StepKeeps(s, run[0]);
      RunKeeps(Apply(s, run[0]), run[1..]);
    }
  }

  /** In every interleaving, with descriptors reused freely: nothing is closed or freed
      twice, or used after that or by another connection; each open descriptor and each
      session has exactly one owner; and when the server is at rest nothing is left. */
  lemma Ownership(run: seq<Step>)
    requires IsRun(INIT, run)
    ensures var s := After(INIT, run);
            && !s.fault
            && (forall fd :: fd in s.open ==>
                  exists o :: OwnsFd(s, o, fd) && forall o' :: OwnsFd(s, o', fd) ==> o' == o)
            && (forall ptr :: ptr in s.heap ==>
                  exists o :: OwnsPtr(s, o, ptr) && forall o' :: OwnsPtr(s, o', ptr) ==> o' == o)
            && (s.main.Idle? && s.workers == map[] ==> s.open == map[] && s.heap == map[])
  {
    hide StreamsOk, Apply;
    InitOk();
    RunKeeps(INIT, run);
    var s := After(INIT, run);
    forall fd | fd in s.open
      ensures exists o :: OwnsFd(s, o, fd) && forall o' :: OwnsFd(s, o', fd) ==> o' == o
    {
      var o :| OwnsFd(s, o, fd);
      forall o' | OwnsFd(s, o', fd) ensures o' == o {
        OneFdOwner(s, o', o, fd);
      }
    }
    if s.main.Idle? && s.workers == map[] {
      forall o ensures !Live(s, o) {
      }
      assert s.open.Keys == {} && s.heap.Keys == {};
    }
  }

  /** In a step from s, a send on conn takes all of its bytes and does not fail. */
  predicate FullStep(s: Server, st: Step, conn: nat)
    requires Enabled(s, st)
  {
    && (st.Send? && s.workers[st.tid].conn == conn ==> st.n == |s.workers[st.tid].data|)
    && (st.SendFails? ==> s.workers[st.tid].conn != conn)
  }

  /** Every send on conn during the run was full. */
  predicate AllFull(s: Server, run: seq<Step>, conn: nat)
    requires IsRun(s, run)
    decreases |run|
  {
    run == [] || (FullStep(s, run[0], conn) && AllFull(Apply(s, run[0]), run[1..], conn))
  }

  lemma FullAfterStep(s: Server, st: Step, conn: nat)
    requires ServerInv(s) && Enabled(s, st)
    ensures StreamOf(Apply(s, st), conn).full <==> StreamOf(s, conn).full && FullStep(s, st, conn)
  {
    hide FdsOwned, PtrsOwned;
    if AcceptorStep(st) {
      if !st.Accept? {
        SameStreams(s, st);
      }
    } else {
      ThreadResources(s, st);
    }
  }

  /** The flag of a connection tells whether all its sends were full. */
  lemma {:induction false} FullAfterRun(s: Server, run: seq<Step>, conn: nat)
    requires ServerInv(s) && IsRun(s, run)
    ensures StreamOf(After(s, run), conn).full <==> StreamOf(s, conn).full && AllFull(s, run, conn)
    decreases |run|
  {
    hide ServerInv, Enabled, Apply, FullStep, StreamOf;
    if run != [] {
      FullAfterStep(s, run[0], conn);
      StepKeeps(s, run[0]);
      FullAfterRun(Apply(s, run[0]), run[1..], conn);
    }
  }

  /** On every connection, between sends, what was sent back is what came in, in order, if
      and only if every send of the run took all of its bytes and none failed; a short send
      loses bytes for good. */
  lemma EchoIsExact(run: seq<Step>, conn: nat)
    requires IsRun(INIT, run) && conn < After(INIT, run).next
    requires forall o :: Live(After(INIT, run), o) && ConnOf(After(INIT, run), o) == conn
                         ==> Pending(After(INIT, run), o) == []
    ensures var t := StreamOf(After(INIT, run), conn);
            t.echoed == t.received <==> AllFull(INIT, run, conn)
  {
    hide FdsOwned, PtrsOwned, Apply, AllFull;
    InitOk();
    RunKeeps(INIT, run);
    FullAfterRun(INIT, run, conn);
    var s := After(INIT, run);
    var t := StreamOf(s, conn);
    assert Echoes(t, []) by {
      if o :| Live(s, o) && ConnOf(s, o) == conn {
        assert Pending(s, o) == [];
      }
    }
    assert t.echoed + [] == t.echoed;
  }

  /** Such a run: two bytes come in, a send takes only the first, and the second is gone. */
  lemma ShortSendLosesBytes() returns (run: seq<Step>)
    ensures IsRun(INIT, run)
    ensures var s := After(INIT, run);
            && s.next == 1 && !s.fault && s.main.Idle? && s.workers == map[0 := Looping(0, 7, 5)]
            && StreamOf(s, 0) == Stream([72, 105], [72], false)
    ensures !AllFull(INIT, run, 0)
  {
    run := [Accept(5), MallocWorks(7), CreateWorks(0), Begin(0), Recv(0, [72, 105]), Send(0, 1)];
    hide Apply, Enabled, AllFull;
    Connected();
    Begun();
    SentShort();
    TwoSteps(INIT, run);
    TwoSteps(Bound(), run[2..]);
    TwoSteps(Running([], [], true), run[2..][2..]);
    assert run[2..][2..][2..] == [];
    InitOk();
    FullAfterRun(INIT, run, 0);
  }

  /** After accept and malloc, and with the thread in its loop. */
  function Bound(): Server {
    Server(map[5 := 0], map[7 := 5], Allocated(0, 5, 7), map[], map[0 := Stream([], [], true)], 1, false)
  }

  function Running(received: seq<byte>, echoed: seq<byte>, full: bool): Server {
    Server(map[5 := 0], map[7 := 5], Idle, map[0 := Looping(0, 7, 5)],
           map[0 := Stream(received, echoed, full)], 1, false)
  }

  lemma Connected()
    ensures Enabled(INIT, Accept(5)) && Enabled(Apply(INIT, Accept(5)), MallocWorks(7))
    ensures Apply(Apply(INIT, Accept(5)), MallocWorks(7)) == Bound()
  {}

  lemma Begun()
    ensures Enabled(Bound(), CreateWorks(0)) && Enabled(Apply(Bound(), CreateWorks(0)), Begin(0))
    ensures Apply(Apply(Bound(), CreateWorks(0)), Begin(0)) == Running([], [], true)
  {}

  lemma SentShort()
    ensures Enabled(Running([], [], true), Recv(0, [72, 105]))
    ensures Enabled(Apply(Running([], [], true), Recv(0, [72, 105])), Send(0, 1))
    ensures Apply(Apply(Running([], [], true), Recv(0, [72, 105])), Send(0, 1)) == Running([72, 105], [72], false)
  {
    var s := Apply(Running([], [], true), Recv(0, [72, 105]));
    var none: seq<byte> := [];
    assert none + [72, 105] == [72, 105] && [72, 105][..1] == [72] && none + [72] == [72];
    assert StreamOf(s, 0) == Stream([72, 105], [], true);
  }

  lemma TwoSteps(s: Server, run: seq<Step>)
    requires 2 <= |run| && Enabled(s, run[0]) && Enabled(Apply(s, run[0]), run[1])
    ensures var r := Apply(Apply(s, run[0]), run[1]);
            && (IsRun(s, run) <==> IsRun(r, run[2..]))
            && (IsRun(r, run[2..]) ==> After(s, run) == After(r, run[2..]))
  {
    hide Apply, Enabled;
    assert run[1..][1..] == run[2..];
  }
}
