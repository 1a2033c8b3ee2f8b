/** What a client of the echo server sees from connecting to leaving
    (modules/socket/socket_multi_server.c:29-84 and 134-172): whole sessions as runs. */
module EchoSessions {
  import opened Utf8
  import opened EchoServer

  // ----- runs one after the other

  lemma {:induction false} RunConcat(s: Server, a: seq<Step>, b: seq<Step>)
    requires IsRun(s, a) && IsRun(After(s, a), b)
    ensures IsRun(s, a + b) && After(s, a + b) == After(After(s, a), b)
    decreases |a|
  {
    hide Apply, Enabled;
    if a == [] {
      assert a + b == b;
    } else {
      assert (a + b)[1..] == a[1..] + b;
      RunConcat(Apply(s, a[0]), a[1..], b);
    }
  }

  lemma OneStep(s: Server, st: Step)
    requires Enabled(s, st)
    ensures IsRun(s, [st]) && After(s, [st]) == Apply(s, st)
  {
    hide Apply, Enabled;
    assert [st][1..] == [];
  }

  /** A run and one more step. */
  lemma RunSnoc(s: Server, a: seq<Step>, st: Step)
    requires IsRun(s, a) && Enabled(After(s, a), st)
    ensures IsRun(s, a + [st]) && After(s, a + [st]) == Apply(After(s, a), st)
  {
    hide Apply, Enabled;
    OneStep(After(s, a), st);
    RunConcat(s, a, [st]);
  }

  // ----- the loop

  function Concat(chunks: seq<seq<byte>>): seq<byte> {
    if chunks == [] then [] else chunks[0] + Concat(chunks[1..])
  }

  /** Each chunk comes in and is sent back whole. */
  function Chat(tid: nat, chunks: seq<seq<byte>>): seq<Step> {
    if chunks == [] then [] else [Recv(tid, chunks[0]), Send(tid, |chunks[0]|)] + Chat(tid, chunks[1..])
  }

  /** s after data came in on conn and went back. */
  function Echoed(s: Server, conn: nat, data: seq<byte>): Server {
    var t := StreamOf(s, conn);
    s.(streams := s.streams[conn := Stream(t.received + data, t.echoed + data, t.full)])
  }

  predicate InLoop(s: Server, tid: nat) { tid in s.workers && s.workers[tid].Looping? }

  /** The thread owns what it works on. */
  lemma LoopingOwns(s: Server, tid: nat)
    requires ServerInv(s) && InLoop(s, tid)
    ensures var w := s.workers[tid];
            && w.fd in s.open && s.open[w.fd] == w.conn && w.ptr in s.heap && s.heap[w.ptr] == w.fd
            && w.conn in s.streams
  {
    assert Enabled(s, RecvEnds(tid));
    ThreadResources(s, RecvEnds(tid));
    assert Live(s, Thread(tid)) && ConnOf(s, Thread(tid)) == s.workers[tid].conn;
  }

  /** One chunk: nothing else in the server changes, and the thread is in its loop again. */
  lemma ChunkEchoed(s: Server, tid: nat, data: seq<byte>)
    requires ServerInv(s) && InLoop(s, tid) && 1 <= |data| <= 511
    ensures Enabled(s, Recv(tid, data)) && Enabled(Apply(s, Recv(tid, data)), Send(tid, |data|))
    ensures Apply(Apply(s, Recv(tid, data)), Send(tid, |data|)) == Echoed(s, s.workers[tid].conn, data)
  {
    hide FdsOwned, PtrsOwned, StreamsOk;
    LoopingOwns(s, tid);
    assert data[..|data|] == data;
    var w := s.workers[tid];
    assert s.workers[tid := Got(w.conn, w.ptr, w.fd, data)][tid := w] == s.workers;
  }

  /** From any reachable state with a thread in its loop, whatever chunks come in are all
      received and all sent back, and the thread is in its loop after each of them. */
  lemma {:induction false} AllEchoed(s: Server, tid: nat, chunks: seq<seq<byte>>)
    requires ServerInv(s) && InLoop(s, tid) && forall c :: c in chunks ==> 1 <= |c| <= 511
    ensures IsRun(s, Chat(tid, chunks))
    ensures var r, c := After(s, Chat(tid, chunks)), s.workers[tid].conn;
            && ServerInv(r) && r.workers == s.workers && r == Echoed(s, c, Concat(chunks))
    decreases |chunks|
  {
    hide ServerInv, Enabled, Apply;
    var c := s.workers[tid].conn;
    if chunks == [] {
      LoopingOwns(s, tid);
      NothingEchoed(s, c);
    } else {
      var d, rest := chunks[0], chunks[1..];
      assert d in chunks && forall e :: e in rest ==> e in chunks;
      ChunkEchoed(s, tid, d);
      StepKeeps(s, Recv(tid, d));
      StepKeeps(Apply(s, Recv(tid, d)), Send(tid, |d|));
      AllEchoed(Echoed(s, c, d), tid, rest);
      TwoSteps(s, Chat(tid, chunks));
      assert Chat(tid, chunks)[2..] == Chat(tid, rest);
      EchoedTwice(s, c, d, Concat(rest));
    }
  }

  lemma NothingEchoed(s: Server, conn: nat)
    requires conn in s.streams
    ensures Echoed(s, conn, []) == s
  {
    var t := s.streams[conn];
    assert t.received + [] == t.received && t.echoed + [] == t.echoed;
  }

  lemma EchoedTwice(s: Server, conn: nat, x: seq<byte>, y: seq<byte>)
    ensures Echoed(Echoed(s, conn, x), conn, y) == Echoed(s, conn, x + y)
  {
    var t := StreamOf(s, conn);
    assert t.received + x + y == t.received + (x + y) && t.echoed + x + y == t.echoed + (x + y);
  }

  // ----- what ends the loop

  /** The thread has not left its loop. */
  predicate BeforeEnd(w: Worker) { w.Started? || w.Looping? || w.Got? }

  lemma StepLeavesLoop(s: Server, st: Step, tid: nat)
    requires ServerInv(s) && Enabled(s, st) && st != RecvEnds(tid) && st != SendFails(tid)
    requires tid in s.workers ==> BeforeEnd(s.workers[tid])
    ensures var r := Apply(s, st); tid in r.workers ==> BeforeEnd(r.workers[tid])
    ensures var r := Apply(s, st);
            tid in s.workers ==> tid in r.workers && r.workers[tid].conn == s.workers[tid].conn
  {
    hide FdsOwned, StreamsOk;
    if !AcceptorStep(st) {
      ThreadResources(s, st);
    }
  }

  /** A thread is past its loop only after its own recv ended or its own send failed. */
  lemma {:induction false} LoopEndsOnly(s: Server, run: seq<Step>, tid: nat)
    requires ServerInv(s) && IsRun(s, run) && (tid in s.workers ==> BeforeEnd(s.workers[tid]))
    ensures var r := After(s, run);
            RecvEnds(tid) !in run && SendFails(tid) !in run ==>
              && (tid in r.workers ==> BeforeEnd(r.workers[tid]))
              && (tid in s.workers ==> tid in r.workers && r.workers[tid].conn == s.workers[tid].conn)
    decreases |run|
  {
    hide ServerInv, Enabled, Apply, BeforeEnd;
    if run != [] && RecvEnds(tid) !in run && SendFails(tid) !in run {
      assert run[0] in run && forall st :: st in run[1..] ==> st in run;
      StepLeavesLoop(s, run[0], tid);
      StepKeeps(s, run[0]);
      LoopEndsOnly(Apply(s, run[0]), run[1..], tid);
    }
  }

  // ----- a whole session

  /** Accepting a connection and starting its thread. */
  function Opening(fd: Fd, ptr: Ptr, tid: nat): seq<Step> {
    [Accept(fd), MallocWorks(ptr), CreateWorks(tid), Begin(tid)]
  }

  function Opened(s: Server, fd: Fd, ptr: Ptr, tid: nat): Server {
    s.(open := s.open[fd := s.next], heap := s.heap[ptr := fd], next := s.next + 1,
       streams := s.streams[s.next := Stream([], [], true)],
       workers := s.workers[tid := Looping(s.next, ptr, fd)])
  }

  lemma Opens(s: Server, fd: Fd, ptr: Ptr, tid: nat)
    requires s.main.Idle? && fd !in s.open && ptr !in s.heap && tid !in s.workers
    ensures IsRun(s, Opening(fd, ptr, tid)) && After(s, Opening(fd, ptr, tid)) == Opened(s, fd, ptr, tid)
  {
    FirstHalf(s, fd, ptr);
    var m := After(s, [Accept(fd), MallocWorks(ptr)]);
    SecondHalf(m, tid);
    assert [Accept(fd), MallocWorks(ptr)] + [CreateWorks(tid), Begin(tid)] == Opening(fd, ptr, tid);
    assert m.workers[tid := Started(s.next, ptr, fd)][tid := Looping(s.next, ptr, fd)] ==
           m.workers[tid := Looping(s.next, ptr, fd)];
    RunConcat(s, [Accept(fd), MallocWorks(ptr)], [CreateWorks(tid), Begin(tid)]);
  }

  function Prepared(s: Server, fd: Fd, ptr: Ptr): Server {
    s.(open := s.open[fd := s.next], heap := s.heap[ptr := fd], next := s.next + 1,
       streams := s.streams[s.next := Stream([], [], true)], main := Allocated(s.next, fd, ptr))
  }

  lemma FirstHalf(s: Server, fd: Fd, ptr: Ptr)
    requires s.main.Idle? && fd !in s.open && ptr !in s.heap
    ensures IsRun(s, [Accept(fd), MallocWorks(ptr)])
    ensures After(s, [Accept(fd), MallocWorks(ptr)]) == Prepared(s, fd, ptr)
  {
    OneStep(s, Accept(fd));
    RunSnoc(s, [Accept(fd)], MallocWorks(ptr));
    assert [Accept(fd)] + [MallocWorks(ptr)] == [Accept(fd), MallocWorks(ptr)];
  }

  lemma SecondHalf(s: Server, tid: nat)
    requires s.main.Allocated? && tid !in s.workers && s.main.ptr in s.heap && s.heap[s.main.ptr] == s.main.fd
    ensures IsRun(s, [CreateWorks(tid), Begin(tid)])
    ensures var m := s.main;
            After(s, [CreateWorks(tid), Begin(tid)]) ==
            s.(main := Idle, workers := s.workers[tid := Looping(m.conn, m.ptr, m.fd)])
  {
    var m := s.main;
    OneStep(s, CreateWorks(tid));
    RunSnoc(s, [CreateWorks(tid)], Begin(tid));
    assert [CreateWorks(tid)] + [Begin(tid)] == [CreateWorks(tid), Begin(tid)];
    assert s.workers[tid := Started(m.conn, m.ptr, m.fd)][tid := Looping(m.conn, m.ptr, m.fd)] ==
           s.workers[tid := Looping(m.conn, m.ptr, m.fd)];
  }

  // ----- leaving

  function Leave(tid: nat): seq<Step> { [Shutdown(tid), Close(tid), Free(tid)] }

  /** s without a thread, its descriptor and its session. */
  function Gone(s: Server, tid: nat, fd: Fd, ptr: Ptr): Server {
    s.(open := s.open - {fd}, heap := s.heap - {ptr}, workers := s.workers - {tid})
  }

  lemma Leaves(s: Server, tid: nat)
    requires tid in s.workers && s.workers[tid].Leaving?
    requires var w := s.workers[tid]; w.fd in s.open && s.open[w.fd] == w.conn && w.ptr in s.heap
    ensures IsRun(s, Leave(tid))
    ensures After(s, Leave(tid)) == Gone(s, tid, s.workers[tid].fd, s.workers[tid].ptr)
  {
    var w := s.workers[tid];
    var shut := s.(workers := s.workers[tid := Closing(w.conn, w.ptr, w.fd)]);
    var closed := s.(open := s.open - {w.fd}, workers := s.workers[tid := Freeing(w.conn, w.ptr)]);
    LeaveSteps(s, tid);
    assert shut.workers[tid := Freeing(w.conn, w.ptr)] == closed.workers;
    OneStep(s, Shutdown(tid));
    RunSnoc(s, [Shutdown(tid)], Close(tid));
    RunSnoc(s, [Shutdown(tid)] + [Close(tid)], Free(tid));
    assert [Shutdown(tid)] + [Close(tid)] + [Free(tid)] == Leave(tid);
    assert closed.workers - {tid} == s.workers - {tid};
  }

  lemma LeaveSteps(s: Server, tid: nat)
    requires tid in s.workers && s.workers[tid].Leaving?
    requires var w := s.workers[tid]; w.fd in s.open && s.open[w.fd] == w.conn && w.ptr in s.heap
    ensures var w := s.workers[tid];
            var shut := s.(workers := s.workers[tid := Closing(w.conn, w.ptr, w.fd)]);
            && Enabled(s, Shutdown(tid)) && Apply(s, Shutdown(tid)) == shut
            && Enabled(shut, Close(tid))
  {}

  /** The peer ends the connection: the thread leaves nothing behind. */
  lemma EndsAfterRecv(s: Server, tid: nat)
    requires ServerInv(s) && InLoop(s, tid)
    ensures IsRun(s, [RecvEnds(tid)] + Leave(tid))
    ensures After(s, [RecvEnds(tid)] + Leave(tid)) == Gone(s, tid, s.workers[tid].fd, s.workers[tid].ptr)
  {
    hide ServerInv;
    LoopingOwns(s, tid);
    var w := s.workers[tid];
    var m := s.(workers := s.workers[tid := Leaving(w.conn, w.ptr, w.fd)]);
    OneStep(s, RecvEnds(tid));
    Leaves(m, tid);
    RunConcat(s, [RecvEnds(tid)], Leave(tid));
    assert m.workers - {tid} == s.workers - {tid};
  }

  /** A failed send: what was received stays unsent, and the thread leaves nothing behind. */
  lemma EndsAfterSend(s: Server, tid: nat, data: seq<byte>)
    requires ServerInv(s) && InLoop(s, tid) && 1 <= |data| <= 511
    ensures var run := [Recv(tid, data), SendFails(tid)] + Leave(tid);
            && IsRun(s, run)
            && var w := s.workers[tid];
               var t := StreamOf(s, w.conn);
               After(s, run) ==
               Gone(s.(streams := s.streams[w.conn := Stream(t.received + data, t.echoed, false)]), tid, w.fd, w.ptr)
  {
    hide ServerInv;
    LoopingOwns(s, tid);
    var w, t := s.workers[tid], StreamOf(s, s.workers[tid].conn);
    var m := s.(workers := s.workers[tid := Leaving(w.conn, w.ptr, w.fd)],
                streams := s.streams[w.conn := Stream(t.received + data, t.echoed, false)]);
    SendThatFails(s, tid, data);
    Leaves(m, tid);
    RunConcat(s, [Recv(tid, data), SendFails(tid)], Leave(tid));
    assert m.workers - {tid} == s.workers - {tid};
  }

  lemma SendThatFails(s: Server, tid: nat, data: seq<byte>)
    requires InLoop(s, tid) && 1 <= |data| <= 511
    requires var w := s.workers[tid]; w.fd in s.open && s.open[w.fd] == w.conn
    ensures var w, t := s.workers[tid], StreamOf(s, s.workers[tid].conn);
            var m := s.(workers := s.workers[tid := Leaving(w.conn, w.ptr, w.fd)],
                        streams := s.streams[w.conn := Stream(t.received + data, t.echoed, false)]);
            && IsRun(s, [Recv(tid, data), SendFails(tid)]) && After(s, [Recv(tid, data), SendFails(tid)]) == m
  {
    var w := s.workers[tid];
    OneStep(s, Recv(tid, data));
    RunSnoc(s, [Recv(tid, data)], SendFails(tid));
    assert [Recv(tid, data)] + [SendFails(tid)] == [Recv(tid, data), SendFails(tid)];
    assert s.workers[tid := Got(w.conn, w.ptr, w.fd, data)][tid := Leaving(w.conn, w.ptr, w.fd)] ==
           s.workers[tid := Leaving(w.conn, w.ptr, w.fd)];
  }

  // ----- from connecting to leaving

  function Session(fd: Fd, ptr: Ptr, tid: nat, chunks: seq<seq<byte>>): seq<Step> {
    Opening(fd, ptr, tid) + (Chat(tid, chunks) + ([RecvEnds(tid)] + Leave(tid)))
  }

  /** A new connection recorded with what went through it. */
  function Recorded(s: Server, data: seq<byte>): Server {
    s.(next := s.next + 1, streams := s.streams[s.next := Stream(data, data, true)])
  }

  /** From any reachable state with an idle accept loop, a whole session can run: every byte
      that comes in goes back, and descriptors, sessions and threads are as before. */
  lemma WholeSession(s: Server, fd: Fd, ptr: Ptr, tid: nat, chunks: seq<seq<byte>>)
    requires ServerInv(s) && s.main.Idle? && fd !in s.open && ptr !in s.heap && tid !in s.workers
    requires forall c :: c in chunks ==> 1 <= |c| <= 511
    ensures IsRun(s, Session(fd, ptr, tid, chunks))
    ensures After(s, Session(fd, ptr, tid, chunks)) == Recorded(s, Concat(chunks))
  {
    hide ServerInv, Opening, Chat, Leave;
    var o := Opened(s, fd, ptr, tid);
    Opens(s, fd, ptr, tid);
    RunKeeps(s, Opening(fd, ptr, tid));
    AllEchoed(o, tid, chunks);
    var e := After(o, Chat(tid, chunks));
    EndsAfterRecv(e, tid);
    RunConcat(o, Chat(tid, chunks), [RecvEnds(tid)] + Leave(tid));
    RunConcat(s, Opening(fd, ptr, tid), Chat(tid, chunks) + ([RecvEnds(tid)] + Leave(tid)));
    SessionLeft(s, fd, ptr, tid, Concat(chunks));
  }

  lemma SessionLeft(s: Server, fd: Fd, ptr: Ptr, tid: nat, data: seq<byte>)
    requires fd !in s.open && ptr !in s.heap && tid !in s.workers
    ensures Gone(Echoed(Opened(s, fd, ptr, tid), s.next, data), tid, fd, ptr) == Recorded(s, data)
  {
    assert [] + data == data;
    assert s.open[fd := s.next] - {fd} == s.open && s.heap[ptr := fd] - {ptr} == s.heap;
    assert s.workers[tid := Looping(s.next, ptr, fd)] - {tid} == s.workers;
  }

  /** When malloc or pthread_create fails the connection is closed and nothing is left. */
  lemma RefusedSession(s: Server, fd: Fd, ptr: Ptr)
    requires ServerInv(s) && s.main.Idle? && fd !in s.open && ptr !in s.heap
    ensures IsRun(s, [Accept(fd), MallocFails]) && After(s, [Accept(fd), MallocFails]) == Recorded(s, [])
    ensures var run := [Accept(fd), MallocWorks(ptr)] + [CreateFails, DropSession];
            IsRun(s, run) && After(s, run) == Recorded(s, [])
  {
    hide ServerInv;
    OneStep(s, Accept(fd));
    RunSnoc(s, [Accept(fd)], MallocFails);
    assert [Accept(fd)] + [MallocFails] == [Accept(fd), MallocFails];
    assert s.open[fd := s.next] - {fd} == s.open && s.heap[ptr := fd] - {ptr} == s.heap;
    FirstHalf(s, fd, ptr);
    Dropped(Prepared(s, fd, ptr));
    RunConcat(s, [Accept(fd), MallocWorks(ptr)], [CreateFails, DropSession]);
  }

  lemma Dropped(s: Server)
    requires s.main.Allocated? && s.main.fd in s.open && s.open[s.main.fd] == s.main.conn && s.main.ptr in s.heap
    ensures IsRun(s, [CreateFails, DropSession])
    ensures After(s, [CreateFails, DropSession]) ==
            s.(open := s.open - {s.main.fd}, heap := s.heap - {s.main.ptr}, main := Idle)
  {
    OneStep(s, CreateFails);
    RunSnoc(s, [CreateFails], DropSession);
    assert [CreateFails] + [DropSession] == [CreateFails, DropSession];
  }
}
