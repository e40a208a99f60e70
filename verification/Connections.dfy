/** The state of the connections of one worker, as values: TCPConnection, the
    pool and the backpressure of TCPServer, the interest of EpollEventLoop.  A
    TCPConnection* is an index into the list of all connections. */
module Connections {
  import opened FiniteSets

  datatype Interest = In | Out

  /** What has happened on the current (or last) session of a connection. */
  datatype Trace = Trace(
    session: nat,
    received: string,      // bytes taken from the socket
    submitted: string,     // bytes handed to the write path
    sent: string)          // bytes the socket accepted

  datatype Conn = Conn(
    fd: int,
    readBuf: string, readPos: nat,
    writeBuf: string, writePos: nat, writeLen: nat,
    reading: bool, writing: bool,
    trace: Trace)
  {
    predicate Active() { fd >= 0 }

    predicate Shape(capacity: nat) {
      && |readBuf| == |writeBuf| == capacity
      && readPos <= capacity && writePos <= writeLen <= capacity
    }

    function Unsent(): string
      requires writePos <= writeLen <= |writeBuf|
    {
      writeBuf[writePos..writeLen]
    }

    /** What was sent and what the write buffer still holds make up what was
        submitted; nothing waits in the read buffer while a reply is written. */
    predicate Ok(capacity: nat) {
      && Shape(capacity)
      && trace.submitted == trace.sent + Unsent()
      && (writing ==> readPos == 0)
      && (!writing ==> writePos == writeLen == 0)
    }

    /** The event loop will hear of this connection again. */
    predicate Armed(interest: map<int, Interest>) {
      && fd in interest
      && if writing then !reading && interest[fd] == Out && writePos < writeLen
         else reading && interest[fd] == In && readPos < |readBuf|
    }

    /** The socket took n more bytes. */
    function Advance(n: nat): Conn
      requires writePos + n <= writeLen <= |writeBuf|
    {
      this.(writePos := writePos + n, trace := trace.(sent := trace.sent + writeBuf[writePos..writePos + n]))
    }

    /** data put behind the unread bytes, and read_pos advanced. */
    function Received(data: string): (c: Conn)
      requires readPos + |data| <= |readBuf|
      ensures |c.readBuf| == |readBuf| && c.readPos <= |c.readBuf|
      ensures c.readBuf[..c.readPos] == readBuf[..readPos] + data
    {
      this.(readBuf := readBuf[..readPos] + data + readBuf[readPos + |data|..],
            readPos := readPos + |data|, reading := false,
            trace := trace.(received := trace.received + data))
    }

    /** TCPConnection::close and free_connection. */
    function Closed(): Conn {
      this.(fd := -1, readPos := 0, writePos := 0, writeLen := 0, reading := false, writing := false)
    }

    /** allocate_connection on a pooled connection. */
    function Reopened(fd: int, session: nat): Conn {
      Closed().(fd := fd, trace := Trace(session, "", "", ""))
    }
  }

  lemma AdvanceOk(c: Conn, n: nat, capacity: nat)
    requires c.Ok(capacity) && c.writing && c.writePos + n <= c.writeLen
    ensures c.Advance(n).Ok(capacity) && c.trace.sent <= c.Advance(n).trace.sent
  {
    assert c.Unsent() == c.writeBuf[c.writePos..c.writePos + n] + c.Advance(n).Unsent();
  }

  function Fresh(fd: int, capacity: nat, session: nat): Conn {
    var zeros := seq(capacity, _ => '\0');
    Conn(fd, zeros, 0, zeros, 0, 0, false, false, Trace(session, "", "", ""))
  }

  /** A pooled connection is in the free list, once, exactly when it is
      inactive; `active` counts the others. */
  ghost predicate PoolOk(conns: seq<Conn>, free: seq<nat>, active: int, maxConnections: nat) {
    && (forall i, j :: 0 <= i < j < |free| ==> free[i] != free[j])
    && (forall i :: i in free ==> i < |conns|)
    && (forall i :: 0 <= i < |conns| ==> (conns[i].Active() <==> i !in free))
    && active == |conns| - |free| <= maxConnections
  }

  function ResumeThreshold(maxConnections: nat): nat {
    if maxConnections > 64 then maxConnections - 64 else 0
  }

  /** Accepting stops at the limit and resumes well below it. */
  predicate BackpressureOk(paused: bool, accepting: bool, active: int, maxConnections: nat) {
    && (paused ==> active > ResumeThreshold(maxConnections))
    && (!paused ==> active < maxConnections)
    && accepting == !paused
  }

  /** Open sockets differ, and only open sockets have an interest. */
  ghost predicate FdsOk(conns: seq<Conn>, interest: map<int, Interest>) {
    && (forall i, j :: 0 <= i < j < |conns| && conns[i].Active() && conns[j].Active() ==>
          conns[i].fd != conns[j].fd && conns[i].trace.session != conns[j].trace.session)
    && (forall f :: f in interest ==> FdOpen(conns, f))
  }

  predicate FdOpen(conns: seq<Conn>, f: int) {
    f >= 0 && exists i :: 0 <= i < |conns| && conns[i].fd == f
  }

  ghost predicate SettledAt(c: Conn, capacity: nat, interest: map<int, Interest>) {
    && c.Shape(capacity) && c.trace.sent <= c.trace.submitted
    && (c.Active() ==> c.Ok(capacity) && c.Armed(interest))
  }

  /** Every connection but k can be left alone until its next event. */
  ghost predicate SettledBut(conns: seq<Conn>, k: int, capacity: nat, interest: map<int, Interest>) {
    forall i :: 0 <= i < |conns| && i != k ==> SettledAt(conns[i], capacity, interest)
  }

  lemma InterestOfOne(conns: seq<Conn>, k: nat, c: Conn, capacity: nat, interest: map<int, Interest>, want: Interest)
    requires k < |conns| && conns[k].Active() && c.fd == conns[k].fd
    requires c.trace.session == conns[k].trace.session
    requires FdsOk(conns, interest) && SettledBut(conns, k, capacity, interest)
    ensures FdsOk(conns[k := c], interest[c.fd := want])
    ensures SettledBut(conns[k := c], k, capacity, interest[c.fd := want])
  {
    var conns', interest' := conns[k := c], interest[c.fd := want];
    forall f | f in interest' ensures FdOpen(conns', f) {
      if f == c.fd {
        assert conns'[k].fd == f;
      } else {
        assert FdOpen(conns, f);
        var i :| 0 <= i < |conns| && conns[i].fd == f;
        assert conns'[i].fd == f;
      }
    }
  }

  lemma FdsAfterClose(conns: seq<Conn>, k: nat, capacity: nat, interest: map<int, Interest>)
    requires k < |conns| && conns[k].Active()
    requires FdsOk(conns, interest) && SettledBut(conns, k, capacity, interest)
    ensures FdsOk(conns[k := conns[k].Closed()], interest - {conns[k].fd})
    ensures SettledBut(conns[k := conns[k].Closed()], k, capacity, interest - {conns[k].fd})
  {
    var conns', interest' := conns[k := conns[k].Closed()], interest - {conns[k].fd};
    forall f | f in interest' ensures FdOpen(conns', f) {
      assert FdOpen(conns, f);
      var i :| 0 <= i < |conns| && conns[i].fd == f;
      assert conns'[i].fd == f;
    }
  }

  lemma PoolAfterClose(conns: seq<Conn>, k: nat, free: seq<nat>, active: int, maxConnections: nat)
    requires PoolOk(conns, free, active, maxConnections) && k < |conns| && conns[k].Active()
    ensures PoolOk(conns[k := conns[k].Closed()], free + [k], active - 1, maxConnections)
  {
  }

  lemma PoolKeepsOpen(conns: seq<Conn>, k: nat, c: Conn, free: seq<nat>, active: int, maxConnections: nat)
    requires PoolOk(conns, free, active, maxConnections) && k < |conns|
    requires c.Active() <==> conns[k].Active()
    ensures PoolOk(conns[k := c], free, active, maxConnections)
  {
  }

  ghost function Members(free: seq<nat>): set<nat> { set i | i in free }

  lemma {:induction false} DistinctCount(free: seq<nat>)
    requires forall i, j :: 0 <= i < j < |free| ==> free[i] != free[j]
    ensures |Members(free)| == |free|
  {
    if free != [] {
      var init, last := free[..|free| - 1], free[|free| - 1];
      DistinctCount(init);
      assert last !in Members(init);
      assert Members(free) == Members(init) + {last};
    }
  }

  /** The counter is the number of active connections. */
  lemma ActiveCounted(conns: seq<Conn>, free: seq<nat>, active: int, maxConnections: nat)
    requires PoolOk(conns, free, active, maxConnections)
    ensures active == |set i | 0 <= i < |conns| && conns[i].Active()| <= maxConnections
  {
    DistinctCount(free);
    var busy := set i | 0 <= i < |conns| && conns[i].Active();
    assert Upto(|conns|) == Members(free) + busy && Members(free) !! busy;
  }

  /** conns' is conns with connection k replaced or added. */
  ghost predicate OthersKept(conns: seq<Conn>, conns': seq<Conn>, k: nat) {
    && k < |conns'| && (|conns'| == |conns| || (|conns'| == |conns| + 1 && k == |conns|))
    && (forall i :: 0 <= i < |conns| && i != k ==> conns'[i] == conns[i])
  }

  /** No connection but k has changed. */
  ghost predicate OnlyOne(conns: seq<Conn>, conns': seq<Conn>, k: nat) {
    k < |conns| == |conns'| && conns' == conns[k := conns'[k]]
  }

  lemma OnlyOneAgain(a: seq<Conn>, b: seq<Conn>, c: seq<Conn>, k: nat)
    requires OnlyOne(a, b, k) && OnlyOne(b, c, k)
    ensures OnlyOne(a, c, k)
  {
  }

  /** Connection k now serves a new session on fd; no other has changed. */
  ghost predicate OpenedAt(conns: seq<Conn>, conns': seq<Conn>, k: nat, fd: int, session: nat) {
    && OthersKept(conns, conns', k) && (k < |conns| ==> !conns[k].Active())
    && conns'[k].fd == fd && conns'[k].trace == Trace(session, "", "", "")
    && conns'[k].reading && conns'[k].readPos == 0
  }

  /** allocate_connection reusing the last connection of the free list. */
  lemma PoolReopens(conns: seq<Conn>, free: seq<nat>, active: int, maxConnections: nat, c: Conn)
    requires PoolOk(conns, free, active, maxConnections) && active < maxConnections
    requires free != [] && c.Active()
    ensures free[|free| - 1] < |conns|
    ensures PoolOk(conns[free[|free| - 1] := c], free[..|free| - 1], active + 1, maxConnections)
  {
    var k, free' := free[|free| - 1], free[..|free| - 1];
    assert k in free && k !in free';
    assert forall i :: i in free <==> i in free' || i == k;
  }

  lemma PoolGrows(conns: seq<Conn>, active: int, maxConnections: nat, c: Conn)
    requires PoolOk(conns, [], active, maxConnections) && active < maxConnections && c.Active()
    ensures PoolOk(conns + [c], [], active + 1, maxConnections)
  {
  }

  /** A new socket disturbs no other connection. */
  lemma FdsAfterOpen(conns: seq<Conn>, conns': seq<Conn>, k: nat, sessions: nat, capacity: nat,
                     interest: map<int, Interest>)
    requires OthersKept(conns, conns', k) && (k < |conns| ==> !conns[k].Active())
    requires FdsOk(conns, interest) && SettledBut(conns, -1, capacity, interest)
    requires conns'[k].Active() && !FdOpen(conns, conns'[k].fd) && conns'[k].trace.session == sessions
    requires forall i :: 0 <= i < |conns| && conns[i].Active() ==> conns[i].trace.session < sessions
    ensures FdsOk(conns', interest) && SettledBut(conns', k, capacity, interest)
  {
    forall f | f in interest ensures FdOpen(conns', f) {
      assert FdOpen(conns, f);
      var i :| 0 <= i < |conns| && conns[i].fd == f;
      assert i != k && conns'[i].fd == f;
    }
    forall i, j | 0 <= i < j < |conns'| && conns'[i].Active() && conns'[j].Active()
      ensures conns'[i].fd != conns'[j].fd && conns'[i].trace.session != conns'[j].trace.session
    {
      if i == k {
        assert FdOpen(conns, conns[j].fd);
      } else if j == k {
        assert FdOpen(conns, conns[i].fd);
      }
    }
  }

  /** Replacing connection k by one with the same socket and session. */
  lemma TouchOne(conns: seq<Conn>, k: nat, c: Conn, capacity: nat, interest: map<int, Interest>)
    requires k < |conns| && conns[k].Active() && c.fd == conns[k].fd
    requires c.trace.session == conns[k].trace.session
    requires FdsOk(conns, interest) && SettledBut(conns, k, capacity, interest)
    ensures FdsOk(conns[k := c], interest)
    ensures SettledBut(conns[k := c], k, capacity, interest)
  {
    var conns' := conns[k := c];
    forall f | f in interest ensures FdOpen(conns', f) {
      assert FdOpen(conns, f);
      var i :| 0 <= i < |conns| && conns[i].fd == f;
      assert conns'[i].fd == f;
    }
  }

  lemma SettledAll(conns: seq<Conn>, k: nat, capacity: nat, interest: map<int, Interest>)
    requires SettledBut(conns, k, capacity, interest)
    requires k < |conns| ==> SettledAt(conns[k], capacity, interest)
    ensures SettledBut(conns, -1, capacity, interest)
  {
  }

  /** The session sees the same input, read and unread, and owes as much. */
  ghost predicate SameInput(c: Conn, c': Conn) {
    && c'.trace.session == c.trace.session
    && c'.trace.received == c.trace.received
    && c'.trace.submitted == c.trace.submitted
    && c.readPos <= |c.readBuf| && c'.readPos <= |c'.readBuf|
    && c'.readBuf[..c'.readPos] == c.readBuf[..c.readPos]
  }

  /** The fields of TCPServer and EpollEventLoop. */
  datatype Net = Net(
    conns: seq<Conn>, free: seq<nat>, active: int, acceptPaused: bool, accepting: bool,
    fdInterest: map<int, Interest>,
    kernelInterest: map<int, Interest>)    // the kernel's own record

  datatype Config = Config(maxConnections: nat, bufferSize: nat)

  ghost predicate NetOk(n: Net, cfg: Config) {
    && cfg.maxConnections >= 1 && cfg.bufferSize >= 1
    && PoolOk(n.conns, n.free, n.active, cfg.maxConnections)
    && BackpressureOk(n.acceptPaused, n.accepting, n.active, cfg.maxConnections)
    && FdsOk(n.conns, n.fdInterest)
    && n.kernelInterest == n.fdInterest
  }

  /** Between two events: no connection is ever left un-armed. */
  ghost predicate Quiet(n: Net, cfg: Config) {
    NetOk(n, cfg) && SettledBut(n.conns, -1, cfg.bufferSize, n.fdInterest)
  }

  /** While an event of connection k is being handled. */
  ghost predicate Handling(n: Net, k: nat, cfg: Config) {
    && NetOk(n, cfg) && k < |n.conns| && n.conns[k].Active() && n.conns[k].Shape(cfg.bufferSize)
    && SettledBut(n.conns, k, cfg.bufferSize, n.fdInterest)
  }

  lemma StartHandling(n: Net, k: nat, cfg: Config)
    requires Quiet(n, cfg) && k < |n.conns| && n.conns[k].Active()
    ensures Handling(n, k, cfg) && n.conns[k].Ok(cfg.bufferSize) && n.conns[k].Armed(n.fdInterest)
  {
    assert SettledAt(n.conns[k], cfg.bufferSize, n.fdInterest);
  }

  /** A setter of connection k. */
  function Put(n: Net, k: nat, c: Conn): Net
    requires k < |n.conns|
  {
    n.(conns := n.conns[k := c])
  }

  lemma PutHandling(n: Net, k: nat, c: Conn, cfg: Config)
    requires Handling(n, k, cfg) && c.Shape(cfg.bufferSize)
    requires c.fd == n.conns[k].fd && c.trace.session == n.conns[k].trace.session
    ensures Handling(Put(n, k, c), k, cfg)
  {
    TouchOne(n.conns, k, c, cfg.bufferSize, n.fdInterest);
    PoolKeepsOpen(n.conns, k, c, n.free, n.active, cfg.maxConnections);
  }

  /** Once connection k is well formed and armed, the worker may wait again. */
  lemma ArmQuiet(n: Net, k: nat, want: Interest, cfg: Config)
    requires Handling(n, k, cfg) && n.conns[k].Ok(cfg.bufferSize)
    requires n.conns[k].Armed(n.fdInterest[n.conns[k].fd := want])
    ensures Quiet(SetInterest(n, n.conns[k].fd, want), cfg)
  {
    InterestOfOne(n.conns, k, n.conns[k], cfg.bufferSize, n.fdInterest, want);
    assert n.conns[k := n.conns[k]] == n.conns;
    SettledAll(n.conns, k, cfg.bufferSize, n.fdInterest[n.conns[k].fd := want]);
  }

  /** set_interest: epoll_ctl is called only when the cached interest differs. */
  function SetInterest(n: Net, fd: int, want: Interest): (n': Net)
    ensures n.kernelInterest == n.fdInterest ==>
              n' == n.(fdInterest := n.fdInterest[fd := want], kernelInterest := n.fdInterest[fd := want])
  {
    if fd in n.fdInterest && n.fdInterest[fd] == want then
      assert n.fdInterest[fd := want] == n.fdInterest;
      n
    else
      n.(fdInterest := n.fdInterest[fd := want], kernelInterest := n.kernelInterest[fd := want])
  }

  /** An opened connection is ready to be registered for reading. */
  ghost predicate JustOpened(n: Net, n': Net, k: nat, fd: int, session: nat, cfg: Config) {
    && Handling(n', k, cfg) && n'.conns[k].Ok(cfg.bufferSize) && n'.active == n.active + 1
    && n'.conns[k].fd == fd && n'.conns[k].trace == Trace(session, "", "", "")
    && !n'.conns[k].reading && !n'.conns[k].writing && n'.conns[k].readPos == 0
    && OthersKept(n.conns, n'.conns, k) && (k < |n.conns| ==> !n.conns[k].Active())
  }

  lemma OpensReused(n: Net, fd: int, session: nat, cfg: Config)
    requires Quiet(n, cfg) && n.active < cfg.maxConnections && fd >= 0 && !FdOpen(n.conns, fd)
    requires forall i :: 0 <= i < |n.conns| && n.conns[i].Active() ==> n.conns[i].trace.session < session
    requires n.free != []
    ensures var k := n.free[|n.free| - 1];
            k < |n.conns| &&
            var n' := n.(conns := n.conns[k := n.conns[k].Reopened(fd, session)],
                         free := n.free[..|n.free| - 1], active := n.active + 1);
            JustOpened(n, Backpressured(n', cfg.maxConnections), k, fd, session, cfg)
  {
    var k := n.free[|n.free| - 1];
    assert k in n.free && SettledAt(n.conns[k], cfg.bufferSize, n.fdInterest);
    var c := n.conns[k].Reopened(fd, session);
    PoolReopens(n.conns, n.free, n.active, cfg.maxConnections, c);
    assert c.Unsent() == "";
    FdsAfterOpen(n.conns, n.conns[k := c], k, session, cfg.bufferSize, n.fdInterest);
  }

  lemma OpensNew(n: Net, fd: int, session: nat, cfg: Config)
    requires Quiet(n, cfg) && n.active < cfg.maxConnections && fd >= 0 && !FdOpen(n.conns, fd)
    requires forall i :: 0 <= i < |n.conns| && n.conns[i].Active() ==> n.conns[i].trace.session < session
    requires n.free == []
    ensures var n' := n.(conns := n.conns + [Fresh(fd, cfg.bufferSize, session)], active := n.active + 1);
            JustOpened(n, Backpressured(n', cfg.maxConnections), |n.conns|, fd, session, cfg)
  {
    var c := Fresh(fd, cfg.bufferSize, session);
    PoolGrows(n.conns, n.active, cfg.maxConnections, c);
    assert c.Unsent() == "";
    FdsAfterOpen(n.conns, n.conns + [c], |n.conns|, session, cfg.bufferSize, n.fdInterest);
  }

  lemma StillKept(conns: seq<Conn>, conns': seq<Conn>, k: nat, c: Conn)
    requires OthersKept(conns, conns', k)
    ensures OthersKept(conns, conns'[k := c], k)
  {
  }

  /** update_accept_backpressure */
  function Backpressured(n: Net, maxConnections: nat): (n': Net)
    ensures n' == n.(acceptPaused := n'.acceptPaused, accepting := n'.accepting)
    ensures maxConnections >= 1 && n.active <= maxConnections && n.accepting == !n.acceptPaused ==>
              BackpressureOk(n'.acceptPaused, n'.accepting, n.active, maxConnections)
  {
    if !n.acceptPaused && n.active >= maxConnections then n.(acceptPaused := true, accepting := false)
    else if n.acceptPaused && n.active <= ResumeThreshold(maxConnections) then
      n.(acceptPaused := false, accepting := true)
    else n
  }
}
