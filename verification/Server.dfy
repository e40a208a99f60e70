/** One worker thread of the mini-redis server: TCPServer, EpollEventLoop and
    MiniRedisServer, joined by their callbacks.  The socket calls answer in any
    way they may; epoll_ctl succeeds. */
module Server {
  import opened Resp
  import opened FlatStore
  import opened ShardedStore
  import opened History
  import opened Connections

  datatype ConnState = ConnState(pendingOut: string, closeAfterWrite: bool)

  type States = map<nat, ConnState>

  /** What one turn of on_read's loop found at the front of the buffer: no
      complete command, grounds to close, or a command. */
  datatype Turn = Stop | Fatal | Took(quit: bool)

  /** A connection to accept, or a connection with epoll flags raised. */
  datatype Event =
    | Accepted(fd: int)
    | Ready(k: nat, error: bool, writable: bool, readable: bool, recvs: seq<RecvResult>, sends: seq<SendResult>)

  /** What one recv() returns: some bytes, zero, EAGAIN, or another error. */
  datatype RecvResult = Bytes(data: string) | Zero | Again | Broken

  /** What ended a loop of recv() calls. */
  datatype RecvEnd = Filled | EndOfFile | WouldBlock | Failed

  /** All that a loop of recv() calls reads into `room` bytes, and what ends it;
      recv() never returns more than it is given room for. */
  function RecvAll(results: seq<RecvResult>, room: nat): (r: (string, RecvEnd))
    ensures |r.0| <= room && (room > 0 && r.0 == "" ==> r.1 != Filled)
    decreases |results|
  {
    if room == 0 then ("", Filled)
    else if results == [] then ("", WouldBlock)
    else
      match results[0]
      case Zero => ("", EndOfFile)
      case Again => ("", WouldBlock)
      case Broken => ("", Failed)
      case Bytes(d) =>
        if d == "" then ("", EndOfFile)
        else
          var got := if |d| > room then d[..room] else d;
          var (more, end) := RecvAll(results[1..], room - |got|);
          (got + more, end)
  }

  /** A readable event with nothing to read after all. */
  lemma SpuriousWakeup(results: seq<RecvResult>, room: nat)
    requires room > 0 && (results == [] || results[0] == Again)
    ensures RecvAll(results, room) == ("", WouldBlock)
  {
  }

  /** What one send() returns: a number of bytes, EAGAIN, or another error. */
  datatype SendResult = Accepts(n: nat) | NotYet | Rejects

  /** What ended a loop of send() calls. */
  datatype SendEnd = AllOut | Blocked | Rejected

  /** How far a loop of send() calls gets, and what is left of its results. */
  datatype Sending = Sending(n: nat, end: SendEnd, rest: seq<SendResult>)

  /** The send loop for `len` bytes; zero bytes accepted is an error. */
  function SendAll(results: seq<SendResult>, len: nat): (w: Sending)
    ensures w.n <= len && (w.end == AllOut <==> w.n == len)
    decreases |results|
  {
    if len == 0 then Sending(0, AllOut, results)
    else if results == [] then Sending(0, Blocked, [])
    else
      match results[0]
      case NotYet => Sending(0, Blocked, results[1..])
      case Rejects => Sending(0, Rejected, results[1..])
      case Accepts(n) =>
        if n == 0 then Sending(0, Rejected, results[1..])
        else
          var taken := if n > len then len else n;
          var w := SendAll(results[1..], len - taken);
          w.(n := taken + w.n)
  }

  /** A writable event: the loop, and after a partial write once more. */
  function DrainAll(results: seq<SendResult>, len: nat): (w: Sending)
    ensures w.n <= len
  {
    var first := SendAll(results, len);
    if first.end == Blocked && first.n > 0 then
      var second := SendAll(first.rest, len - first.n);
      second.(n := first.n + second.n)
    else first
  }

  const MIN_BUFFER: nat := 1024
  const TOO_LARGE_REPLY := "-ERR response too large\r\n"

  lemma DrainStep(results: seq<SendResult>, len: nat, n: nat, end: SendEnd, rest: seq<SendResult>)
    requires SendAll(results, len) == Sending(n, end, rest)
    ensures n <= len
    ensures end == Rejected || n == 0 ==> DrainAll(results, len) == Sending(n, end, rest)
    ensures end != Rejected && n > 0 ==>
              DrainAll(results, len) == SendAll(rest, len - n).(n := n + SendAll(rest, len - n).n)
  {
  }

  /** What handling a write leaves behind: exactly w.n more bytes are sent; one
      connection has moved on, with the same input; it is closed exactly if a
      send was refused or QUIT's reply is out. */
  ghost predicate WriteDone(conns: seq<Conn>, conns': seq<Conn>, k: nat, states: States, states': States, w: Sending) {
    && k < |conns| == |conns'| && k in states
    && (forall i :: 0 <= i < |conns| && i != k ==> conns'[i] == conns[i])
    && states' - {k} == states - {k}
    && SentMore(conns[k], conns'[k], w.n)
    && conns'[k].trace.(sent := "") == conns[k].trace.(sent := "")
    && (conns'[k].Active() ==>
          && states' == states && SameInput(conns[k], conns'[k])
          && w.end != Rejected && (states[k].closeAfterWrite ==> conns'[k].writing))
    && (!conns'[k].Active() ==>
          w.end == Rejected || (states[k].closeAfterWrite && conns'[k].trace.sent == conns'[k].trace.submitted))
  }

  /** The socket has taken the next n unsent bytes of c. */
  ghost predicate SentMore(c: Conn, c': Conn, n: nat) {
    && c.writePos + n <= c.writeLen <= |c.writeBuf|
    && c'.trace.sent == c.trace.sent + c.writeBuf[c.writePos..c.writePos + n]
  }

  /** A send that is refused: the connection is closed and forgotten. */
  lemma WriteRejected(conns: seq<Conn>, conns': seq<Conn>, k: nat, states: States, states': States, w: Sending)
    requires k < |conns| && k in states && w.end == Rejected
    requires conns[k].writePos + w.n <= conns[k].writeLen <= |conns[k].writeBuf|
    requires conns' == conns[k := conns[k].Advance(w.n).(writing := false).Closed()] && states' == states - {k}
    ensures WriteDone(conns, conns', k, states, states', w)
  {
  }

  /** A socket that takes no more for now. */
  lemma WriteWaits(conns: seq<Conn>, conns': seq<Conn>, k: nat, states: States, w: Sending)
    requires k < |conns| && k in states && w.end == Blocked
    requires conns[k].writing && conns[k].readPos <= |conns[k].readBuf|
    requires conns[k].writePos + w.n <= conns[k].writeLen <= |conns[k].writeBuf|
    requires conns[k].Active() && conns' == conns[k := conns[k].Advance(w.n)]
    ensures WriteDone(conns, conns', k, states, states, w)
  {
  }

  lemma NothingWritten(conns: seq<Conn>, k: nat, states: States, w: Sending)
    requires k < |conns| && k in states && w.end == Blocked && w.n == 0
    requires conns[k].writing && conns[k].Active() && conns[k].readPos <= |conns[k].readBuf|
    requires conns[k].writePos <= conns[k].writeLen <= |conns[k].writeBuf|
    ensures WriteDone(conns, conns, k, states, states, w)
  {
    NothingMore(conns[k]);
  }

  /** A write that is handled after the socket has taken n bytes already. */
  lemma WriteDoneBehind(conns: seq<Conn>, mid: seq<Conn>, conns': seq<Conn>, k: nat, states: States, states': States,
                        n: nat, w: Sending)
    requires k < |conns| && n <= conns[k].writeLen - conns[k].writePos && conns[k].writeLen <= |conns[k].writeBuf|
    requires conns[k].writePos <= conns[k].writeLen && conns[k].readPos <= |conns[k].readBuf|
    requires mid == conns[k := conns[k].Advance(n)] && WriteDone(mid, conns', k, states, states', w)
    ensures WriteDone(conns, conns', k, states, states', w.(n := n + w.n))
  {
    var b, i := conns[k].writeBuf, conns[k].writePos;
    assert b[i..i + n] + b[i + n..i + n + w.n] == b[i..i + (n + w.n)];
  }

  lemma OnlyOneWritten(conns: seq<Conn>, conns': seq<Conn>, k: nat, states: States, states': States, w: Sending)
    requires WriteDone(conns, conns', k, states, states', w)
    ensures OnlyOne(conns, conns', k)
  {
  }

  /** Grounds to close a session that its own input has given. */
  ghost predicate Unservable(t: Trace, h: seq<Call>, capacity: nat) {
    || Greedy(t.received).broken                                     // a protocol error
    || |Greedy(t.received).rest| >= capacity                         // a command that cannot fit
    || (CommandsOf(h, t.session) <= Greedy(t.received).commands      // more replies than the buffer holds
        && |RepliesTo(h, t.session)| > |t.submitted| + capacity)
  }

  /** The batch of calls since number n holds a QUIT, anywhere in it, and left no
      command cut short. */
  ghost predicate QuitInWholeBatch(t: Trace, h: seq<Call>, n: nat) {
    QuitSince(h, n) && Greedy(t.received).rest == ""
  }

  /** Why a session ends: its socket failed or came to its end, it was woken with
      nothing to read, its input cannot be served, or its QUIT is answered. */
  ghost predicate Over(t: Trace, h: seq<Call>, n: nat, gaveUp: bool, starved: bool, capacity: nat) {
    gaveUp || starved || Unservable(t, h, capacity) || (QuitInWholeBatch(t, h, n) && t.sent == t.submitted)
  }

  /** recv() failed, or met the end of the input before any byte. */
  predicate RecvFails(data: string, end: RecvEnd) { end == Failed || (data == "" && end == EndOfFile) }

  /** recv() had nothing and would have blocked. */
  predicate Starved(data: string, end: RecvEnd) { data == "" && end == WouldBlock }

  /** How many bytes were added. */
  function Grown(a: string, b: string): nat { if |a| <= |b| then |b| - |a| else 0 }

  /** The replies submitted since, if any, met a send() that failed. */
  predicate ReplyFails(submitted: string, submitted': string, sends: seq<SendResult>) {
    SendAll(sends, Grown(submitted, submitted')).end == Rejected
  }

  /** No command but those of the stream is dispatched, in its order, and what is
      submitted are the first of the replies to these. */
  ghost predicate Owed(t: Trace, h: seq<Call>) {
    && CommandsOf(h, t.session) <= Greedy(t.received).commands
    && t.submitted <= RepliesTo(h, t.session)
  }

  /** All complete commands are dispatched, unless there are more replies than the
      buffer holds; and all replies are submitted, if the input can be served and
      no command is cut short. */
  ghost predicate FullyServed(t: Trace, h: seq<Call>, capacity: nat) {
    && (|RepliesTo(h, t.session)| <= |t.submitted| + capacity ==>
          CommandsOf(h, t.session) == Greedy(t.received).commands)
    && (!Unservable(t, h, capacity) && Greedy(t.received).rest == "" ==> t.submitted == RepliesTo(h, t.session))
  }

  /** All calls since number n are of one session. */
  ghost predicate OwnCalls(h: seq<Call>, n: nat, session: nat) {
    forall i :: n <= i < |h| ==> h[i].session == session
  }

  /** While a command is cut short nothing is submitted. */
  ghost predicate HeldBack(t: Trace, t': Trace) {
    Greedy(t.received).rest != "" ==> t'.submitted == t.submitted
  }

  /** The same session with the same input; replies are added, and of these the
      socket has taken what it would, from the first on. */
  ghost predicate Replied(t: Trace, t': Trace, sends: seq<SendResult>) {
    && t'.session == t.session && t'.received == t.received && t.submitted <= t'.submitted
    && t'.sent <= t'.submitted
    && |t'.sent| == |t.sent| + SendAll(sends, Grown(t.submitted, t'.submitted)).n
  }

  lemma GrownBy(a: string, b: string, out: string)
    requires b == a + out
    ensures a <= b && Grown(a, b) == |out|
  {
  }

  lemma RepliedAll(t: Trace, t': Trace, out: string, sends: seq<SendResult>, w: Sending)
    requires t'.session == t.session && t'.received == t.received && t'.submitted == t.submitted + out
    requires w == SendAll(sends, |out|) && |t'.sent| == |t.sent| + w.n && t'.sent <= t'.submitted
    ensures Replied(t, t', sends)
    ensures ReplyFails(t.submitted, t'.submitted, sends) <==> w.end == Rejected
  {
    GrownBy(t.submitted, t'.submitted, out);
  }

  datatype Branch = ErrorBranch | WriteBranch | ReadBranch | NoBranch

  /** The part of process_conn_event that a set of epoll flags leads to. */
  function BranchOf(c: Conn, error: bool, writable: bool, readable: bool): Branch {
    if !c.Active() then NoBranch
    else if error then ErrorBranch
    else if writable && c.writing then WriteBranch
    else if readable && c.reading then ReadBranch
    else NoBranch
  }

  /** What the loop of recv() calls of a readable event brings. */
  function Arriving(c: Conn, recvs: seq<RecvResult>, capacity: nat): (string, RecvEnd) {
    if c.readPos <= capacity then RecvAll(recvs, capacity - c.readPos) else ("", Filled)
  }

  /** The socket of c failed or came to its end during an event. */
  predicate GaveUp(c: Conn, t': Trace, branch: Branch, recvs: seq<RecvResult>, sends: seq<SendResult>, capacity: nat) {
    match branch
    case NoBranch => false
    case ErrorBranch => true
    case WriteBranch => c.writePos <= c.writeLen && DrainAll(sends, c.writeLen - c.writePos).end == Rejected
    case ReadBranch =>
      || RecvFails(Arriving(c, recvs, capacity).0, Arriving(c, recvs, capacity).1)
      || ReplyFails(c.trace.submitted, t'.submitted, sends)
  }

  /** A readable event found nothing to read. */
  predicate StarvedIn(c: Conn, branch: Branch, recvs: seq<RecvResult>, capacity: nat) {
    branch == ReadBranch && Starved(Arriving(c, recvs, capacity).0, Arriving(c, recvs, capacity).1)
  }

  /** What a writable event does; `closing` says that the session had a QUIT to
      answer. */
  ghost predicate Drained(c: Conn, c': Conn, closing: bool, sends: seq<SendResult>) {
    && c.writePos <= c.writeLen && c'.trace.(sent := "") == c.trace.(sent := "")
    && var w := DrainAll(sends, c.writeLen - c.writePos);
       && SentMore(c, c', w.n)
       && (!c'.Active() <==> w.end == Rejected || (closing && c'.trace.sent == c'.trace.submitted))
  }

  /** What a readable event does, `data` and `end` being what recv brought, and
      the calls since number n those of the event: also if the connection is
      closed, no command is made up, no reply is made up, and if recv did not
      fail, all there was to dispatch is dispatched and all that could be
      submitted is submitted. */
  ghost predicate Answered(c: Conn, c': Conn, h: seq<Call>, n: nat, data: string, end: RecvEnd,
                           sends: seq<SendResult>, capacity: nat) {
    && Replied(c.trace.(received := c.trace.received + data), c'.trace, sends)
    && HeldBack(c.trace.(received := c.trace.received + data), c'.trace)
    && OwnCalls(h, n, c.trace.session) && Owed(c'.trace, h)
    && (data != "" && end != Failed ==> FullyServed(c'.trace, h, capacity))
    && (!c'.Active() <==>
          Over(c'.trace, h, n, RecvFails(data, end) || ReplyFails(c.trace.submitted, c'.trace.submitted, sends),
               Starved(data, end), capacity))
  }

  /** All that an event does to connection c, branch by branch. */
  ghost predicate EventDone(c: Conn, c': Conn, closing: bool, h: seq<Call>, n: nat, branch: Branch,
                            recvs: seq<RecvResult>, sends: seq<SendResult>, capacity: nat) {
    match branch
    case NoBranch => n == |h| && c' == c
    case ErrorBranch => n == |h| && c' == c.Closed()
    case WriteBranch => n == |h| && Drained(c, c', closing, sends)
    case ReadBranch =>
      Answered(c, c', h, n, Arriving(c, recvs, capacity).0, Arriving(c, recvs, capacity).1, sends, capacity)
  }

  /** When it is closed, whatever the branch. */
  ghost predicate ClosedExactly(c: Conn, c': Conn, closing: bool, h: seq<Call>, n: nat, branch: Branch,
                                recvs: seq<RecvResult>, sends: seq<SendResult>, capacity: nat) {
    !c'.Active() <==>
      || !c.Active()
      || Over(c'.trace, h, n, GaveUp(c, c'.trace, branch, recvs, sends, capacity),
              StarvedIn(c, branch, recvs, capacity), capacity)
      || (closing && c'.trace.sent == c'.trace.submitted)
  }

  /** A connection that stays open will be closed after its replies if a batch
      that ended with this event held a QUIT, or if it was to be closed before. */
  ghost predicate QuitNoted(c': Conn, k: nat, states: States, states': States, h: seq<Call>, n: nat, branch: Branch) {
    c'.Active() ==>
      && k in states'
      && (states'[k].closeAfterWrite <==>
            if branch == ReadBranch then QuitInWholeBatch(c'.trace, h, n)
            else k in states && states[k].closeAfterWrite)
  }

  /** Branch by branch gives the same: an open session can be served, and has
      bytes to send while it has a QUIT to answer. */
  lemma ClosesWhen(c: Conn, c': Conn, closing: bool, h: seq<Call>, n: nat, branch: Branch,
                   recvs: seq<RecvResult>, sends: seq<SendResult>, capacity: nat)
    requires EventDone(c, c', closing, h, n, branch, recvs, sends, capacity) && (branch != NoBranch ==> c.Active())
    requires c'.Active() ==>
               !Unservable(c'.trace, h, capacity) && (closing ==> c'.trace.sent != c'.trace.submitted)
    requires branch == ReadBranch ==> !closing
    ensures ClosedExactly(c, c', closing, h, n, branch, recvs, sends, capacity)
  {
  }

  /** The application's view of a session: the commands dispatched for it are
      the greedy parse of all it has sent, the read buffer holds the rest; what
      was submitted and what is deferred are all the replies owed. */
  ghost predicate AppOk(c: Conn, st: ConnState, h: seq<Call>, capacity: nat) {
    && c.readPos <= |c.readBuf|
    && Greedy(c.trace.received) == Stream(CommandsOf(h, c.trace.session), c.readBuf[..c.readPos], false)
    && RepliesTo(h, c.trace.session) == c.trace.submitted + st.pendingOut
    && |st.pendingOut| <= capacity
    && (c.readPos == 0 ==> st.pendingOut == "")
    && (st.closeAfterWrite ==> c.writing)
  }

  ghost predicate AppBut(conns: seq<Conn>, k: int, states: States, h: seq<Call>, sessions: nat, capacity: nat) {
    forall i :: 0 <= i < |conns| && i != k && conns[i].Active() ==>
      i in states && conns[i].trace.session < sessions && AppOk(conns[i], states[i], h, capacity)
  }

  lemma AppAfterWrite(conns: seq<Conn>, conns': seq<Conn>, k: nat, states: States, states': States,
                      h: seq<Call>, sessions: nat, capacity: nat, w: Sending)
    requires WriteDone(conns, conns', k, states, states', w)
    requires AppBut(conns, k, states, h, sessions, capacity)
    requires conns[k].trace.session < sessions && AppOk(conns[k], states[k].(closeAfterWrite := false), h, capacity)
    ensures AppBut(conns', -1, states', h, sessions, capacity)
  {
    forall i | 0 <= i < |conns'| && conns'[i].Active()
      ensures i in states' && conns'[i].trace.session < sessions && AppOk(conns'[i], states'[i], h, capacity)
    {
      if i == k {
        assert conns'[k].readPos == conns[k].readPos by {
          assert |conns'[k].readBuf[..conns'[k].readPos]| == |conns[k].readBuf[..conns[k].readPos]|;
        }
      } else {
        assert i in states - {k} && (states' - {k})[i] == (states - {k})[i];
      }
    }
  }

  lemma AppWritten(conns: seq<Conn>, conns': seq<Conn>, k: nat, states: States, states': States,
                   h: seq<Call>, sessions: nat, capacity: nat, w: Sending)
    requires WriteDone(conns, conns', k, states, states', w)
    requires AppBut(conns, -1, states, h, sessions, capacity) && conns[k].Active()
    ensures AppBut(conns', -1, states', h, sessions, capacity)
  {
    AppOpens(conns, k, conns[k], states, h, sessions, capacity);
    assert conns[k := conns[k]] == conns;
    AppAfterWrite(conns, conns', k, states, states', h, sessions, capacity, w);
  }

  lemma AppSettles(conns: seq<Conn>, conns': seq<Conn>, k: nat, states: States, states': States,
                   h: seq<Call>, sessions: nat, capacity: nat)
    requires AppBut(conns, k, states, h, sessions, capacity)
    requires k < |conns| == |conns'| && conns' == conns[k := conns'[k]] && states' - {k} == states - {k}
    requires conns'[k].Active() ==>
               k in states' && conns'[k].trace.session < sessions && AppOk(conns'[k], states'[k], h, capacity)
    ensures AppBut(conns', -1, states', h, sessions, capacity)
  {
    forall i | 0 <= i < |conns'| && conns'[i].Active()
      ensures i in states' && conns'[i].trace.session < sessions && AppOk(conns'[i], states'[i], h, capacity)
    {
      if i != k { assert i in states - {k} && (states' - {k})[i] == (states - {k})[i]; }
    }
  }

  /** Connection k is taken out of the care of the invariant. */
  lemma AppOpens(conns: seq<Conn>, k: nat, c: Conn, states: States, h: seq<Call>, sessions: nat, capacity: nat)
    requires AppBut(conns, -1, states, h, sessions, capacity) && k < |conns| && conns[k].Active()
    ensures k in states && conns[k].trace.session < sessions && AppOk(conns[k], states[k], h, capacity)
    ensures AppBut(conns[k := c], k, states, h, sessions, capacity)
  {
    var conns' := conns[k := c];
    forall i | 0 <= i < |conns'| && i != k && conns'[i].Active()
      ensures i in states && conns'[i].trace.session < sessions && AppOk(conns'[i], states[i], h, capacity)
    {
      assert conns'[i] == conns[i];
    }
  }

  /** A command of one session changes what no other session is owed. */
  lemma AppAfterCall(conns: seq<Conn>, k: nat, states: States, h: seq<Call>, call: Call,
                     sessions: nat, capacity: nat, interest: map<int, Interest>)
    requires AppBut(conns, k, states, h, sessions, capacity)
    requires k < |conns| && conns[k].Active() && FdsOk(conns, interest) && call.session == conns[k].trace.session
    ensures AppBut(conns, k, states, h + [call], sessions, capacity)
  {
    forall i | 0 <= i < |conns| && i != k && conns[i].Active()
      ensures AppOk(conns[i], states[i], h + [call], capacity)
    {
      Extend(h, call, conns[i].trace.session);
    }
  }

  /** A session that has just been accepted owes and is owed nothing. */
  lemma AppAccepts(conns: seq<Conn>, conns': seq<Conn>, k: nat, states: States, h: seq<Call>, sessions: nat,
                   capacity: nat)
    requires AppBut(conns, -1, states, h, sessions, capacity) && OthersKept(conns, conns', k)
    requires forall i :: 0 <= i < |h| ==> h[i].session < sessions
    requires conns'[k].trace == Trace(sessions, "", "", "") && conns'[k].readPos == 0
    ensures AppBut(conns', -1, states[k := ConnState("", false)], h, sessions + 1, capacity)
  {
    FreshSession(h, sessions);
    assert Greedy("") == Stream([], "", false);
    assert conns'[k].readBuf[..0] == "";
    forall i | 0 <= i < |conns'| && i != k && conns'[i].Active()
      ensures i in states && AppOk(conns'[i], states[i], h, capacity)
    {
      assert conns'[i] == conns[i];
    }
  }

  /** data copied into the write buffer. */
  function Submitted(c: Conn, data: string): Conn
    requires |data| <= |c.writeBuf|
  {
    c.(writeBuf := data + c.writeBuf[|data|..], writePos := 0, writeLen := |data|, writing := true,
       trace := c.trace.(submitted := c.trace.submitted + data))
  }

  lemma SubmittedOk(c: Conn, data: string, capacity: nat)
    requires c.Ok(capacity) && !c.writing && c.readPos == 0 && |data| <= capacity
    ensures Submitted(c, data).Ok(capacity)
  {
    assert c.Unsent() == "";
    assert Submitted(c, data).Unsent() == data;
  }

  /** The unread bytes moved to the front of the read buffer. */
  function Compacted(c: Conn, pos: nat): (c': Conn)
    requires pos <= c.readPos <= |c.readBuf|
    ensures |c'.readBuf| == |c.readBuf| && c'.readPos <= |c'.readBuf|
    ensures c'.readBuf[..c'.readPos] == c.readBuf[pos..c.readPos]
  {
    var remaining := c.readPos - pos;
    c.(readBuf := c.readBuf[pos..c.readPos] + c.readBuf[remaining..], readPos := remaining)
  }

  /** While the read buffer of a session is worked through: from `pos` on it
      holds what no command has used, and all replies to the session are
      submitted, deferred, or in the batch. */
  ghost predicate InBatch(c: Conn, st: ConnState, h: seq<Call>, pos: nat, batch: string, capacity: nat) {
    && pos <= c.readPos <= |c.readBuf|
    && Greedy(c.trace.received)
       == Resume(Stream(CommandsOf(h, c.trace.session), "", false), c.readBuf[pos..c.readPos])
    && RepliesTo(h, c.trace.session) == c.trace.submitted + (st.pendingOut + batch)
    && |st.pendingOut| + |batch| <= capacity
  }

  /** The batch cannot go on: the session will be closed, but what could be
      dispatched was. */
  ghost predicate BatchFails(t: Trace, h: seq<Call>, capacity: nat) {
    Unservable(t, h, capacity) && Owed(t, h) && FullyServed(t, h, capacity)
  }

  /** A protocol error, or a command without words. */
  lemma BatchBreaks(c: Conn, st: ConnState, h: seq<Call>, pos: nat, batch: string, capacity: nat)
    requires InBatch(c, st, h, pos, batch, capacity)
    requires var r := ParseCommand(c.readBuf[pos..c.readPos]); r.Error? || (r.Ok? && r.args == [])
    ensures BatchFails(c.trace, h, capacity)
  {
    ResumeBreaks(CommandsOf(h, c.trace.session), c.readBuf[pos..c.readPos]);
  }

  /** New bytes behind the leftover: a batch begins. */
  lemma BatchBegins(c: Conn, c': Conn, st: ConnState, h: seq<Call>, data: string, capacity: nat)
    requires AppOk(c, st, h, capacity)
    requires c'.trace == c.trace.(received := c.trace.received + data)
    requires c'.readPos == c.readPos + |data| <= |c'.readBuf|
    requires c'.readBuf[..c'.readPos] == c.readBuf[..c.readPos] + data
    ensures InBatch(c', st, h, 0, "", capacity)
  {
    var rest, commands := c.readBuf[..c.readPos], CommandsOf(h, c.trace.session);
    GreedyResumes(c.trace.received, data);
    ResumeJoins(commands, rest, data);
    assert c'.readBuf[0..c'.readPos] == rest + data;
    assert st.pendingOut + "" == st.pendingOut;
  }

  lemma DataArrives(c: Conn, c': Conn, st: ConnState, h: seq<Call>, data: string, capacity: nat)
    requires AppOk(c, st, h, capacity)
    requires c.readPos + |data| <= |c.readBuf| && c' == c.Received(data)
    ensures InBatch(c', st, h, 0, "", capacity)
    ensures c'.trace == c.trace.(received := c.trace.received + data) && Owed(c'.trace, h)
  {
    BatchBegins(c, c', st, h, data, capacity);
  }

  /** One command taken off the front, its reply added to the batch. */
  lemma BatchTakes(c: Conn, st: ConnState, h: seq<Call>, pos: nat, batch: string, capacity: nat,
                   call: Call, consumed: nat, h': seq<Call>, pos': nat, batch': string)
    requires InBatch(c, st, h, pos, batch, capacity) && call.session == c.trace.session && call.args != []
    requires ParseCommand(c.readBuf[pos..c.readPos]) == Ok(call.args, consumed)
    requires h' == h + [call] && pos' == pos + consumed && batch' == batch + call.reply
    ensures pos < pos' <= c.readPos
    ensures |st.pendingOut| + |batch'| <= capacity ==> InBatch(c, st, h', pos', batch', capacity)
    ensures |RepliesTo(h', c.trace.session)| == |c.trace.submitted| + |st.pendingOut| + |batch'|
    ensures Owed(c.trace, h')
  {
    var bytes, commands := c.readBuf[pos..c.readPos], CommandsOf(h, c.trace.session);
    CommandConsumed(bytes);
    StreamTakes(c.trace.received, commands, bytes, call.args, consumed);
    assert bytes[consumed..] == c.readBuf[pos'..c.readPos];
    Extend(h, call, c.trace.session);
    RepliesJoin(c.trace.submitted, st.pendingOut, batch, call.reply);
  }

  lemma {:induction false} StreamTakes(received: string, commands: seq<seq<string>>, bytes: string,
                                       args: seq<string>, consumed: nat)
    requires Greedy(received) == Resume(Stream(commands, "", false), bytes)
    requires ParseCommand(bytes) == Ok(args, consumed) && args != [] && consumed <= |bytes|
    ensures Greedy(received) == Resume(Stream(commands + [args], "", false), bytes[consumed..])
  {
    CommandConsumed(bytes);
    ResumeTakes(commands, bytes);
  }

  lemma RepliesJoin(submitted: string, pending: string, batch: string, reply: string)
    ensures submitted + (pending + batch) + reply == submitted + (pending + (batch + reply))
  {
  }

  /** The batch ends with the rest undecided: the replies are deferred. */
  lemma BatchDefers(c: Conn, st: ConnState, h: seq<Call>, pos: nat, batch: string, capacity: nat)
    requires InBatch(c, st, h, pos, batch, capacity) && pos < c.readPos && !st.closeAfterWrite
    requires ParseCommand(c.readBuf[pos..c.readPos]).Incomplete?
    ensures AppOk(Compacted(c, pos).(reading := true), st.(pendingOut := st.pendingOut + batch), h, capacity)
  {
    ResumeStops(CommandsOf(h, c.trace.session), c.readBuf[pos..c.readPos]);
  }

  /** The connection once the batch is submitted; with no reply, reading on. */
  function Flushed(c: Conn, out: string): Conn
    requires |out| <= |c.writeBuf|
  {
    if out == "" then c.(readPos := 0, reading := true) else Submitted(c.(readPos := 0), out)
  }

  /** The batch ends with everything parsed: the replies are submitted. */
  lemma BatchFlushes(c: Conn, st: ConnState, h: seq<Call>, batch: string, capacity: nat)
    requires InBatch(c, st, h, c.readPos, batch, capacity) && |c.writeBuf| == capacity
    ensures AppOk(Flushed(c, st.pendingOut + batch), ConnState("", false), h, capacity)
  {
    assert c.readBuf[c.readPos..c.readPos] == "" == c.readBuf[..0];
    ResumeStops(CommandsOf(h, c.trace.session), "");
  }

  /** A connection that is not writing has sent all that was submitted. */
  lemma AllSent(c: Conn, capacity: nat)
    requires c.Ok(capacity) && !c.writing
    ensures c.trace.sent == c.trace.submitted
  {
    assert c.Unsent() == "";
  }

  lemma AppAfterFlush(conns: seq<Conn>, mid: seq<Conn>, conns': seq<Conn>, k: nat,
                      states: States, states1: States, states': States,
                      h: seq<Call>, batch: string, out: string, sessions: nat, capacity: nat, w: Sending)
    requires AppBut(conns, k, states, h, sessions, capacity)
    requires k < |conns| && k in states && conns[k].trace.session < sessions && |conns[k].writeBuf| == capacity
    requires InBatch(conns[k], states[k], h, conns[k].readPos, batch, capacity)
    requires conns[k].trace.sent == conns[k].trace.submitted && w.n <= |out|
    requires out == states[k].pendingOut + batch && mid == conns[k := Flushed(conns[k], out)]
    requires k in states1 && states1 == states[k := states1[k]] && states1[k].pendingOut == ""
    requires WriteDone(mid, conns', k, states1, states', w)
    ensures AppBut(conns', -1, states', h, sessions, capacity)
    ensures AllSubmitted(conns, conns', k, states', out, states1[k].closeAfterWrite, w)
  {
    BatchFlushes(conns[k], states[k], h, batch, capacity);
    AppAfterWrite(mid, conns', k, states1, states', h, sessions, capacity, w);
    AfterFlush(conns, conns', k, states1, states', out, w);
  }

  /** What is left of the connection once the batch is submitted: all of `out` is
      added to its replies, and it is closed or will be if there was a QUIT. */
  ghost predicate AllSubmitted(conns: seq<Conn>, conns': seq<Conn>, k: nat, states': States, out: string, quit: bool,
                               w: Sending) {
    && OnlyOne(conns, conns', k)
    && conns'[k].trace.(sent := "", submitted := "") == conns[k].trace.(sent := "", submitted := "")
    && conns'[k].trace.submitted == conns[k].trace.submitted + out
    && |conns'[k].trace.sent| == |conns[k].trace.sent| + w.n && conns'[k].trace.sent <= conns'[k].trace.submitted
    && (conns'[k].Active() ==>
          && conns'[k].readPos == 0 && w.end != Rejected
          && k in states' && (states'[k].closeAfterWrite <==> quit))
    && (!conns'[k].Active() ==>
          w.end == Rejected || (quit && conns'[k].trace.sent == conns'[k].trace.submitted))
  }

  lemma FlushedSends(c: Conn, c': Conn, out: string, n: nat)
    requires |out| <= |c.writeBuf| && n <= |out| && SentMore(Flushed(c, out), c', n)
    ensures c'.trace.sent == c.trace.sent + out[..n]
  {
  }

  lemma AfterFlush(conns: seq<Conn>, conns': seq<Conn>, k: nat, states: States, states': States, out: string,
                   w: Sending)
    requires k < |conns| && |out| <= |conns[k].writeBuf| && k in states && w.n <= |out|
    requires conns[k].trace.sent == conns[k].trace.submitted
    requires WriteDone(conns[k := Flushed(conns[k], out)], conns', k, states, states', w)
    ensures AllSubmitted(conns, conns', k, states', out, states[k].closeAfterWrite, w)
  {
    var mid := conns[k := Flushed(conns[k], out)];
    FlushedSends(conns[k], conns'[k], out, w.n);
    assert OnlyOne(conns, mid, k);
    OnlyOneWritten(mid, conns', k, states, states', w);
    OnlyOneAgain(conns, mid, conns', k);
    if conns'[k].Active() {
      assert |conns'[k].readBuf[..conns'[k].readPos]| == |mid[k].readBuf[..mid[k].readPos]|;
    }
  }

  /** The store stands for the flat map after the whole history. */
  ghost predicate DataOk(store: Store, history: seq<Call>, now: nat, sessions: nat)
    reads store
  {
    && store.Valid() && store.clock <= now
    && Genuine(history) && store.db == DbAfter(history)
    && forall i :: 0 <= i < |history| ==> history[i].session < sessions
  }

  /** recv() until it has no more, or the room is filled, or it fails. */
  method RecvLoop(results: seq<RecvResult>, room: nat) returns (data: string, end: RecvEnd)
    ensures (data, end) == RecvAll(results, room)
  {
    data := "";
    var i, left := 0, room;
    ghost var all, rest := RecvAll(results, room), RecvAll(results, room);
    assert results[0..] == results && "" + all.0 == all.0;
    while left > 0
      invariant i <= |results| && |data| + left == room && rest == RecvAll(results[i..], left)
      invariant all.0 == data + rest.0 && all.1 == rest.1
      decreases |results| - i
    {
      assert data + "" == data;
      if i == |results| { return data, WouldBlock; }
      assert results[i..][0] == results[i] && results[i..][1..] == results[i + 1..];
      match results[i] {
        case Bytes(d) =>
          if d == "" { return data, EndOfFile; }
          var got := if |d| > left then d[..left] else d;
          rest := RecvAll(results[i + 1..], left - |got|);
          assert data + (got + rest.0) == (data + got) + rest.0;
          data, i, left := data + got, i + 1, left - |got|;
        case Zero => return data, EndOfFile;
        case Again => return data, WouldBlock;
        case Broken => return data, Failed;
      }
    }
    assert data + "" == data;
    end := Filled;
  }

  /** The send loop of register_write and of process_conn_event. */
  method SendLoop(results: seq<SendResult>, len: nat) returns (n: nat, end: SendEnd, rest: seq<SendResult>)
    ensures Sending(n, end, rest) == SendAll(results, len)
  {
    n, rest := 0, results;
    while n < len
      invariant n <= len
      invariant SendAll(results, len) == SendAll(rest, len - n).(n := n + SendAll(rest, len - n).n)
      decreases |rest|
    {
      if rest == [] { return n, Blocked, []; }
      var r := rest[0];
      rest := rest[1..];
      if r == NotYet { return n, Blocked, rest; }
      if r == Rejects || r.n == 0 { return n, Rejected, rest; }
      n := n + if r.n > len - n then len - n else r.n;
    }
    end := AllOut;
  }

  /** The batch is over: what was not parsed is the rest of the stream. */
  lemma RestOfBatch(c: Conn, st: ConnState, h: seq<Call>, pos: nat, batch: string, capacity: nat)
    requires InBatch(c, st, h, pos, batch, capacity) && ParseCommand(c.readBuf[pos..c.readPos]).Incomplete?
    ensures Greedy(c.trace.received) == Stream(CommandsOf(h, c.trace.session), c.readBuf[pos..c.readPos], false)
    ensures Owed(c.trace, h)
  {
    ResumeStops(CommandsOf(h, c.trace.session), c.readBuf[pos..c.readPos]);
  }

  /** Taking no byte leaves what was sent as it was. */
  lemma NothingMore(c: Conn)
    requires c.writePos <= c.writeLen <= |c.writeBuf|
    ensures SentMore(c, c, 0)
  {
    assert c.writeBuf[c.writePos..c.writePos] == "" && c.trace.sent + "" == c.trace.sent;
  }

  /** A session that is still open is one that can be served, and has bytes to
      send while it is writing. */
  lemma StillServable(n: Net, k: nat, states: States, h: seq<Call>, sessions: nat, cfg: Config)
    requires Quiet(n, cfg) && AppBut(n.conns, -1, states, h, sessions, cfg.bufferSize)
    requires k < |n.conns| && n.conns[k].Active()
    ensures k in states && !Unservable(n.conns[k].trace, h, cfg.bufferSize)
    ensures n.conns[k].writing ==> n.conns[k].trace.sent != n.conns[k].trace.submitted
    ensures states[k].closeAfterWrite ==> n.conns[k].writing
  {
    var c := n.conns[k];
    StartHandling(n, k, cfg);
    AppOpens(n.conns, k, c, states, h, sessions, cfg.bufferSize);
    assert |c.readBuf[..c.readPos]| == c.readPos;
    assert c.writing ==> |c.Unsent()| > 0;
  }

  /** A session that has sent nothing has the whole buffer for what comes. */
  lemma NothingRead(n: Net, k: nat, states: States, h: seq<Call>, sessions: nat, cfg: Config)
    requires Quiet(n, cfg) && AppBut(n.conns, -1, states, h, sessions, cfg.bufferSize)
    requires k < |n.conns| && n.conns[k].Active() && n.conns[k].trace.received == ""
    ensures n.conns[k].readPos == 0
  {
    var c := n.conns[k];
    AppOpens(n.conns, k, c, states, h, sessions, cfg.bufferSize);
    assert Greedy("") == Stream([], "", false);
    assert |c.readBuf[..c.readPos]| == c.readPos;
  }

  /** A QUIT with a command cut short behind it is neither the last command nor
      grounds to close. */
  lemma QuitCutShort(t: Trace, h: seq<Call>, n: nat, capacity: nat)
    requires t.received == "QUIT\r\nP" && Genuine(h) && capacity >= MIN_BUFFER
    ensures !QuitInWholeBatch(t, h, n) && !Unservable(t, h, capacity)
    ensures Greedy(t.received).rest != ""
  {
    QuitThenMore();
    if CommandsOf(h, t.session) <= [["QUIT"]] { OneQuitReply(h, t.session); }
  }

  class Worker {
    const cfg: Config
    const store: Store
    var net: Net
    var states: States             // MiniRedisServer::states_
    var now: nat                   // the steady clock
    ghost var history: seq<Call>
    var sessions: nat              // how many connections were ever accepted; names the sessions

    /** Everything that holds between two events. */
    ghost predicate Inv()
      reads this, store
    {
      && cfg.bufferSize >= MIN_BUFFER && Quiet(net, cfg)
      && DataOk(store, history, now, sessions)
      && AppBut(net.conns, -1, states, history, sessions, cfg.bufferSize)
    }

    constructor (maxConnections: nat, bufferSize: nat, initialPool: nat, start: nat)
      requires maxConnections >= 1 && bufferSize >= MIN_BUFFER
      ensures Inv() && history == [] && net.active == 0 && net.accepting
    {
      cfg := Config(maxConnections, bufferSize);
      store := new Store();
      var conns, free := [], [];
      for i := 0 to initialPool
        invariant |free| == |conns| == i
        invariant forall j :: 0 <= j < i ==> free[j] == j && conns[j] == Fresh(-1, bufferSize, 0)
      {
        conns := conns + [Fresh(-1, bufferSize, 0)];
        free := free + [i];
      }
      assert forall j :: 0 <= j < |conns| ==> free[j] in free;
      net := Net(conns, free, 0, false, true, map[], map[]);
      states, now, history, sessions := map[], start, [], 0;
    }

    /** A setter of connection k. */
    method Update(k: nat, c: Conn)
      requires Handling(net, k, cfg) && c.Shape(cfg.bufferSize)
      requires c.fd == net.conns[k].fd && c.trace.session == net.conns[k].trace.session
      modifies this`net
      ensures Handling(net, k, cfg) && net == Put(old(net), k, c)
    {
      PutHandling(net, k, c, cfg);
      net := Put(net, k, c);
    }

    /** submit_read and register_read */
    method RegisterRead(k: nat)
      requires Handling(net, k, cfg) && net.conns[k].Ok(cfg.bufferSize)
      requires !net.conns[k].reading && !net.conns[k].writing && net.conns[k].readPos < cfg.bufferSize
      modifies this`net
      ensures Quiet(net, cfg) && net.conns == old(net.conns)[k := old(net.conns)[k].(reading := true)]
      ensures net.active == old(net).active
    {
      Update(k, net.conns[k].(reading := true));
      ArmQuiet(net, k, In, cfg);
      net := SetInterest(net, net.conns[k].fd, In);
    }

    // ---------- closing ----------

    method CloseConnection(k: nat)
      requires Handling(net, k, cfg) && net.conns[k].trace.sent <= net.conns[k].trace.submitted
      modifies this`net
      ensures Quiet(net, cfg) && net.conns == old(net.conns)[k := old(net.conns)[k].Closed()]
    {
      var c := net.conns[k];
      FdsAfterClose(net.conns, k, cfg.bufferSize, net.fdInterest);
      PoolAfterClose(net.conns, k, net.free, net.active, cfg.maxConnections);
      net := net.(fdInterest := net.fdInterest - {c.fd}, kernelInterest := net.kernelInterest - {c.fd});
      net := net.(conns := net.conns[k := c.Closed()], active := net.active - 1, free := net.free + [k]);
      net := Backpressured(net, cfg.maxConnections);
      SettledAll(net.conns, k, cfg.bufferSize, net.fdInterest);
    }

    /** MiniRedisServer::close_conn */
    method CloseConn(k: nat)
      requires Handling(net, k, cfg) && net.conns[k].trace.sent <= net.conns[k].trace.submitted
      modifies this`net, this`states
      ensures Quiet(net, cfg) && net.conns == old(net.conns)[k := old(net.conns)[k].Closed()]
      ensures states == old(states) - {k}
    {
      states := states - {k};
      CloseConnection(k);
    }

    // ---------- writing ----------

    ghost predicate Writing(k: nat)
      reads this`net, this`states
    {
      && Handling(net, k, cfg) && k in states
      && net.conns[k].Ok(cfg.bufferSize) && net.conns[k].writing && !net.conns[k].reading
    }

    /** A send has failed behind n bytes: EventType::ERROR, and on_error closes. */
    method RejectWrite(k: nat, n: nat, ghost w: Sending)
      requires Writing(k) && n <= net.conns[k].writeLen - net.conns[k].writePos
      requires w.n == n && w.end == Rejected
      modifies this`net, this`states
      ensures Quiet(net, cfg) && WriteDone(old(net).conns, net.conns, k, old(states), states, w)
    {
      AdvanceOk(net.conns[k], n, cfg.bufferSize);
      Update(k, net.conns[k].Advance(n).(writing := false));
      CloseConn(k);
      WriteRejected(old(net).conns, net.conns, k, old(states), states, w);
    }

    /** n bytes were taken: EventType::WRITE. */
    method TakeWrite(k: nat, n: nat, rest: seq<SendResult>, ghost w: Sending)
      requires Writing(k) && 0 < n <= net.conns[k].writeLen - net.conns[k].writePos
      requires w.n >= n && w.(n := w.n - n) == SendAll(rest, net.conns[k].writeLen - net.conns[k].writePos - n)
      modifies this`net, this`states
      ensures Quiet(net, cfg) && WriteDone(old(net).conns, net.conns, k, old(states), states, w)
      decreases net.conns[k].writeLen - net.conns[k].writePos, 0
    {
      AdvanceOk(net.conns[k], n, cfg.bufferSize);
      Update(k, net.conns[k].Advance(n));
      ghost var mid := net.conns;
      HandleWriteEvent(k, n, rest);
      WriteDoneBehind(old(net).conns, mid, net.conns, k, old(states), states, n, w.(n := w.n - n));
    }

    /** The socket has no room behind n bytes: wait for EPOLLOUT. */
    method AwaitWrite(k: nat, n: nat, ghost w: Sending)
      requires Writing(k) && n < net.conns[k].writeLen - net.conns[k].writePos
      requires w.n == n && w.end == Blocked
      modifies this`net
      ensures Quiet(net, cfg) && WriteDone(old(net).conns, net.conns, k, states, states, w)
    {
      AdvanceOk(net.conns[k], n, cfg.bufferSize);
      Update(k, net.conns[k].Advance(n));
      ArmQuiet(net, k, Out, cfg);
      net := SetInterest(net, net.conns[k].fd, Out);
      WriteWaits(old(net).conns, net.conns, k, states, w);
    }

    method RegisterWrite(k: nat, sends: seq<SendResult>)
      requires Writing(k) && net.conns[k].writePos < net.conns[k].writeLen
      modifies this`net, this`states
      ensures Quiet(net, cfg)
      ensures WriteDone(old(net).conns, net.conns, k, old(states), states,
                        SendAll(sends, old(net).conns[k].writeLen - old(net).conns[k].writePos))
      decreases net.conns[k].writeLen - net.conns[k].writePos, 1
    {
      var len := net.conns[k].writeLen - net.conns[k].writePos;
      ghost var w := SendAll(sends, len);
      var n, end, rest := SendLoop(sends, len);
      if end == Rejected {
        RejectWrite(k, n, w);
      } else if end == AllOut {
        TakeWrite(k, n, rest, w);
      } else {
        AwaitWrite(k, n, w);
      }
    }

    /** MiniRedisServer::on_write; true if the connection is still being handled. */
    method OnWrite(k: nat, bytes: int, sends: seq<SendResult>) returns (pending: bool)
      requires Writing(k)
      modifies this`net, this`states
      ensures !pending ==> Quiet(net, cfg)
      ensures !pending ==>
                WriteDone(old(net).conns, net.conns, k, old(states), states,
                          if bytes < 0 then Sending(0, Rejected, sends)
                          else SendAll(sends, old(net).conns[k].writeLen - old(net).conns[k].writePos))
      ensures pending ==> net == old(net) && states == old(states) && bytes >= 0
      ensures pending ==> net.conns[k].writePos == net.conns[k].writeLen && !states[k].closeAfterWrite
      decreases net.conns[k].writeLen - net.conns[k].writePos, 2
    {
      NothingMore(net.conns[k]);
      if bytes < 0 {
        CloseConn(k);
        return false;
      }
      if states[k].closeAfterWrite && net.conns[k].writePos >= net.conns[k].writeLen {
        CloseConn(k);
        return false;
      }
      if net.conns[k].writePos < net.conns[k].writeLen {
        RegisterWrite(k, sends);              // submit_write_continue
        return false;
      }
      pending := true;
    }

    /** handle_event for EventType::WRITE. */
    method HandleWriteEvent(k: nat, result: int, sends: seq<SendResult>)
      requires Writing(k)
      modifies this`net, this`states
      ensures Quiet(net, cfg)
      ensures WriteDone(old(net).conns, net.conns, k, old(states), states,
                        if result <= 0 then Sending(0, Rejected, sends)
                        else SendAll(sends, old(net).conns[k].writeLen - old(net).conns[k].writePos))
      decreases net.conns[k].writeLen - net.conns[k].writePos, 3
    {
      NothingMore(net.conns[k]);
      if result > 0 {
        var pending := OnWrite(k, result, sends);
        if pending {
          var c := net.conns[k];
          assert c.Unsent() == "";
          Update(k, c.(writing := false, writePos := 0, writeLen := 0, readPos := 0));
          RegisterRead(k);
        }
      } else {
        Update(k, net.conns[k].(writing := false));
        if result < 0 {
          CloseConn(k);                       // on_error; close_connection then finds it inactive
        } else {
          CloseConnection(k);
        }
      }
    }

    /** submit_write on a connection that is not writing; too long is cut. */
    method SubmitWrite(k: nat, data: string, sends: seq<SendResult>)
      requires Handling(net, k, cfg) && k in states && net.conns[k].Ok(cfg.bufferSize) && data != ""
      requires cfg.bufferSize >= MIN_BUFFER
      requires !net.conns[k].reading && !net.conns[k].writing && net.conns[k].readPos == 0
      modifies this`net, this`states
      ensures Quiet(net, cfg)
      ensures var d := if |data| > cfg.bufferSize then data[..cfg.bufferSize] else data;
              WriteDone(old(net).conns[k := Submitted(old(net).conns[k], d)], net.conns, k, old(states), states,
                        SendAll(sends, |d|))
    {
      var d := data;
      if |d| > cfg.bufferSize { d := d[..cfg.bufferSize]; }
      SubmittedOk(net.conns[k], d, cfg.bufferSize);
      Update(k, Submitted(net.conns[k], d));
      RegisterWrite(k, sends);
    }

    /** safe_write: a reply that fits is submitted whole. */
    method SafeWrite(k: nat, reply: string, sends: seq<SendResult>)
      requires Handling(net, k, cfg) && k in states && net.conns[k].Ok(cfg.bufferSize) && reply != ""
      requires cfg.bufferSize >= MIN_BUFFER
      requires !net.conns[k].reading && !net.conns[k].writing && net.conns[k].readPos == 0
      modifies this`net, this`states
      ensures Quiet(net, cfg)
      ensures var d := if |reply| > cfg.bufferSize then TOO_LARGE_REPLY else reply;
              && |d| <= cfg.bufferSize
              && WriteDone(old(net).conns[k := Submitted(old(net).conns[k], d)], net.conns, k, old(states), states,
                           SendAll(sends, |d|))
    {
      if |reply| > cfg.bufferSize {
        SubmitWrite(k, TOO_LARGE_REPLY, sends);
        return;
      }
      SubmitWrite(k, reply, sends);
    }

    // ---------- MiniRedisServer ----------

    /** now_ms(), read n + 1 times in a row. */
    method ReadClock(n: nat) returns (ts: seq<nat>)
      modifies this`now
      ensures Readings(ts, n) && old(now) <= ts[0] && ts[|ts| - 1] <= now
    {
      ts := [];
      for i := 0 to n + 1
        invariant |ts| == i && old(now) <= now
        invariant forall a, b :: 0 <= a <= b < i ==> old(now) <= ts[a] <= ts[b] <= now
      {
        var elapsed: int := *;
        now := now + if elapsed > 0 then elapsed else 0;
        ts := ts + [now];
      }
    }

    /** dispatch, for one session. */
    method Dispatch(session: nat, args: seq<string>) returns (reply: string, ghost call: Call)
      requires DataOk(store, history, now, sessions) && args != [] && session < sessions
      modifies store, this`now, this`history
      ensures DataOk(store, history, now, sessions)
      ensures call.session == session && call.args == args && call.reply == reply && reply != ""
      ensures history == old(history) + [call]
    {
      var ts := ReadClock(|args|);
      reply := store.Dispatch(args, ts);
      call := Call(session, args, ts, reply, store.db);
      ExecReplies(old(store.db), ts, args);
      ExtendGenuine(history, call);
      history := history + [call];
    }

    /** An active connection whose event has brought new bytes. */
    ghost predicate Reading(k: nat)
      reads this`net, this`states, this`sessions
    {
      && Handling(net, k, cfg) && net.conns[k].Ok(cfg.bufferSize)
      && !net.conns[k].reading && !net.conns[k].writing
      && k in states && !states[k].closeAfterWrite && net.conns[k].trace.session < sessions
    }

    /** Dispatch one command that was just parsed. */
    method BatchStep(k: nat, pos: nat, batch: string, args: seq<string>, consumed: nat)
      returns (pos': nat, batch': string, ghost call: Call)
      requires Reading(k) && DataOk(store, history, now, sessions) && args != []
      requires AppBut(net.conns, k, states, history, sessions, cfg.bufferSize)
      requires InBatch(net.conns[k], states[k], history, pos, batch, cfg.bufferSize)
      requires ParseCommand(net.conns[k].readBuf[pos..net.conns[k].readPos]) == Ok(args, consumed)
      modifies store, this`now, this`history
      ensures DataOk(store, history, now, sessions)
      ensures history == old(history) + [call] && call.args == args
      ensures AppBut(net.conns, k, states, history, sessions, cfg.bufferSize)
      ensures pos < pos' <= net.conns[k].readPos && batch' != ""
      ensures |states[k].pendingOut| + |batch'| <= cfg.bufferSize ==>
                InBatch(net.conns[k], states[k], history, pos', batch', cfg.bufferSize)
      ensures call.session == net.conns[k].trace.session
      ensures |states[k].pendingOut| + |batch'| > cfg.bufferSize ==>
                BatchFails(net.conns[k].trace, history, cfg.bufferSize)
    {
      ghost var h := history;
      var reply;
      reply, call := Dispatch(net.conns[k].trace.session, args);
      pos', batch' := pos + consumed, batch + reply;
      AppAfterCall(net.conns, k, states, h, call, sessions, cfg.bufferSize, net.fdInterest);
      BatchTakes(net.conns[k], states[k], h, pos, batch, cfg.bufferSize, call, consumed, history, pos', batch');
    }

    /** One turn of the loop of on_read. */
    method BatchTurn(k: nat, pos: nat, batch: string, ghost since: nat) returns (turn: Turn, pos': nat, batch': string)
      requires since <= |history|
      requires Reading(k) && DataOk(store, history, now, sessions)
      requires AppBut(net.conns, k, states, history, sessions, cfg.bufferSize)
      requires InBatch(net.conns[k], states[k], history, pos, batch, cfg.bufferSize)
      modifies store, this`now, this`history
      ensures DataOk(store, history, now, sessions) && old(history) <= history
      ensures AppBut(net.conns, k, states, history, sessions, cfg.bufferSize)
      ensures turn.Took? ==> pos < pos' <= net.conns[k].readPos && batch' != ""
      ensures turn.Stop? ==> batch' == batch
      ensures turn.Took? ==> (QuitSince(history, since) <==> QuitSince(old(history), since) || turn.quit)
      ensures turn.Stop? ==> history == old(history)
      ensures OwnCalls(old(history), since, net.conns[k].trace.session) ==>
                OwnCalls(history, since, net.conns[k].trace.session)
      ensures turn.Fatal? ==> BatchFails(net.conns[k].trace, history, cfg.bufferSize)
      ensures !turn.Fatal? ==> InBatch(net.conns[k], states[k], history, pos', batch', cfg.bufferSize)
      ensures turn.Stop? ==> ParseCommand(net.conns[k].readBuf[pos'..net.conns[k].readPos]).Incomplete?
    {
      var pr := ParseRespCommand(net.conns[k].readBuf[pos..net.conns[k].readPos]);
      if pr.Incomplete? { return Stop, pos, batch; }
      if pr.Error? || pr.args == [] {
        BatchBreaks(net.conns[k], states[k], history, pos, batch, cfg.bufferSize);
        return Fatal, pos, batch;
      }
      ghost var call;
      pos', batch', call := BatchStep(k, pos, batch, pr.args, pr.consumed);
      QuitNext(old(history), call, since);
      turn := if |states[k].pendingOut| + |batch'| > cfg.bufferSize then Fatal else Took(Upper(pr.args[0]) == "QUIT");
    }

    /** The loop of on_read: dispatch every complete command in the buffer.  If
        the connection must be closed, `fatal` is set. */
    method RunBatch(k: nat) returns (fatal: bool, pos: nat, batchOut: string, sawQuit: bool)
      requires Reading(k) && DataOk(store, history, now, sessions)
      requires AppBut(net.conns, k, states, history, sessions, cfg.bufferSize)
      requires InBatch(net.conns[k], states[k], history, 0, "", cfg.bufferSize)
      modifies store, this`now, this`history
      ensures DataOk(store, history, now, sessions) && old(history) <= history
      ensures AppBut(net.conns, k, states, history, sessions, cfg.bufferSize)
      ensures OwnCalls(history, |old(history)|, net.conns[k].trace.session)
      ensures fatal ==> BatchFails(net.conns[k].trace, history, cfg.bufferSize)
      ensures !fatal ==> InBatch(net.conns[k], states[k], history, pos, batchOut, cfg.bufferSize)
      ensures !fatal ==> ParseCommand(net.conns[k].readBuf[pos..net.conns[k].readPos]).Incomplete?
      ensures !fatal ==> (sawQuit <==> QuitSince(history, |old(history)|)) && (sawQuit ==> batchOut != "")
    {
      fatal, pos, batchOut, sawQuit := false, 0, "", false;
      while true
        invariant !fatal && DataOk(store, history, now, sessions) && old(history) <= history
        invariant AppBut(net.conns, k, states, history, sessions, cfg.bufferSize)
        invariant InBatch(net.conns[k], states[k], history, pos, batchOut, cfg.bufferSize)
        invariant (sawQuit <==> QuitSince(history, |old(history)|)) && (sawQuit ==> batchOut != "")
        invariant OwnCalls(history, |old(history)|, net.conns[k].trace.session)
        decreases net.conns[k].readPos - pos
      {
        var turn;
        turn, pos, batchOut := BatchTurn(k, pos, batchOut, |old(history)|);
        if turn.Stop? { return; }
        if turn.Fatal? { return true, 0, "", false; }
        sawQuit := sawQuit || turn.quit;
      }
    }

    /** Shift the unread bytes to the front and read on, unless they fill the buffer. */
    method Compact(k: nat, pos: nat)
      requires Reading(k) && pos < net.conns[k].readPos
      modifies this`net, this`states
      ensures Quiet(net, cfg) && |net.conns| == |old(net).conns| && states - {k} == old(states) - {k}
      ensures OnlyOne(old(net).conns, net.conns, k) && net.conns[k].trace == old(net).conns[k].trace
      ensures net.conns[k].Active() ==>
                states == old(states) && net.conns[k] == Compacted(old(net).conns[k], pos).(reading := true)
      ensures !net.conns[k].Active() ==> old(net).conns[k].readPos - pos >= cfg.bufferSize
    {
      var c := net.conns[k];
      Update(k, Compacted(c, pos));
      assert net.conns[k].Unsent() == c.Unsent();
      if net.conns[k].readPos >= cfg.bufferSize {
        CloseConn(k);
      } else {
        RegisterRead(k);
      }
    }

    /** on_read with a command still incomplete: the replies are kept for later. */
    method Defer(k: nat, pos: nat, batchOut: string)
      requires Reading(k) && pos < net.conns[k].readPos
      requires AppBut(net.conns, k, states, history, sessions, cfg.bufferSize)
      requires InBatch(net.conns[k], states[k], history, pos, batchOut, cfg.bufferSize)
      requires ParseCommand(net.conns[k].readBuf[pos..net.conns[k].readPos]).Incomplete?
      modifies this`net, this`states
      ensures Quiet(net, cfg) && AppBut(net.conns, -1, states, history, sessions, cfg.bufferSize)
      ensures OnlyOne(old(net).conns, net.conns, k) && net.conns[k].trace == old(net).conns[k].trace
      ensures net.conns[k].Active() ==> net.conns[k].readPos > 0 && !states[k].closeAfterWrite
      ensures !net.conns[k].Active() ==> old(net).conns[k].readPos - pos >= cfg.bufferSize
    {
      BatchDefers(net.conns[k], states[k], history, pos, batchOut, cfg.bufferSize);
      states := states[k := states[k].(pendingOut := states[k].pendingOut + batchOut)];
      Compact(k, pos);
      AppSettles(old(net).conns, net.conns, k, old(states), states, history, sessions, cfg.bufferSize);
    }

    /** Start writing the replies, or read on if there are none. */
    method StartWrite(k: nat, out: string, sends: seq<SendResult>)
      requires Handling(net, k, cfg) && net.conns[k].Ok(cfg.bufferSize)
      requires !net.conns[k].reading && !net.conns[k].writing
      requires k in states && (out == "" ==> !states[k].closeAfterWrite)
      requires cfg.bufferSize >= MIN_BUFFER && |out| <= cfg.bufferSize
      modifies this`net, this`states
      ensures Quiet(net, cfg)
      ensures WriteDone(old(net).conns[k := Flushed(old(net).conns[k], out)], net.conns, k, old(states), states,
                        SendAll(sends, |out|))
    {
      NothingMore(net.conns[k]);
      Update(k, net.conns[k].(readPos := 0));
      if out == "" {
        RegisterRead(k);
        return;
      }
      SafeWrite(k, out, sends);
      assert Put(old(net), k, old(net).conns[k].(readPos := 0)).conns[k := Flushed(old(net).conns[k], out)]
          == old(net).conns[k := Flushed(old(net).conns[k], out)];
    }

    /** on_read with everything parsed: submit all replies at once. */
    method Flush(k: nat, batchOut: string, sawQuit: bool, sends: seq<SendResult>)
      requires sawQuit ==> batchOut != ""
      requires Reading(k) && cfg.bufferSize >= MIN_BUFFER
      requires AppBut(net.conns, k, states, history, sessions, cfg.bufferSize)
      requires InBatch(net.conns[k], states[k], history, net.conns[k].readPos, batchOut, cfg.bufferSize)
      modifies this`net, this`states
      ensures Quiet(net, cfg) && AppBut(net.conns, -1, states, history, sessions, cfg.bufferSize)
      ensures var out := old(states)[k].pendingOut + batchOut;
              AllSubmitted(old(net).conns, net.conns, k, states, out, sawQuit, SendAll(sends, |out|))
    {
      var out := states[k].pendingOut + batchOut;
      states := states[k := ConnState("", out != "" && sawQuit)];
      ghost var c, states1 := net.conns[k], states;
      AllSent(c, cfg.bufferSize);
      StartWrite(k, out, sends);
      AppAfterFlush(old(net).conns, old(net).conns[k := Flushed(c, out)], net.conns, k, old(states), states1, states,
                    history, batchOut, out, sessions, cfg.bufferSize, SendAll(sends, |out|));
    }

    /** on_read behind its loop, `since` being the number of calls before it. */
    method Conclude(k: nat, fatal: bool, pos: nat, batchOut: string, sawQuit: bool, sends: seq<SendResult>,
                    ghost since: nat)
      requires Reading(k) && cfg.bufferSize >= MIN_BUFFER
      requires AppBut(net.conns, k, states, history, sessions, cfg.bufferSize)
      requires fatal ==> BatchFails(net.conns[k].trace, history, cfg.bufferSize)
      requires !fatal ==> InBatch(net.conns[k], states[k], history, pos, batchOut, cfg.bufferSize)
      requires !fatal ==> ParseCommand(net.conns[k].readBuf[pos..net.conns[k].readPos]).Incomplete?
      requires !fatal ==> (sawQuit <==> QuitSince(history, since)) && (sawQuit ==> batchOut != "")
      modifies this`net, this`states
      ensures Quiet(net, cfg) && AppBut(net.conns, -1, states, history, sessions, cfg.bufferSize)
      ensures OnlyOne(old(net).conns, net.conns, k) && Replied(old(net).conns[k].trace, net.conns[k].trace, sends)
      ensures HeldBack(old(net).conns[k].trace, net.conns[k].trace)
      ensures Owed(net.conns[k].trace, history) && FullyServed(net.conns[k].trace, history, cfg.bufferSize)
      ensures var failed := ReplyFails(old(net).conns[k].trace.submitted, net.conns[k].trace.submitted, sends);
              && (!net.conns[k].Active() ==> Over(net.conns[k].trace, history, since, failed, false, cfg.bufferSize))
              && (net.conns[k].Active() ==>
                    !failed && (states[k].closeAfterWrite <==> QuitInWholeBatch(net.conns[k].trace, history, since)))
    {
      if fatal {
        AllSent(net.conns[k], cfg.bufferSize);
        CloseConn(k);
        AppSettles(old(net).conns, net.conns, k, old(states), states, history, sessions, cfg.bufferSize);
        return;
      }
      AllSent(net.conns[k], cfg.bufferSize);
      RestOfBatch(net.conns[k], states[k], history, pos, batchOut, cfg.bufferSize);
      if pos < net.conns[k].readPos {
        Defer(k, pos, batchOut);
      } else {
        Flush(k, batchOut, sawQuit, sends);
        ghost var out := old(states)[k].pendingOut + batchOut;
        RepliedAll(old(net).conns[k].trace, net.conns[k].trace, out, sends, SendAll(sends, |out|));
      }
    }

    /** MiniRedisServer::on_read, after read_pos was advanced. */
    method Serve(k: nat, sends: seq<SendResult>)
      requires Reading(k) && cfg.bufferSize >= MIN_BUFFER && DataOk(store, history, now, sessions)
      requires AppBut(net.conns, k, states, history, sessions, cfg.bufferSize)
      requires InBatch(net.conns[k], states[k], history, 0, "", cfg.bufferSize)
      modifies this`net, this`states, this`now, this`history, store
      ensures Inv() && old(history) <= history
      ensures OnlyOne(old(net).conns, net.conns, k) && Replied(old(net).conns[k].trace, net.conns[k].trace, sends)
      ensures HeldBack(old(net).conns[k].trace, net.conns[k].trace)
      ensures OwnCalls(history, |old(history)|, net.conns[k].trace.session)
      ensures Owed(net.conns[k].trace, history) && FullyServed(net.conns[k].trace, history, cfg.bufferSize)
      ensures var failed := ReplyFails(old(net).conns[k].trace.submitted, net.conns[k].trace.submitted, sends);
              && (!net.conns[k].Active() ==>
                    Over(net.conns[k].trace, history, |old(history)|, failed, false, cfg.bufferSize))
              && (net.conns[k].Active() ==>
                    && !failed
                    && (states[k].closeAfterWrite <==>
                          QuitInWholeBatch(net.conns[k].trace, history, |old(history)|)))
    {
      var fatal, pos, batchOut, sawQuit := RunBatch(k);
      Conclude(k, fatal, pos, batchOut, sawQuit, sends, |old(history)|);
    }

    /** The same, with the reverse: the session is closed exactly if it is over,
        and one with a QUIT in this batch will close after its reply exactly if
        the batch left no command cut short. */
    method OnRead(k: nat, sends: seq<SendResult>)
      requires Reading(k) && cfg.bufferSize >= MIN_BUFFER && DataOk(store, history, now, sessions)
      requires AppBut(net.conns, k, states, history, sessions, cfg.bufferSize)
      requires InBatch(net.conns[k], states[k], history, 0, "", cfg.bufferSize)
      modifies this`net, this`states, this`now, this`history, store
      ensures Inv() && old(history) <= history
      ensures OnlyOne(old(net).conns, net.conns, k) && Replied(old(net).conns[k].trace, net.conns[k].trace, sends)
      ensures HeldBack(old(net).conns[k].trace, net.conns[k].trace)
      ensures OwnCalls(history, |old(history)|, net.conns[k].trace.session)
      ensures Owed(net.conns[k].trace, history) && FullyServed(net.conns[k].trace, history, cfg.bufferSize)
      ensures !net.conns[k].Active() <==>
                Over(net.conns[k].trace, history, |old(history)|,
                     ReplyFails(old(net).conns[k].trace.submitted, net.conns[k].trace.submitted, sends),
                     false, cfg.bufferSize)
      ensures net.conns[k].Active() ==>
                (states[k].closeAfterWrite <==> QuitInWholeBatch(net.conns[k].trace, history, |old(history)|))
    {
      Serve(k, sends);
      if net.conns[k].Active() { StillServable(net, k, states, history, sessions, cfg); }
    }

    // ---------- events ----------

    /** The recv loop of process_conn_event; there is always room for it. */
    method Recv(k: nat, results: seq<RecvResult>) returns (data: string, end: RecvEnd)
      requires Quiet(net, cfg) && k < |net.conns| && net.conns[k].Active() && net.conns[k].reading
      modifies this`net
      ensures Handling(net, k, cfg) && net.conns[k].Ok(cfg.bufferSize)
      ensures old(net).conns[k].readPos < cfg.bufferSize
      ensures (data, end) == RecvAll(results, cfg.bufferSize - old(net).conns[k].readPos)
      ensures old(net).conns[k].readPos + |data| <= |old(net).conns[k].readBuf| && !old(net).conns[k].writing
      ensures net.conns == old(net).conns[k := old(net).conns[k].Received(data)]
    {
      StartHandling(net, k, cfg);
      var c := net.conns[k];
      data, end := RecvLoop(results, cfg.bufferSize - c.readPos);
      assert c.Received(data).Unsent() == c.Unsent();
      Update(k, c.Received(data));
    }

    /** The same, with what it leaves to whoever handles the bytes. */
    method Receive(k: nat, results: seq<RecvResult>) returns (data: string, end: RecvEnd)
      requires Inv() && k < |net.conns| && net.conns[k].Active() && net.conns[k].reading
      modifies this`net
      ensures Reading(k) && AppBut(net.conns, k, states, history, sessions, cfg.bufferSize)
      ensures AppOk(old(net).conns[k], states[k], history, cfg.bufferSize)
      ensures old(net).conns[k].readPos < cfg.bufferSize
      ensures (data, end) == RecvAll(results, cfg.bufferSize - old(net).conns[k].readPos)
      ensures old(net).conns[k].readPos + |data| <= |old(net).conns[k].readBuf|
      ensures OnlyOne(old(net).conns, net.conns, k) && net.conns[k] == old(net).conns[k].Received(data)
    {
      data, end := Recv(k, results);
      AppOpens(old(net).conns, k, net.conns[k], states, history, sessions, cfg.bufferSize);
    }

    /** Closing after a failed or empty read. */
    method CloseAfterRead(k: nat, failed: bool)
      requires Handling(net, k, cfg) && net.conns[k].Ok(cfg.bufferSize)
      requires AppBut(net.conns, k, states, history, sessions, cfg.bufferSize)
      modifies this`net, this`states
      ensures Quiet(net, cfg) && AppBut(net.conns, -1, states, history, sessions, cfg.bufferSize)
      ensures net.conns == old(net).conns[k := old(net).conns[k].Closed()]
      ensures states == if failed then old(states) - {k} else old(states)
    {
      if failed { CloseConn(k); } else { CloseConnection(k); }
      AppSettles(old(net).conns, net.conns, k, old(states), states, history, sessions, cfg.bufferSize);
    }

    /** handle_event for EventType::READ with new data, behind what `c` held. */
    method HandleRead(k: nat, ghost c: Conn, ghost data: string, sends: seq<SendResult>)
      requires Reading(k) && cfg.bufferSize >= MIN_BUFFER && DataOk(store, history, now, sessions)
      requires AppBut(net.conns, k, states, history, sessions, cfg.bufferSize)
      requires AppOk(c, states[k], history, cfg.bufferSize)
      requires c.readPos + |data| <= |c.readBuf| && net.conns[k] == c.Received(data)
      modifies this`net, this`states, this`now, this`history, store
      ensures Inv() && old(history) <= history && OnlyOne(old(net).conns, net.conns, k)
      ensures !net.conns[k].Active() <==>
                Over(net.conns[k].trace, history, |old(history)|,
                     ReplyFails(c.trace.submitted, net.conns[k].trace.submitted, sends), false, cfg.bufferSize)
      ensures net.conns[k].Active() ==>
                (states[k].closeAfterWrite <==> QuitInWholeBatch(net.conns[k].trace, history, |old(history)|))
      ensures var t := c.trace.(received := c.trace.received + data);
              Replied(t, net.conns[k].trace, sends) && HeldBack(t, net.conns[k].trace)
      ensures OwnCalls(history, |old(history)|, c.trace.session)
      ensures Owed(net.conns[k].trace, history) && FullyServed(net.conns[k].trace, history, cfg.bufferSize)
    {
      DataArrives(c, net.conns[k], states[k], history, data, cfg.bufferSize);
      OnRead(k, sends);
    }

    /** handle_event when recv has failed, or there was nothing to read: the end
        of the input and a recv that would block look the same to it. */
    method HandleHangUp(k: nat, end: RecvEnd)
      requires Reading(k) && cfg.bufferSize >= MIN_BUFFER && DataOk(store, history, now, sessions)
      requires AppBut(net.conns, k, states, history, sessions, cfg.bufferSize)
      modifies this`net, this`states
      ensures Inv() && OnlyOne(old(net).conns, net.conns, k)
      ensures net.conns[k] == old(net).conns[k].Closed()
      ensures states == if end == Failed then old(states) - {k} else old(states)
    {
      CloseAfterRead(k, end == Failed);
    }

    /** handle_event for what recv brought, `c` being the connection before. */
    method HandleArrival(k: nat, ghost c: Conn, data: string, end: RecvEnd, sends: seq<SendResult>)
      requires data == "" ==> end != Filled
      requires Reading(k) && cfg.bufferSize >= MIN_BUFFER && DataOk(store, history, now, sessions)
      requires AppBut(net.conns, k, states, history, sessions, cfg.bufferSize)
      requires AppOk(c, states[k], history, cfg.bufferSize)
      requires c.readPos + |data| <= |c.readBuf| && net.conns[k] == c.Received(data)
      modifies this`net, this`states, this`now, this`history, store
      ensures Inv() && old(history) <= history && OnlyOne(old(net).conns, net.conns, k)
      ensures Answered(c, net.conns[k], history, |old(history)|, data, end, sends, cfg.bufferSize)
      ensures net.conns[k].Active() ==>
                (states[k].closeAfterWrite <==> QuitInWholeBatch(net.conns[k].trace, history, |old(history)|))
    {
      if end == Failed || data == "" {
        AllSent(net.conns[k], cfg.bufferSize);
        DataArrives(c, net.conns[k], states[k], history, data, cfg.bufferSize);
        HandleHangUp(k, end);
      } else {
        HandleRead(k, c, data, sends);
      }
    }

    /** The EPOLLIN part of process_conn_event, and the event it raises. */
    method ProcessRead(k: nat, recvs: seq<RecvResult>, sends: seq<SendResult>) returns (data: string, end: RecvEnd)
      requires Inv() && k < |net.conns| && net.conns[k].Active() && net.conns[k].reading
      modifies this`net, this`states, this`now, this`history, store
      ensures Inv() && old(history) <= history && OnlyOne(old(net).conns, net.conns, k)
      ensures old(net).conns[k].readPos < cfg.bufferSize
      ensures (data, end) == RecvAll(recvs, cfg.bufferSize - old(net).conns[k].readPos)
      ensures Answered(old(net).conns[k], net.conns[k], history, |old(history)|, data, end, sends, cfg.bufferSize)
      ensures net.conns[k].Active() ==>
                (states[k].closeAfterWrite <==> QuitInWholeBatch(net.conns[k].trace, history, |old(history)|))
    {
      ghost var c := net.conns[k];
      data, end := Receive(k, recvs);
      ghost var conns := net.conns;
      HandleArrival(k, c, data, end, sends);
      OnlyOneAgain(old(net).conns, conns, net.conns, k);
    }

    /** A healthy connection is closed when a readable event finds nothing to
        read: neither failure nor end of input, yet the session is over. */
    method SpuriousWakeupCloses(k: nat, recvs: seq<RecvResult>, sends: seq<SendResult>)
      requires Inv() && k < |net.conns| && net.conns[k].Active() && net.conns[k].reading
      requires recvs == [] || recvs[0] == Again
      modifies this`net, this`states, this`now, this`history, store
      ensures Inv() && OnlyOne(old(net).conns, net.conns, k) && !net.conns[k].Active()
      ensures net.conns[k].trace.received == old(net).conns[k].trace.received
    {
      var data, end := ProcessRead(k, recvs, sends);
      SpuriousWakeup(recvs, cfg.bufferSize - old(net).conns[k].readPos);
      assert old(net).conns[k].trace.received + "" == old(net).conns[k].trace.received;
    }

    /** A client says QUIT and the first byte of another command: the session
        stays open, will not be closed for its QUIT, and is sent nothing. */
    method QuitCutShortStays(k: nat, sends: seq<SendResult>)
      requires Inv() && k < |net.conns| && net.conns[k].Active() && net.conns[k].reading
      requires net.conns[k].trace.received == ""
      modifies this`net, this`states, this`now, this`history, store
      ensures Inv() && OnlyOne(old(net).conns, net.conns, k)
      ensures net.conns[k].Active() && k in states && !states[k].closeAfterWrite
      ensures net.conns[k].trace.received == "QUIT\r\nP"
      ensures net.conns[k].trace.submitted == old(net).conns[k].trace.submitted
    {
      NothingRead(net, k, states, history, sessions, cfg);
      var data, end := ProcessRead(k, [Bytes("QUIT\r\nP")], sends);
      assert RecvAll([], cfg.bufferSize - 7) == ("", WouldBlock);
      assert data == "QUIT\r\nP" && end == WouldBlock;
      QuitCutShort(net.conns[k].trace, history, |old(history)|, cfg.bufferSize);
      if net.conns[k].Active() { StillServable(net, k, states, history, sessions, cfg); }
    }

    /** The drain loop for EPOLLOUT and the events it raises. */
    method DrainWrites(k: nat, sends: seq<SendResult>)
      requires Quiet(net, cfg) && k < |net.conns| && net.conns[k].Active() && net.conns[k].writing
      requires k in states
      modifies this`net, this`states
      ensures Quiet(net, cfg)
      ensures WriteDone(old(net).conns, net.conns, k, old(states), states,
                        DrainAll(sends, old(net).conns[k].writeLen - old(net).conns[k].writePos))
    {
      StartHandling(net, k, cfg);
      var len := net.conns[k].writeLen - net.conns[k].writePos;
      ghost var w := DrainAll(sends, len);
      var n, end, rest := SendLoop(sends, len);
      DrainStep(sends, len, n, end, rest);
      if end == Rejected {
        RejectWrite(k, n, w);
      } else if n > 0 {
        TakeWrite(k, n, rest, w);
      } else {
        NothingWritten(net.conns, k, states, w);
      }
    }

    /** The EPOLLOUT part of process_conn_event. */
    method ProcessWrite(k: nat, sends: seq<SendResult>)
      requires Inv() && k < |net.conns| && net.conns[k].Active() && net.conns[k].writing
      modifies this`net, this`states
      ensures Inv() && OnlyOne(old(net).conns, net.conns, k)
      ensures Drained(old(net).conns[k], net.conns[k], k in old(states) && old(states)[k].closeAfterWrite, sends)
      ensures net.conns[k].Active() ==> states == old(states)
    {
      ghost var w := DrainAll(sends, net.conns[k].writeLen - net.conns[k].writePos);
      WriteOut(k, sends);
      OnlyOneWritten(old(net).conns, net.conns, k, old(states), states, w);
      if net.conns[k].Active() { StillServable(net, k, states, history, sessions, cfg); }
    }

    method WriteOut(k: nat, sends: seq<SendResult>)
      requires Inv() && k < |net.conns| && net.conns[k].Active() && net.conns[k].writing
      modifies this`net, this`states
      ensures Inv() && old(net).conns[k].writePos <= old(net).conns[k].writeLen <= |old(net).conns[k].writeBuf|
      ensures WriteDone(old(net).conns, net.conns, k, old(states), states,
                        DrainAll(sends, old(net).conns[k].writeLen - old(net).conns[k].writePos))
    {
      ghost var w := DrainAll(sends, net.conns[k].writeLen - net.conns[k].writePos);
      DrainWrites(k, sends);
      AppWritten(old(net).conns, net.conns, k, old(states), states, history, sessions, cfg.bufferSize, w);
    }

    /** EPOLLERR or EPOLLHUP: EventType::ERROR, and on_error closes. */
    method ProcessError(k: nat)
      requires Inv() && k < |net.conns| && net.conns[k].Active()
      modifies this`net, this`states
      ensures Inv() && net.conns == old(net).conns[k := old(net).conns[k].Closed()]
    {
      StartHandling(net, k, cfg);
      AppOpens(net.conns, k, net.conns[k], states, history, sessions, cfg.bufferSize);
      assert net.conns[k := net.conns[k]] == net.conns;
      CloseAfterRead(k, true);
    }

    method WriteEvent(k: nat, ghost recvs: seq<RecvResult>, sends: seq<SendResult>)
      requires Inv() && k < |net.conns| && net.conns[k].Active() && net.conns[k].writing
      modifies this`net, this`states
      ensures Inv() && OnlyOne(old(net).conns, net.conns, k)
      ensures EventDone(old(net).conns[k], net.conns[k], k in old(states) && old(states)[k].closeAfterWrite,
                        history, |history|, WriteBranch, recvs, sends, cfg.bufferSize)
      ensures net.conns[k].Active() ==> states == old(states)
    {
      ProcessWrite(k, sends);
    }

    method ReadEvent(k: nat, recvs: seq<RecvResult>, sends: seq<SendResult>)
      requires Inv() && k < |net.conns| && net.conns[k].Active() && net.conns[k].reading
      modifies this`net, this`states, this`now, this`history, store
      ensures Inv() && old(history) <= history && OnlyOne(old(net).conns, net.conns, k)
      ensures EventDone(old(net).conns[k], net.conns[k], false, history, |old(history)|,
                        ReadBranch, recvs, sends, cfg.bufferSize)
      ensures net.conns[k].Active() ==>
                && k in states
                && (states[k].closeAfterWrite <==> QuitInWholeBatch(net.conns[k].trace, history, |old(history)|))
    {
      var data, end := ProcessRead(k, recvs, sends);
    }

    /** process_conn_event, for any set of epoll flags and whatever recv and send
        return: what it does in each branch, and if the connection stays open,
        exactly when it will be closed once its replies are out. */
    method HandleFlags(k: nat, error: bool, writable: bool, readable: bool,
                       recvs: seq<RecvResult>, sends: seq<SendResult>)
      requires Inv() && k < |net.conns|
      modifies this`net, this`states, this`now, this`history, store
      ensures Inv() && old(history) <= history && OnlyOne(old(net).conns, net.conns, k)
      ensures var c := old(net).conns[k];
              EventDone(c, net.conns[k], k in old(states) && old(states)[k].closeAfterWrite, history, |old(history)|,
                        BranchOf(c, error, writable, readable), recvs, sends, cfg.bufferSize)
      ensures QuitNoted(net.conns[k], k, old(states), states, history, |old(history)|,
                        BranchOf(old(net).conns[k], error, writable, readable))
    {
      var c := net.conns[k];
      assert net.conns[k := c] == net.conns;
      if !c.Active() { return; }
      StillServable(net, k, states, history, sessions, cfg);
      if error {
        ProcessError(k);
      } else if writable && c.writing {
        WriteEvent(k, recvs, sends);
      } else if readable && c.reading {
        ReadEvent(k, recvs, sends);
      }
    }

    /** The same, and exactly when the connection is closed. */
    method ProcessConnEvent(k: nat, error: bool, writable: bool, readable: bool,
                            recvs: seq<RecvResult>, sends: seq<SendResult>)
      requires Inv() && k < |net.conns|
      modifies this`net, this`states, this`now, this`history, store
      ensures Inv() && old(history) <= history && OnlyOne(old(net).conns, net.conns, k)
      ensures var c := old(net).conns[k];
              EventDone(c, net.conns[k], k in old(states) && old(states)[k].closeAfterWrite, history, |old(history)|,
                        BranchOf(c, error, writable, readable), recvs, sends, cfg.bufferSize)
      ensures var c := old(net).conns[k];
              ClosedExactly(c, net.conns[k], k in old(states) && old(states)[k].closeAfterWrite, history,
                            |old(history)|, BranchOf(c, error, writable, readable), recvs, sends, cfg.bufferSize)
      ensures QuitNoted(net.conns[k], k, old(states), states, history, |old(history)|,
                        BranchOf(old(net).conns[k], error, writable, readable))
    {
      ghost var c, closing := net.conns[k], k in states && states[k].closeAfterWrite;
      ghost var branch := BranchOf(c, error, writable, readable);
      if c.Active() { StillServable(net, k, states, history, sessions, cfg); }
      HandleFlags(k, error, writable, readable, recvs, sends);
      if net.conns[k].Active() { StillServable(net, k, states, history, sessions, cfg); }
      ClosesWhen(c, net.conns[k], closing, history, |old(history)|, branch, recvs, sends, cfg.bufferSize);
    }

    /** allocate_connection: reuse the last free connection, or make a new one. */
    method Allocate(fd: int) returns (k: nat)
      requires Quiet(net, cfg) && net.active < cfg.maxConnections && fd >= 0 && !FdOpen(net.conns, fd)
      requires forall i :: 0 <= i < |net.conns| && net.conns[i].Active() ==> net.conns[i].trace.session < sessions
      modifies this`net
      ensures JustOpened(old(net), net, k, fd, sessions, cfg)
    {
      if net.free != [] {
        OpensReused(net, fd, sessions, cfg);
        k := net.free[|net.free| - 1];
        net := net.(conns := net.conns[k := net.conns[k].Reopened(fd, sessions)],
                    free := net.free[..|net.free| - 1], active := net.active + 1);
      } else {
        OpensNew(net, fd, sessions, cfg);
        k := |net.conns|;
        net := net.(conns := net.conns + [Fresh(fd, cfg.bufferSize, sessions)], active := net.active + 1);
      }
      net := Backpressured(net, cfg.maxConnections);
    }

    /** allocate_connection and on_accept. */
    method Admit(fd: int) returns (k: nat)
      requires Quiet(net, cfg) && net.active < cfg.maxConnections && fd >= 0 && !FdOpen(net.conns, fd)
      requires forall i :: 0 <= i < |net.conns| && net.conns[i].Active() ==> net.conns[i].trace.session < sessions
      modifies this`net, this`states
      ensures Quiet(net, cfg) && net.active == old(net).active + 1
      ensures OpenedAt(old(net).conns, net.conns, k, fd, sessions)
      ensures states == old(states)[k := ConnState("", false)]
    {
      k := Allocate(fd);
      states := states[k := ConnState("", false)];
      StillKept(old(net).conns, net.conns, k, net.conns[k].(reading := true));
      RegisterRead(k);
    }

    /** handle_event for EventType::ACCEPT; `k` is the connection opened, if any. */
    method AcceptEvent(fd: int) returns (ghost k: nat)
      requires Inv() && fd >= 0 && !FdOpen(net.conns, fd)
      modifies this`net, this`states, this`sessions
      ensures Inv()
      ensures old(net).active >= cfg.maxConnections ==>
                net.conns == old(net).conns && net.active == old(net).active && sessions == old(sessions)
      ensures old(net).active < cfg.maxConnections ==>
                && OpenedAt(old(net).conns, net.conns, k, fd, old(sessions))
                && net.active == old(net).active + 1 && sessions == old(sessions) + 1
    {
      k := 0;
      if net.active >= cfg.maxConnections {
        net := Backpressured(net, cfg.maxConnections);
        return;
      }
      k := Admit(fd);
      AppAccepts(old(net).conns, net.conns, k, old(states), history, sessions, cfg.bufferSize);
      sessions := sessions + 1;
    }

    ghost function Now(): Moment
      reads this`net, this`states, this`sessions, this`history
    {
      Moment(net.conns, net.active, states, sessions, history)
    }

    /** The kernel never hands out a descriptor that is still open. */
    method HandleAccept(fd: int)
      requires Inv()
      modifies this`net, this`states, this`sessions
      ensures Inv() && AcceptStep(old(Now()), Now(), fd, cfg.maxConnections)
    {
      if fd >= 0 && !FdOpen(net.conns, fd) {
        ghost var conns, next := net.conns, sessions;
        ghost var k := AcceptEvent(fd);
        assert old(net).active < cfg.maxConnections ==> OpenedAt(conns, net.conns, k, fd, next);
      }
    }

    /** An event for a connection that was never made is ignored. */
    method HandleReady(k: nat, error: bool, writable: bool, readable: bool,
                       recvs: seq<RecvResult>, sends: seq<SendResult>)
      requires Inv()
      modifies this`net, this`states, this`now, this`history, store
      ensures Inv()
      ensures ReadyStep(old(Now()), Now(), k, error, writable, readable, recvs, sends, cfg.bufferSize)
    {
      if k < |net.conns| { ProcessConnEvent(k, error, writable, readable, recvs, sends); }
    }

    method Handle(e: Event)
      requires Inv()
      modifies this`net, this`states, this`sessions, this`now, this`history, store
      ensures Inv() && EventStep(old(Now()), Now(), e, cfg)
    {
      match e {
        case Accepted(fd) => HandleAccept(fd);
        case Ready(k, error, writable, readable, recvs, sends) =>
          HandleReady(k, error, writable, readable, recvs, sends);
      }
    }

    /** Any number of events in any order, stale ones included: one after the other
        does what it should, from the first moment to the last. */
    method Run(events: seq<Event>) returns (ghost moments: seq<Moment>)
      requires Inv()
      modifies this`net, this`states, this`sessions, this`now, this`history, store
      ensures Inv() && Runs(moments, events, cfg)
      ensures moments[0] == old(Now()) && moments[|events|] == Now() && old(history) <= history
    {
      moments := [Now()];
      for i := 0 to |events|
        invariant Inv() && Runs(moments, events[..i], cfg)
        invariant moments[0] == old(Now()) && moments[i] == Now()
      {
        Handle(events[i]);
        RunsOn(moments, events, i, Now(), cfg);
        moments := moments + [Now()];
      }
      assert events[..|events|] == events;
      HistoryGrows(moments, events, cfg, 0, |events|);
    }
  }

  /** What is there to see of a worker between two events. */
  datatype Moment = Moment(conns: seq<Conn>, active: int, states: States, sessions: nat, history: seq<Call>)

  /** A new connection: below the maximum exactly one is opened, as a new session. */
  ghost predicate AcceptStep(m: Moment, m': Moment, fd: int, maxConnections: nat) {
    && m'.history == m.history
    && if fd < 0 || FdOpen(m.conns, fd) || m.active >= maxConnections
       then m'.conns == m.conns && m'.active == m.active && m'.sessions == m.sessions
       else && m'.active == m.active + 1 && m'.sessions == m.sessions + 1
            && exists k :: OpenedAt(m.conns, m'.conns, k, fd, m.sessions)
  }

  /** An event of connection k: nothing happens to the others. */
  ghost predicate ReadyStep(m: Moment, m': Moment, k: nat, error: bool, writable: bool, readable: bool,
                            recvs: seq<RecvResult>, sends: seq<SendResult>, capacity: nat) {
    && m.history <= m'.history && m'.sessions == m.sessions
    && if k >= |m.conns| then m' == m
       else
         && OnlyOne(m.conns, m'.conns, k)
         && (var branch := BranchOf(m.conns[k], error, writable, readable);
             var closing := k in m.states && m.states[k].closeAfterWrite;
             && EventDone(m.conns[k], m'.conns[k], closing, m'.history, |m.history|, branch, recvs, sends, capacity)
             && ClosedExactly(m.conns[k], m'.conns[k], closing, m'.history, |m.history|, branch,
                              recvs, sends, capacity)
             && QuitNoted(m'.conns[k], k, m.states, m'.states, m'.history, |m.history|, branch))
  }

  ghost predicate EventStep(m: Moment, m': Moment, e: Event, cfg: Config) {
    match e
    case Accepted(fd) => AcceptStep(m, m', fd, cfg.maxConnections)
    case Ready(k, error, writable, readable, recvs, sends) =>
      ReadyStep(m, m', k, error, writable, readable, recvs, sends, cfg.bufferSize)
  }

  /** Every event leads from one moment to the next. */
  ghost predicate Runs(moments: seq<Moment>, events: seq<Event>, cfg: Config) {
    && |moments| == |events| + 1
    && forall i :: 0 <= i < |events| ==> EventStep(moments[i], moments[i + 1], events[i], cfg)
  }

  lemma RunsOn(moments: seq<Moment>, events: seq<Event>, i: nat, m: Moment, cfg: Config)
    requires i < |events| && Runs(moments, events[..i], cfg) && EventStep(moments[i], m, events[i], cfg)
    ensures Runs(moments + [m], events[..i + 1], cfg)
  {
    var moments', events' := moments + [m], events[..i + 1];
    forall j | 0 <= j < |events'| ensures EventStep(moments'[j], moments'[j + 1], events'[j], cfg) {
      if j < i { assert EventStep(moments[j], moments[j + 1], events[..i][j], cfg); }
    }
  }

  /** In a run no call that was dispatched is undone. */
  lemma {:induction false} HistoryGrows(moments: seq<Moment>, events: seq<Event>, cfg: Config, i: nat, j: nat)
    requires Runs(moments, events, cfg) && i <= j <= |events|
    ensures moments[i].history <= moments[j].history
  {
    if i < j {
      HistoryGrows(moments, events, cfg, i, j - 1);
      assert EventStep(moments[j - 1], moments[j], events[j - 1], cfg);
    }
  }

  /** A session that a readable event has closed on none of the other grounds had a
      QUIT in its batch, and every reply to it has been sent. */
  lemma QuitIsAnswered(c: Conn, c': Conn, h: seq<Call>, n: nat, data: string, end: RecvEnd,
                       sends: seq<SendResult>, capacity: nat)
    requires Answered(c, c', h, n, data, end, sends, capacity) && !c'.Active() && (data == "" ==> end != Filled)
    requires !RecvFails(data, end) && !Starved(data, end) && !Unservable(c'.trace, h, capacity)
    requires !ReplyFails(c.trace.submitted, c'.trace.submitted, sends)
    ensures QuitSince(h, n) && c'.trace.sent == RepliesTo(h, c'.trace.session)
    ensures CommandsOf(h, c'.trace.session) == Greedy(c'.trace.received).commands
  {
  }

  /** And one that will be closed after its write has every reply to it submitted. */
  lemma ClosingOwesNothing(w: Worker, k: nat)
    requires w.Inv() && k < |w.net.conns| && w.net.conns[k].Active()
    requires k in w.states && w.states[k].closeAfterWrite
    ensures w.net.conns[k].trace.submitted == RepliesTo(w.history, w.net.conns[k].trace.session)
  {
    var c := w.net.conns[k];
    StartHandling(w.net, k, w.cfg);
    AppOpens(w.net.conns, k, c, w.states, w.history, w.sessions, w.cfg.bufferSize);
    assert c.trace.submitted + "" == c.trace.submitted;
  }

  /** What holds of every active connection between any two events. */
  lemma ConnectionGuarantees(w: Worker, k: nat)
    requires w.Inv() && k < |w.net.conns| && w.net.conns[k].Active()
    ensures var c := w.net.conns[k];
            && c.fd in w.net.kernelInterest
            && (if c.writing then !c.reading && w.net.kernelInterest[c.fd] == Out && c.writePos < c.writeLen
                else c.reading && w.net.kernelInterest[c.fd] == In && c.readPos < w.cfg.bufferSize)
    ensures var c := w.net.conns[k];
            var parsed := Greedy(c.trace.received);
            && !parsed.broken && CommandsOf(w.history, c.trace.session) == parsed.commands
            && c.trace.sent <= RepliesTo(w.history, c.trace.session)
            && (c.reading && parsed.rest == "" ==> c.trace.sent == RepliesTo(w.history, c.trace.session))
  {
    var c := w.net.conns[k];
    StartHandling(w.net, k, w.cfg);
    AppOpens(w.net.conns, k, c, w.states, w.history, w.sessions, w.cfg.bufferSize);
    assert !c.writing ==> c.Unsent() == "";
    assert |c.readBuf[..c.readPos]| == c.readPos;
    assert c.trace.submitted + "" == c.trace.submitted;
  }

  /** However a client's bytes were cut into reads, and whatever else the worker
      did meanwhile, the same bytes have led to the same commands. */
  lemma SplittingIsInvisible(w1: Worker, k1: nat, w2: Worker, k2: nat)
    requires w1.Inv() && k1 < |w1.net.conns| && w1.net.conns[k1].Active()
    requires w2.Inv() && k2 < |w2.net.conns| && w2.net.conns[k2].Active()
    requires w1.net.conns[k1].trace.received == w2.net.conns[k2].trace.received
    ensures CommandsOf(w1.history, w1.net.conns[k1].trace.session)
         == CommandsOf(w2.history, w2.net.conns[k2].trace.session)
  {
    ConnectionGuarantees(w1, k1);
    ConnectionGuarantees(w2, k2);
  }

  /** And to the same bytes sent, once all input is parsed, where the two workers
      have otherwise dispatched the same commands at the same clock readings. */
  lemma SplittingKeepsReplies(w1: Worker, k1: nat, w2: Worker, k2: nat)
    requires w1.Inv() && k1 < |w1.net.conns| && w1.net.conns[k1].Active() && w1.net.conns[k1].reading
    requires w2.Inv() && k2 < |w2.net.conns| && w2.net.conns[k2].Active() && w2.net.conns[k2].reading
    requires w1.net.conns[k1].trace.received == w2.net.conns[k2].trace.received
    requires Greedy(w1.net.conns[k1].trace.received).rest == ""
    requires SameButFor(w1.history, w2.history, w1.net.conns[k1].trace.session, w2.net.conns[k2].trace.session)
    ensures w1.net.conns[k1].trace.sent == w2.net.conns[k2].trace.sent
  {
    var s1, s2 := w1.net.conns[k1].trace.session, w2.net.conns[k2].trace.session;
    SplittingIsInvisible(w1, k1, w2, k2);
    ConnectionGuarantees(w1, k1);
    ConnectionGuarantees(w2, k2);
    SameWords(w1.history, w2.history, s1, s2);
    SameCallsSameReplies(w1.history, w2.history, s1, s2);
  }
}
