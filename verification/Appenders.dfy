/** Any number of concurrent Append calls of fs_store.go and the flusher, one
    atomic operation at a time: the compare-and-swap byte budget, the offset
    counter, the bounded channel. */
module Appenders {
  import opened LogCodec

  /** Where an Append call stands; an offset, once taken, is kept for ever. */
  datatype Phase =
    | Start                       // before the atomic load of bufferedBytes
    | Loaded(cur: int)            // the load fitted the budget; before the swap
    | Reserved                    // swap done; before the offset is taken
    | Numbered(offset: nat)       // before the non-blocking send
    | Queued(offset: nat)         // in the channel
    | Flushing(offset: nat)       // taken by the flusher
    | Full(offset: nat)           // channel full; before giving the bytes back
    | Persisted(offset: nat)      // written, bytes given back
    | Rejected                    // over budget
    | RejectedFull(offset: nat)   // channel was full, bytes given back

  datatype Call = Call(data: seq<Byte>, phase: Phase)

  /** appendReq, with the call it came from. */
  datatype Req = Req(call: nat, offset: nat, data: seq<Byte>)

  datatype State = State(
    maxBuffered: nat,             // MaxBufferedBytes
    channelCap: nat,              // 1024 in the source
    buffered: int,                // bufferedBytes
    nextOffset: nat,
    calls: seq<Call>,
    queue: seq<Req>,              // the channel
    flusher: seq<Req>,            // the request being flushed, if any
    persisted: seq<Record>)       // the records written, recovered ones first

  datatype Event =
    | Arrive(data: seq<Byte>)
    | Load(i: nat)
    | Swap(i: nat)
    | TakeOffset(i: nat)
    | Enqueue(i: nat)
    | GiveBack(i: nat)
    | Dequeue
    | Release

  /** What appendToDisk makes of a request: data beyond 32 bits of length is refused. */
  function Written(r: Req): seq<Record> {
    if |r.data| <= MAX_U32 then [Record(r.offset, r.data)] else []
  }

  function With(s: State, i: nat, p: Phase): State {
    if i < |s.calls| then s.(calls := s.calls[i := s.calls[i].(phase := p)]) else s
  }

  /** The non-blocking send of call i. */
  function Sent(s: State, i: nat): State {
    if i >= |s.calls| || !s.calls[i].phase.Numbered? then s
    else
      var offset := s.calls[i].phase.offset;
      if |s.queue| >= s.channelCap then With(s, i, Full(offset))
      else With(s, i, Queued(offset)).(queue := s.queue + [Req(i, offset, s.calls[i].data)])
  }

  /** The flusher takes a request from the channel. */
  function Fetched(s: State): State {
    if s.flusher != [] || s.queue == [] then s
    else With(s, s.queue[0].call, Flushing(s.queue[0].offset)).(queue := s.queue[1..], flusher := [s.queue[0]])
  }

  /** The flusher has written it and gives its bytes back. */
  function Freed(s: State): State {
    if s.flusher == [] then s
    else
      var r := s.flusher[0];
      With(s, r.call, Persisted(r.offset))
        .(buffered := s.buffered - |r.data|, flusher := [], persisted := s.persisted + Written(r))
  }

  /** An event that is not enabled leaves the state alone. */
  function Apply(s: State, e: Event): State {
    match e
    case Arrive(data) => if data == [] then s else s.(calls := s.calls + [Call(data, Start)])
    case Load(i) =>
      if i >= |s.calls| || !s.calls[i].phase.Start? then s
      else if s.buffered + |s.calls[i].data| > s.maxBuffered then With(s, i, Rejected)
      else With(s, i, Loaded(s.buffered))
    case Swap(i) =>
      if i >= |s.calls| || !s.calls[i].phase.Loaded? then s
      else if s.buffered != s.calls[i].phase.cur then With(s, i, Start)
      else With(s, i, Reserved).(buffered := s.calls[i].phase.cur + |s.calls[i].data|)
    case TakeOffset(i) =>
      if i >= |s.calls| || !s.calls[i].phase.Reserved? then s
      else With(s, i, Numbered(s.nextOffset)).(nextOffset := s.nextOffset + 1)
    case Enqueue(i) => Sent(s, i)
    case GiveBack(i) =>
      if i >= |s.calls| || !s.calls[i].phase.Full? then s
      else With(s, i, RejectedFull(s.calls[i].phase.offset)).(buffered := s.buffered - |s.calls[i].data|)
    case Dequeue => Fetched(s)
    case Release => Freed(s)
  }

  // ---------- the invariant ----------

  /** The call's bytes are reserved and not yet given back. */
  predicate Holding(c: Call) {
    c.phase.Reserved? || c.phase.Numbered? || c.phase.Queued? || c.phase.Flushing? || c.phase.Full?
  }

  function Weight(c: Call): nat { if Holding(c) then |c.data| else 0 }

  function Held(calls: seq<Call>): nat {
    if calls == [] then 0
    else Held(calls[..|calls| - 1]) + Weight(calls[|calls| - 1])
  }

  predicate HasOffset(c: Call) {
    || c.phase.Numbered? || c.phase.Queued? || c.phase.Flushing?
    || c.phase.Full? || c.phase.Persisted? || c.phase.RejectedFull?
  }

  function OffsetOf(c: Call): nat
    requires HasOffset(c)
  {
    c.phase.offset
  }

  ghost predicate OffsetsOk(calls: seq<Call>, nextOffset: nat) {
    && (forall i :: 0 <= i < |calls| && HasOffset(calls[i]) ==> OffsetOf(calls[i]) < nextOffset)
    && (forall i, j :: 0 <= i < j < |calls| && HasOffset(calls[i]) && HasOffset(calls[j]) ==>
          OffsetOf(calls[i]) != OffsetOf(calls[j]))
  }

  /** A load that fitted the budget still fits when its swap succeeds. */
  ghost predicate LoadsOk(calls: seq<Call>, maxBuffered: nat) {
    forall i :: 0 <= i < |calls| && calls[i].phase.Loaded? ==> calls[i].phase.cur + |calls[i].data| <= maxBuffered
  }

  /** Every request stands for one call that waits for it, and for no other's. */
  ghost predicate RequestsOk(s: State) {
    && (forall a :: 0 <= a < |s.queue| ==>
          s.queue[a].call < |s.calls| && s.calls[s.queue[a].call] == Call(s.queue[a].data, Queued(s.queue[a].offset)))
    && (forall a, b :: 0 <= a < b < |s.queue| ==> s.queue[a].call != s.queue[b].call)
    && |s.flusher| <= 1
    && (s.flusher != [] ==>
          var r := s.flusher[0]; r.call < |s.calls| && s.calls[r.call] == Call(r.data, Flushing(r.offset)))
  }

  ghost predicate Inv(s: State) {
    && s.buffered == Held(s.calls) && s.buffered <= s.maxBuffered
    && LoadsOk(s.calls, s.maxBuffered)
    && OffsetsOk(s.calls, s.nextOffset)
    && RequestsOk(s)
  }

  lemma {:induction false} HeldUpdate(calls: seq<Call>, i: nat, c: Call)
    requires i < |calls|
    ensures Held(calls[i := c]) + Weight(calls[i]) == Held(calls) + Weight(c)
  {
    var n := |calls| - 1;
    var calls' := calls[i := c];
    if i == n {
      assert calls'[..n] == calls[..n];
    } else {
      assert calls'[..n] == calls[..n][i := c];
      HeldUpdate(calls[..n], i, c);
    }
  }

  /** A call keeps its offset, or takes one that nobody had. */
  lemma OffsetsUpdate(calls: seq<Call>, i: nat, c: Call, next: nat, next': nat)
    requires i < |calls| && OffsetsOk(calls, next) && next <= next'
    requires HasOffset(c) ==>
               || (HasOffset(calls[i]) && OffsetOf(c) == OffsetOf(calls[i]))
               || next <= OffsetOf(c) < next'
    ensures OffsetsOk(calls[i := c], next')
  {
  }

  predicate InChannel(c: Call) { c.phase.Queued? || c.phase.Flushing? }

  /** What a step of one call that is not in the channel has to respect. */
  lemma UpdateKeeps(s: State, i: nat, c: Call, buffered: int, nextOffset: nat)
    requires Inv(s) && i < |s.calls| && !InChannel(s.calls[i])
    requires buffered - s.buffered == Weight(c) - Weight(s.calls[i]) && buffered <= s.maxBuffered
    requires c.phase.Loaded? ==> c.phase.cur + |c.data| <= s.maxBuffered
    requires s.nextOffset <= nextOffset
    requires HasOffset(c) ==>
               || (HasOffset(s.calls[i]) && OffsetOf(c) == OffsetOf(s.calls[i]))
               || s.nextOffset <= OffsetOf(c) < nextOffset
    ensures Inv(s.(calls := s.calls[i := c], buffered := buffered, nextOffset := nextOffset))
  {
    HeldUpdate(s.calls, i, c);
    OffsetsUpdate(s.calls, i, c, s.nextOffset, nextOffset);
  }

  lemma CallStepKeeps(s: State, e: Event)
    requires Inv(s) && (e.Load? || e.Swap? || e.TakeOffset? || e.GiveBack?)
    ensures Inv(Apply(s, e))
  {
    var s' := Apply(s, e);
    if s' != s { UpdateKeeps(s, e.i, s'.calls[e.i], s'.buffered, s'.nextOffset); }
  }

  lemma EnqueueKeeps(s: State, i: nat)
    requires Inv(s)
    ensures Inv(Sent(s, i))
  {
    var s' := Sent(s, i);
    if s' != s { UpdateKeeps(s, i, s'.calls[i], s.buffered, s.nextOffset); }
  }

  lemma DequeueKeeps(s: State)
    requires Inv(s)
    ensures Inv(Fetched(s))
  {
    if s.flusher == [] && s.queue != [] {
      var i := s.queue[0].call;
      var c := s.calls[i].(phase := Flushing(s.queue[0].offset));
      HeldUpdate(s.calls, i, c);
      OffsetsUpdate(s.calls, i, c, s.nextOffset, s.nextOffset);
    }
  }

  lemma ReleaseKeeps(s: State)
    requires Inv(s)
    ensures Inv(Freed(s))
  {
    if s.flusher != [] {
      var i := s.flusher[0].call;
      var c := s.calls[i].(phase := Persisted(s.flusher[0].offset));
      HeldUpdate(s.calls, i, c);
      OffsetsUpdate(s.calls, i, c, s.nextOffset, s.nextOffset);
    }
  }

  lemma ArriveKeeps(s: State, data: seq<Byte>)
    requires Inv(s)
    ensures Inv(Apply(s, Arrive(data)))
  {
    if data != [] {
      var calls := s.calls + [Call(data, Start)];
      assert calls[..|s.calls|] == s.calls;
      assert Held(calls) == Held(s.calls);
      assert forall i :: 0 <= i < |calls| && i != |s.calls| ==> calls[i] == s.calls[i];
      assert LoadsOk(calls, s.maxBuffered) && OffsetsOk(calls, s.nextOffset);
    }
  }

  lemma StepKeeps(s: State, e: Event)
    requires Inv(s)
    ensures Inv(Apply(s, e))
  {
    match e {
      case Arrive(data) => ArriveKeeps(s, data);
      case Enqueue(i) => EnqueueKeeps(s, i);
      case Dequeue => DequeueKeeps(s);
      case Release => ReleaseKeeps(s);
      case _ => CallStepKeeps(s, e);
    }
  }

  ghost predicate Initial(s: State) {
    s.buffered == 0 && s.calls == [] && s.queue == [] && s.flusher == []
  }

  /** The state reached from s by a sequence of events. */
  ghost function Run(s: State, events: seq<Event>): State {
    if events == [] then s else Apply(Run(s, events[..|events| - 1]), events[|events| - 1])
  }

  lemma {:induction false} RunKeeps(s: State, events: seq<Event>)
    requires Initial(s)
    ensures Inv(Run(s, events)) && Run(s, events).maxBuffered == s.maxBuffered
  {
    if events != [] {
      RunKeeps(s, events[..|events| - 1]);
      StepKeeps(Run(s, events[..|events| - 1]), events[|events| - 1]);
    }
  }

  /** In every interleaving the counter is the number of bytes reserved and not
      given back, and it never leaves the budget. */
  lemma BudgetIsExact(s: State, events: seq<Event>)
    requires Initial(s)
    ensures var s' := Run(s, events);
            s'.buffered == Held(s'.calls) && 0 <= s'.buffered <= s.maxBuffered
  {
    RunKeeps(s, events);
  }

  /** In every interleaving no two calls have the same offset, rejected ones included. */
  lemma OffsetsAreUnique(s: State, events: seq<Event>, i: nat, j: nat)
    requires Initial(s) && i < |Run(s, events).calls| && j < |Run(s, events).calls| && i != j
    requires HasOffset(Run(s, events).calls[i]) && HasOffset(Run(s, events).calls[j])
    ensures OffsetOf(Run(s, events).calls[i]) != OffsetOf(Run(s, events).calls[j])
  {
    RunKeeps(s, events);
    assert OffsetsOk(Run(s, events).calls, Run(s, events).nextOffset);
  }

  // ---------- the order of writing ----------

  function RecordsOf(reqs: seq<Req>): seq<Record> {
    if reqs == [] then [] else RecordsOf(reqs[..|reqs| - 1]) + Written(reqs[|reqs| - 1])
  }

  lemma RecordsNext(reqs: seq<Req>, r: Req)
    ensures RecordsOf(reqs + [r]) == RecordsOf(reqs) + Written(r)
  {
    assert (reqs + [r])[..|reqs|] == reqs;
  }

  lemma {:induction false} RecordsFirst(reqs: seq<Req>)
    requires reqs != []
    ensures RecordsOf(reqs) == Written(reqs[0]) + RecordsOf(reqs[1..])
  {
    if |reqs| == 1 {
      assert reqs[..0] == [] == reqs[1..];
    } else {
      var n := |reqs| - 1;
      var first, last, middle := Written(reqs[0]), Written(reqs[n]), reqs[1..n];
      assert reqs[..n][1..] == middle && reqs[1..][..n - 1] == middle && reqs[1..][n - 1] == reqs[n];
      calc {
        RecordsOf(reqs);
        RecordsOf(reqs[..n]) + last;
        { RecordsFirst(reqs[..n]); }
        first + RecordsOf(middle) + last;
        first + (RecordsOf(middle) + last);
        first + RecordsOf(reqs[1..]);
      }
    }
  }

  lemma RecordsOfOne(r: Req)
    ensures RecordsOf([r]) == Written(r)
  {
    assert [r][..0] == [];
  }

  /** Records written, being written, and waiting to be written, in that order. */
  function Pipeline(s: State): seq<Record> {
    s.persisted + RecordsOf(s.flusher) + RecordsOf(s.queue)
  }

  ghost predicate Below(recs: seq<Record>, bound: nat) {
    forall i :: 0 <= i < |recs| ==> recs[i].offset < bound
  }

  /** The call has an offset for a record that it has not yet sent. */
  predicate Pending(c: Call) { c.phase.Numbered? && |c.data| <= MAX_U32 }

  /** Appenders are serialised: none takes an offset while another has one that
      it has not yet sent. */
  ghost predicate Serialised(s: State, e: Event) {
    e.TakeOffset? ==> forall j :: 0 <= j < |s.calls| ==> !s.calls[j].phase.Numbered?
  }

  ghost predicate InOrder(s: State) {
    && Increasing(Pipeline(s)) && Below(Pipeline(s), s.nextOffset)
    && forall i :: 0 <= i < |s.calls| && s.calls[i].phase.Numbered? ==>
         s.calls[i].phase.offset + 1 == s.nextOffset && Below(Pipeline(s), s.calls[i].phase.offset)
  }

  lemma Regroup(p: seq<Record>, f: seq<Record>, q: seq<Record>)
    ensures p + [] + (f + q) == p + f + q
    ensures (p + f) + [] + q == p + f + q
  {
  }

  lemma DequeueMoves(s: State)
    ensures Pipeline(Fetched(s)) == Pipeline(s)
  {
    if s.flusher == [] && s.queue != [] {
      var r, rest := s.queue[0], s.queue[1..];
      RecordsFirst(s.queue);
      RecordsOfOne(r);
      Regroup(s.persisted, Written(r), RecordsOf(rest));
    }
  }

  lemma ReleaseMoves(s: State)
    requires |s.flusher| <= 1
    ensures Pipeline(Freed(s)) == Pipeline(s)
  {
    if s.flusher != [] {
      var r := s.flusher[0];
      assert s.flusher == [r];
      RecordsOfOne(r);
      Regroup(s.persisted, Written(r), RecordsOf(s.queue));
    }
  }

  /** Sending either finds the channel full or puts the record at the end. */
  lemma EnqueueAppends(s: State, i: nat)
    requires i < |s.calls| && s.calls[i].phase.Numbered?
    ensures |s.queue| < s.channelCap ==>
              Pipeline(Sent(s, i)) == Pipeline(s) + Written(Req(i, s.calls[i].phase.offset, s.calls[i].data))
    ensures |s.queue| >= s.channelCap ==> Pipeline(Sent(s, i)) == Pipeline(s)
  {
    var r := Req(i, s.calls[i].phase.offset, s.calls[i].data);
    var s' := Sent(s, i);
    assert s'.persisted == s.persisted && s'.flusher == s.flusher;
    if |s.queue| < s.channelCap {
      assert s'.queue == s.queue + [r];
      RecordsNext(s.queue, r);
      assert s.persisted + RecordsOf(s.flusher) + (RecordsOf(s.queue) + Written(r))
          == (s.persisted + RecordsOf(s.flusher) + RecordsOf(s.queue)) + Written(r);
    } else {
      assert s'.queue == s.queue;
    }
  }

  lemma IncreasingNext(recs: seq<Record>, more: seq<Record>, offset: nat)
    requires Increasing(recs) && Below(recs, offset)
    requires |more| <= 1 && (more != [] ==> more[0].offset == offset)
    ensures Increasing(recs + more) && Below(recs + more, offset + 1)
  {
  }

  lemma EnqueueInOrder(s: State, i: nat)
    requires Inv(s) && InOrder(s)
    ensures InOrder(Sent(s, i))
  {
    if i < |s.calls| && s.calls[i].phase.Numbered? {
      var s', offset := Sent(s, i), s.calls[i].phase.offset;
      EnqueueAppends(s, i);
      IncreasingNext(Pipeline(s), Written(Req(i, offset, s.calls[i].data)), offset);
      forall j | 0 <= j < |s'.calls| ensures !s'.calls[j].phase.Numbered? {
        if s.calls[j].phase.Numbered? { NumberedAlone(s, i, j); }
      }
    }
  }

  lemma NumberedAlone(s: State, i: nat, j: nat)
    requires OffsetsOk(s.calls, s.nextOffset) && InOrder(s)
    requires i < |s.calls| && s.calls[i].phase.Numbered? && j < |s.calls| && s.calls[j].phase.Numbered?
    ensures i == j
  {
    assert OffsetOf(s.calls[i]) == OffsetOf(s.calls[j]);
  }

  /** The other steps do not touch the channel, the flusher or the log. */
  lemma StepsElsewhere(s: State, e: Event)
    requires !e.Enqueue? && !e.Dequeue? && !e.Release?
    ensures Pipeline(Apply(s, e)) == Pipeline(s)
    ensures !e.TakeOffset? ==> Apply(s, e).nextOffset == s.nextOffset
    ensures !e.TakeOffset? ==> Waiting(s.calls, Apply(s, e).calls)
  {
  }

  /** Whoever has an offset it has not sent had it before. */
  ghost predicate Waiting(calls: seq<Call>, calls': seq<Call>) {
    && |calls| <= |calls'|
    && forall j :: 0 <= j < |calls'| && calls'[j].phase.Numbered? ==> j < |calls| && calls'[j] == calls[j]
  }

  lemma TakeInOrder(s: State, i: nat)
    requires InOrder(s) && Serialised(s, TakeOffset(i))
    ensures InOrder(Apply(s, TakeOffset(i)))
  {
    StepsElsewhere(s, TakeOffset(i));
  }

  /** Calls that have an offset and have not sent it are left alone. */
  ghost predicate CallsWait(s: State, s': State) {
    && |s'.calls| == |s.calls| && s'.channelCap == s.channelCap && s'.nextOffset == s.nextOffset
    && Waiting(s.calls, s'.calls)
    && forall i :: 0 <= i < |s.calls| && s.calls[i].phase.Numbered? ==> s'.calls[i] == s.calls[i]
  }

  lemma DequeueWaits(s: State)
    requires RequestsOk(s)
    ensures CallsWait(s, Fetched(s))
  {
  }

  lemma ReleaseWaits(s: State)
    requires RequestsOk(s)
    ensures CallsWait(s, Freed(s))
  {
  }

  /** The flusher's steps keep the order of what is on its way, and the calls
      that have not sent. */
  lemma FlusherMoves(s: State, e: Event)
    requires Inv(s) && (e.Dequeue? || e.Release?)
    ensures Pipeline(Apply(s, e)) == Pipeline(s) && CallsWait(s, Apply(s, e))
  {
    if e.Dequeue? {
      DequeueMoves(s);
      DequeueWaits(s);
    } else {
      ReleaseMoves(s);
      ReleaseWaits(s);
    }
  }

  lemma StepInOrder(s: State, e: Event)
    requires Inv(s) && InOrder(s) && Serialised(s, e)
    ensures InOrder(Apply(s, e))
  {
    match e {
      case Enqueue(i) => EnqueueInOrder(s, i);
      case TakeOffset(i) => TakeInOrder(s, i);
      case Dequeue | Release => FlusherMoves(s, e);
      case _ => StepsElsewhere(s, e);
    }
  }

  ghost predicate SerialisedRun(s: State, events: seq<Event>) {
    events == [] ||
    var n := |events| - 1;
    SerialisedRun(s, events[..n]) && Serialised(Run(s, events[..n]), events[n])
  }

  lemma InitialInOrder(s: State)
    requires Initial(s) && Increasing(s.persisted) && Below(s.persisted, s.nextOffset)
    ensures InOrder(s)
  {
    assert Pipeline(s) == s.persisted;
  }

  /** With serialised appenders the flusher writes records in offset order, if
      the recovered ones are in order and below the first offset handed out. */
  lemma {:induction false} SerialisedWritesInOrder(s: State, events: seq<Event>)
    requires Initial(s) && SerialisedRun(s, events)
    requires Increasing(s.persisted) && Below(s.persisted, s.nextOffset)
    ensures InOrder(Run(s, events))
  {
    if events == [] {
      InitialInOrder(s);
    } else {
      var n := |events| - 1;
      SerialisedWritesInOrder(s, events[..n]);
      RunKeeps(s, events[..n]);
      StepInOrder(Run(s, events[..n]), events[n]);
    }
  }

  // ---------- exactly when the order is safe ----------

  /** No further offset is handed out. */
  ghost predicate NoTakes(events: seq<Event>) { forall i :: 0 <= i < |events| ==> !events[i].TakeOffset? }

  lemma NoTakesConcat(a: seq<Event>, b: seq<Event>)
    requires NoTakes(a) && NoTakes(b)
    ensures NoTakes(a + b)
  {
  }

  /** Whatever the calls at hand and the flusher do next, the records are
      written in offset order. */
  ghost predicate StaysInOrder(s: State) {
    forall events :: NoTakes(events) ==> Increasing(Pipeline(Run(s, events)))
  }

  ghost predicate AloneAndLast(s: State, i: nat)
    requires i < |s.calls| && Pending(s.calls[i])
  {
    && Below(Pipeline(s), s.calls[i].phase.offset)
    && forall j :: 0 <= j < |s.calls| && Pending(s.calls[j]) ==> j == i
  }

  /** The records are in order now, and at most one call holds an offset for a
      record it has not sent, which is above them all. */
  ghost predicate Safe(s: State) {
    && Increasing(Pipeline(s))
    && forall i :: 0 <= i < |s.calls| && Pending(s.calls[i]) ==> AloneAndLast(s, i)
  }

  lemma EnqueueSafe(s: State, i: nat)
    requires Inv(s) && Safe(s)
    ensures Safe(Sent(s, i))
  {
    if i < |s.calls| && s.calls[i].phase.Numbered? {
      var s', offset := Sent(s, i), s.calls[i].phase.offset;
      var more := Written(Req(i, offset, s.calls[i].data));
      EnqueueAppends(s, i);
      if Pending(s.calls[i]) {
        assert AloneAndLast(s, i);
        IncreasingNext(Pipeline(s), more, offset);
      } else {
        assert more == [] && Pipeline(s) + more == Pipeline(s);
      }
      PendingKept(s, s');
    }
  }

  /** A step that makes no call pending and adds nothing below one that is. */
  lemma PendingKept(s: State, s': State)
    requires Safe(s) && Increasing(Pipeline(s')) && |s.calls| <= |s'.calls|
    requires forall j :: 0 <= j < |s'.calls| && Pending(s'.calls[j]) ==>
               j < |s.calls| && s'.calls[j] == s.calls[j] && Pipeline(s') == Pipeline(s)
    ensures Safe(s')
  {
    forall j | 0 <= j < |s'.calls| && Pending(s'.calls[j]) ensures AloneAndLast(s', j) {
      assert AloneAndLast(s, j);
    }
  }

  lemma StepSafe(s: State, e: Event)
    requires Inv(s) && Safe(s) && !e.TakeOffset?
    ensures Inv(Apply(s, e)) && Safe(Apply(s, e))
  {
    StepKeeps(s, e);
    match e {
      case Enqueue(i) => EnqueueSafe(s, i);
      case TakeOffset(_) =>
      case Dequeue | Release =>
        FlusherMoves(s, e);
        PendingKept(s, Apply(s, e));
      case _ =>
        StepsElsewhere(s, e);
        PendingKept(s, Apply(s, e));
    }
  }

  lemma {:induction false} RunSafe(s: State, events: seq<Event>) returns (s': State)
    requires Inv(s) && Safe(s) && NoTakes(events)
    ensures s' == Run(s, events) && Inv(s') && Safe(s')
  {
    if events == [] { return s; }
    var n := |events| - 1;
    var s1 := RunSafe(s, events[..n]);
    StepSafe(s1, events[n]);
    s' := Apply(s1, events[n]);
  }

  lemma RunNext(s: State, events: seq<Event>, e: Event)
    ensures Run(s, events + [e]) == Apply(Run(s, events), e)
  {
    assert (events + [e])[..|events|] == events;
  }

  lemma {:induction false} RunConcat(s: State, a: seq<Event>, b: seq<Event>)
    ensures Run(s, a + b) == Run(Run(s, a), b)
  {
    if b == [] {
      assert a + b == a;
    } else {
      var n := |b| - 1;
      RunConcat(s, a, b[..n]);
      assert (a + b)[..|a + b| - 1] == a + b[..n];
    }
  }

  /** The flusher can always empty the channel. */
  lemma {:induction false} Drain(s: State) returns (events: seq<Event>, s': State)
    requires Inv(s)
    ensures NoTakes(events) && s' == Run(s, events) && s'.queue == []
    ensures Pipeline(s') == Pipeline(s) && CallsWait(s, s')
    decreases |s.queue|
  {
    if s.queue == [] {
      events, s' := [], s;
      assert Waiting(s.calls, s.calls);
    } else {
      var s2 := DrainOne(s);
      var rest;
      rest, s' := Drain(s2);
      CallsWaitAgain(s, s2, s');
      var two := [Release, Dequeue];
      RunConcat(s, two, rest);
      NoTakesConcat(two, rest);
      events := two + rest;
    }
  }

  lemma {:induction false} DrainOne(s: State) returns (s2: State)
    requires Inv(s) && s.queue != []
    ensures s2 == Run(s, [Release, Dequeue]) && |s2.queue| < |s.queue|
    ensures Inv(s2) && Pipeline(s2) == Pipeline(s) && CallsWait(s, s2)
  {
    var s1 := Freed(s);
    ReleaseKeeps(s);
    ReleaseMoves(s);
    ReleaseWaits(s);
    assert s1.flusher == [] && s1.queue == s.queue;
    s2 := Fetched(s1);
    DequeueKeeps(s1);
    DequeueMoves(s1);
    DequeueWaits(s1);
    CallsWaitAgain(s, s1, s2);
    TwoSteps(s, Release, Dequeue);
  }

  lemma CallsWaitAgain(a: State, b: State, c: State)
    requires CallsWait(a, b) && CallsWait(b, c)
    ensures CallsWait(a, c)
  {
  }

  lemma TwoSteps(s: State, a: Event, b: Event)
    ensures Run(s, [a, b]) == Apply(Apply(s, a), b)
  {
    OneStep(s, a);
    RunNext(s, [a], b);
    assert [a] + [b] == [a, b];
  }

  lemma OneStep(s: State, e: Event)
    ensures Run(s, [e]) == Apply(s, e)
  {
    assert [e][..0] == [];
  }

  /** Two unsent records and an empty channel: the later one can be sent first. */
  lemma OverlapMayReorder(s: State, i: nat, j: nat)
    requires i < |s.calls| && Pending(s.calls[i]) && j < |s.calls| && Pending(s.calls[j])
    requires s.calls[i].phase.offset < s.calls[j].phase.offset && |s.queue| + 2 <= s.channelCap
    ensures Pipeline(Run(s, [Enqueue(j), Enqueue(i)]))
         == Pipeline(s) + [Record(s.calls[j].phase.offset, s.calls[j].data)]
            + [Record(s.calls[i].phase.offset, s.calls[i].data)]
    ensures !Increasing(Pipeline(Run(s, [Enqueue(j), Enqueue(i)])))
  {
    var s1 := Sent(s, j);
    EnqueueAppends(s, j);
    EnqueueAppends(s1, i);
    TwoSteps(s, Enqueue(j), Enqueue(i));
    NotIncreasing(Pipeline(s), Record(s.calls[j].phase.offset, s.calls[j].data),
                  Record(s.calls[i].phase.offset, s.calls[i].data));
  }

  lemma NotIncreasing(recs: seq<Record>, high: Record, low: Record)
    requires low.offset < high.offset
    ensures !Increasing(recs + [high] + [low])
  {
    var all := recs + [high] + [low];
    assert all[|recs|] == high && all[|recs| + 1] == low;
  }

  /** A record below some other that is written before it. */
  lemma LateMayReorder(s: State, i: nat)
    requires i < |s.calls| && Pending(s.calls[i]) && |s.queue| < s.channelCap
    requires !Below(Pipeline(s), s.calls[i].phase.offset)
    ensures !Increasing(Pipeline(Run(s, [Enqueue(i)])))
  {
    var recs, offset := Pipeline(s), s.calls[i].phase.offset;
    EnqueueAppends(s, i);
    OneStep(s, Enqueue(i));
    var a :| 0 <= a < |recs| && recs[a].offset >= offset;
    var all := recs + [Record(offset, s.calls[i].data)];
    assert all[a] == recs[a] && all[|recs|].offset == offset;
  }

  lemma {:induction false} LateContinuation(s: State, i: nat) returns (events: seq<Event>)
    requires Inv(s) && s.channelCap >= 1 && i < |s.calls| && Pending(s.calls[i])
    requires !Below(Pipeline(s), s.calls[i].phase.offset)
    ensures NoTakes(events) && !Increasing(Pipeline(Run(s, events)))
  {
    var drain, s' := Drain(s);
    LateMayReorder(s', i);
    RunConcat(s, drain, [Enqueue(i)]);
    events := drain + [Enqueue(i)];
  }

  lemma {:induction false} OverlapContinuation(s: State, i: nat, j: nat) returns (events: seq<Event>)
    requires Inv(s) && s.channelCap >= 2 && i < |s.calls| && Pending(s.calls[i]) && j < |s.calls| && Pending(s.calls[j])
    requires s.calls[i].phase.offset < s.calls[j].phase.offset
    ensures NoTakes(events) && !Increasing(Pipeline(Run(s, events)))
  {
    var drain, s' := Drain(s);
    OverlapMayReorder(s', i, j);
    RunConcat(s, drain, [Enqueue(j), Enqueue(i)]);
    events := drain + [Enqueue(j), Enqueue(i)];
  }

  /** A state that is not safe has a continuation that writes out of order. */
  lemma {:induction false} UnsafeMayReorder(s: State) returns (events: seq<Event>)
    requires Inv(s) && s.channelCap >= 2 && !Safe(s)
    ensures NoTakes(events) && !Increasing(Pipeline(Run(s, events)))
  {
    if !Increasing(Pipeline(s)) { return []; }
    var i :| 0 <= i < |s.calls| && Pending(s.calls[i]) && !AloneAndLast(s, i);
    if !Below(Pipeline(s), s.calls[i].phase.offset) {
      events := LateContinuation(s, i);
    } else {
      var j :| 0 <= j < |s.calls| && Pending(s.calls[j]) && j != i;
      assert OffsetOf(s.calls[i]) != OffsetOf(s.calls[j]);
      if OffsetOf(s.calls[i]) < OffsetOf(s.calls[j]) {
        events := OverlapContinuation(s, i, j);
      } else {
        events := OverlapContinuation(s, j, i);
      }
    }
  }

  /** In every reachable state with room for two in the channel: the records
      will be written in order, however the calls at hand and the flusher go on,
      if and only if the state is safe. */
  lemma OrderIsKeptExactlyWhen(s: State, events: seq<Event>)
    requires Initial(s) && Run(s, events).channelCap >= 2
    ensures StaysInOrder(Run(s, events)) <==> Safe(Run(s, events))
  {
    RunKeeps(s, events);
    var s' := Run(s, events);
    if Safe(s') {
      forall more | NoTakes(more) ensures Increasing(Pipeline(Run(s', more))) {
        var s'' := RunSafe(s', more);
      }
    } else {
      var more := UnsafeMayReorder(s');
    }
  }

  // ---------- a run that reorders ----------

  /** An append that runs alone as far as taking its offset. */
  lemma Reserve(s: State, events: seq<Event>, i: nat, was: State) returns (events': seq<Event>, s': State)
    requires was == Run(s, events)
    requires i < |was.calls| && was.calls[i].phase.Start? && was.buffered + |was.calls[i].data| <= was.maxBuffered
    ensures s' == Run(s, events')
    ensures s' == State(was.maxBuffered, was.channelCap, was.buffered + |was.calls[i].data|, was.nextOffset + 1,
                        was.calls[i := Call(was.calls[i].data, Numbered(was.nextOffset))],
                        was.queue, was.flusher, was.persisted)
  {
    var c := was.calls[i];
    RunNext(s, events, Load(i));
    var s1 := Apply(was, Load(i));
    assert s1 == was.(calls := was.calls[i := c.(phase := Loaded(was.buffered))]);
    RunNext(s, events + [Load(i)], Swap(i));
    var s2 := Apply(s1, Swap(i));
    assert s2 == was.(calls := was.calls[i := c.(phase := Reserved)], buffered := was.buffered + |c.data|);
    events' := events + [Load(i)] + [Swap(i)] + [TakeOffset(i)];
    RunNext(s, events + [Load(i)] + [Swap(i)], TakeOffset(i));
    s' := Apply(s2, TakeOffset(i));
  }

  /** From the initial state two concurrent appends of one byte can be written
      with offset 2 before offset 1. */
  lemma ConcurrentAppendsMayReorder() returns (s: State, events: seq<Event>)
    ensures Initial(s) && s.persisted == [] && Pipeline(Run(s, events)) == [Record(2, [7]), Record(1, [7])]
  {
    s := State(8, 4, 0, 1, [], [], [], []);
    RunNext(s, [], Arrive([7]));
    RunNext(s, [] + [Arrive([7])], Arrive([7]));
    events := [] + [Arrive([7])] + [Arrive([7])];
    var was := State(8, 4, 0, 1, [Call([7], Start), Call([7], Start)], [], [], []);
    events, was := Reserve(s, events, 0, was);
    events, was := Reserve(s, events, 1, was);
    OverlapMayReorder(was, 0, 1);
    RunConcat(s, events, [Enqueue(1), Enqueue(0)]);
    events := events + [Enqueue(1), Enqueue(0)];
  }
}
