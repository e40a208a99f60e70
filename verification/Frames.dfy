/** The life of UMEM frames in afxdp_ring_consumer.c.  One user loop and the
    kernel move frame addresses through four rings of 2048 entries; every step
    below is one access to shared memory, so any sequence of events is one
    interleaving.  A ring is the queue that Ring.U32Ring stands for. */
module Frames {
  import opened Fifo

  const RING_SZ: nat := 2048
  const FRAME_SZ: nat := 2048
  const NUM_FRAMES: nat := 4096
  const UMEM_LEN: nat := NUM_FRAMES * FRAME_SZ
  const BATCH: nat := 64

  /** struct xdp_desc; the address rings leave `len` at 0. */
  datatype Desc = Desc(addr: nat, len: nat)

  /** Where the user loop stands between two accesses to shared memory. */
  datatype Pc =
    | Reclaim                                    // about to look for completions
    | GotCompletions(n: nat)                     // n peeked, fill not yet reserved
    | CompletionsCopied(n: nat)                  // fill reserved, addresses copied
    | CompletionsReleased(out: seq<Desc>)        // released, not yet resubmitted
    | Receive                                    // about to look for packets
    | GotPackets(n: nat)                         // n peeked, fill not yet reserved
    | FillReserved(n: nat)                       // refill slots reserved
    | Processing(count: nat, txRoom: nat, i: nat,
                 refill: seq<Desc>, reply: seq<Desc>, dropped: seq<Desc>)
    | PacketsReleased(refill: seq<Desc>, reply: seq<Desc>)
    | RefillSubmitted(reply: seq<Desc>)

  datatype State = State(
    fill: Fifo<Desc>, rx: Fifo<Desc>, tx: Fifo<Desc>, comp: Fifo<Desc>,
    kernelRx: multiset<nat>,       // frames taken from fill, no packet yet
    kernelTx: multiset<nat>,       // frames taken from tx, not yet completed
    user: Pc,
    lost: multiset<nat>)           // frames no party will ever use again

  datatype Event =
    | User(answer: bool, outLen: nat)  // one step of the loop; `answer`: a reply was crafted
    | KernelTakesFill
    | KernelDelivers(desc: Desc)
    | KernelTakesTx
    | KernelCompletes(addr: nat)

  function Chunk(d: Desc): nat { d.addr / FRAME_SZ }

  ghost function Chunks(s: seq<Desc>): multiset<nat> {
    multiset(seq(|s|, i requires 0 <= i < |s| => Chunk(s[i])))
  }

  predicate InUmem(d: Desc) { d.addr + d.len <= UMEM_LEN }

  // ---------- the loop and the kernel ----------

  /** The state after 2048 addresses have been reserved and submitted to fill. */
  ghost function Init(): State {
    var fill := Empty<Desc>(RING_SZ).Reserved(RING_SZ).Submit(Seed(RING_SZ));
    State(fill, Empty(RING_SZ), Empty(RING_SZ), Empty(RING_SZ), multiset{}, multiset{}, Reclaim, multiset{})
  }

  ghost function Seed(n: nat): seq<Desc> { seq(n, i requires 0 <= i < n => Desc(i * FRAME_SZ, 0)) }

  /** One step of the user loop, written as the source's branches. */
  ghost function UserStep(s: State, answer: bool, outLen: nat): State
    requires RingsOk(s) && PeekedOk(s)
  {
    match s.user
    case Reclaim =>
      var n := s.comp.PeekCount(BATCH);
      s.(comp := s.comp.Refreshed(), user := if n == 0 then Receive else GotCompletions(n))
    case GotCompletions(n) =>
      var granted := s.fill.ReserveCount(n);
      s.(fill := s.fill.Reserved(n), user := if granted == n then CompletionsCopied(n) else Receive)
    case CompletionsCopied(n) =>
      s.(comp := s.comp.Release(n), user := CompletionsReleased(s.comp.Live()[..n]))
    case CompletionsReleased(out) =>
      s.(fill := s.fill.Submit(out), user := Receive)
    case Receive =>
      var n := s.rx.PeekCount(BATCH);
      s.(rx := s.rx.Refreshed(), user := if n == 0 then Reclaim else GotPackets(n))
    case GotPackets(n) =>
      var canRefill := s.fill.ReserveCount(n);
      if canRefill == 0 then
        s.(fill := s.fill.Reserved(n), rx := s.rx.Release(n), user := Reclaim,
           lost := s.lost + Chunks(s.rx.Live()[..n]))
      else
        s.(fill := s.fill.Reserved(n), user := FillReserved(n))
    case FillReserved(n) =>
      s.(tx := s.tx.Reserved(n), user := Processing(n, s.tx.ReserveCount(n), 0, [], [], []))
    case Processing(n, txRoom, i, refill, reply, dropped) =>
      if i < n then
        s.(user := ProcessPacket(s.user, s.rx.Live()[i], answer, outLen))
      else
        s.(rx := s.rx.Release(n), user := PacketsReleased(refill, reply), lost := s.lost + Chunks(dropped))
    case PacketsReleased(refill, reply) =>
      s.(fill := s.fill.Submit(refill), user := RefillSubmitted(reply))
    case RefillSubmitted(reply) =>
      s.(tx := s.tx.Submit(reply), user := Reclaim)
  }

  /** The body of the packet loop: skip, answer in place, or recycle. */
  function ProcessPacket(p: Pc, d: Desc, answer: bool, outLen: nat): Pc
    requires p.Processing?
  {
    if !InUmem(d) then
      p.(i := p.i + 1, dropped := p.dropped + [d])
    else if answer && |p.reply| < p.txRoom then
      p.(i := p.i + 1, reply := p.reply + [Desc(d.addr, outLen)])
    else if |p.refill| < p.count then
      p.(i := p.i + 1, refill := p.refill + [Desc(d.addr, 0)])
    else
      p.(i := p.i + 1, dropped := p.dropped + [d])
  }

  /** An event that is not enabled leaves the state alone.  The kernel delivers
      only descriptors that lie in UMEM, in the chunk it was given. */
  ghost function Apply(s: State, e: Event): State
    requires RingsOk(s) && PeekedOk(s)
  {
    match e
    case User(answer, outLen) => UserStep(s, answer, outLen)
    case KernelTakesFill =>
      if s.fill.Live() == [] then s else
        s.(fill := s.fill.Refreshed().Release(1),
           kernelRx := s.kernelRx + multiset{Chunk(s.fill.Live()[0])})
    case KernelDelivers(d) =>
      if Chunk(d) !in s.kernelRx || !InUmem(d) || s.rx.ReserveCount(1) == 0 then s else
        s.(rx := s.rx.Reserved(1).Submit([d]), kernelRx := s.kernelRx - multiset{Chunk(d)})
    case KernelTakesTx =>
      if s.tx.Live() == [] then s else
        s.(tx := s.tx.Refreshed().Release(1),
           kernelTx := s.kernelTx + multiset{Chunk(s.tx.Live()[0])})
    case KernelCompletes(addr) =>
      if Chunk(Desc(addr, 0)) !in s.kernelTx || s.comp.ReserveCount(1) == 0 then s else
        s.(comp := s.comp.Reserved(1).Submit([Desc(addr, 0)]),
           kernelTx := s.kernelTx - multiset{Chunk(Desc(addr, 0))})
  }

  // ---------- what every step keeps ----------

  ghost predicate RingsOk(s: State) {
    && s.fill.Ok() && s.rx.Ok() && s.tx.Ok() && s.comp.Ok()
    && s.fill.size == s.rx.size == s.tx.size == s.comp.size == RING_SZ
  }

  /** The n entries a peek returned are still there to be released. */
  ghost predicate Peeked<T>(f: Fifo<T>, n: nat) { f.released + n <= f.seenProd }

  /** n more entries may be written and submitted. */
  ghost predicate Room<T>(f: Fifo<T>, n: nat) { |f.sent| + n <= f.seenCons + f.size }

  ghost predicate PeekedOk(s: State)
    requires RingsOk(s)
  {
    match s.user
    case GotCompletions(n) => n > 0 && Peeked(s.comp, n)
    case CompletionsCopied(n) => Peeked(s.comp, n)
    case GotPackets(n) => n > 0 && Peeked(s.rx, n)
    case FillReserved(n) => Peeked(s.rx, n)
    case Processing(n, _, i, _, _, _) => i <= n && Peeked(s.rx, n)
    case _ => true
  }

  ghost predicate RoomOk(s: State)
    requires RingsOk(s) && PeekedOk(s)
  {
    match s.user
    case CompletionsCopied(n) => Room(s.fill, n)
    case CompletionsReleased(out) => Room(s.fill, |out|)
    case FillReserved(n) => n > 0 && Room(s.fill, n)
    case Processing(n, txRoom, i, refill, reply, dropped) =>
      && Room(s.fill, n) && Room(s.tx, n) && txRoom == n
      && |refill| + |reply| == i && dropped == []
      && Chunks(refill) + Chunks(reply) == Chunks(s.rx.Live()[..i])
    case PacketsReleased(refill, reply) => Room(s.fill, |refill|) && Room(s.tx, |reply|)
    case RefillSubmitted(reply) => Room(s.tx, |reply|)
    case _ => true
  }

  /** Frames the user has taken out of one ring and not yet put into another. */
  ghost function InHand(p: Pc): multiset<nat> {
    match p
    case CompletionsReleased(out) => Chunks(out)
    case PacketsReleased(refill, reply) => Chunks(refill) + Chunks(reply)
    case RefillSubmitted(reply) => Chunks(reply)
    case _ => multiset{}
  }

  /** How many times frame c occurs, over all the places a frame can be. */
  ghost function Count(s: State, c: nat): nat
    requires RingsOk(s)
  {
    Chunks(s.fill.Live())[c] + Chunks(s.rx.Live())[c] + Chunks(s.tx.Live())[c] + Chunks(s.comp.Live())[c]
    + s.kernelRx[c] + s.kernelTx[c] + InHand(s.user)[c]
  }

  ghost predicate Conserved(s: State)
    requires RingsOk(s)
  {
    forall c: nat :: Count(s, c) == if c < RING_SZ then 1 else 0
  }

  ghost predicate Inv(s: State) {
    && RingsOk(s) && PeekedOk(s) && RoomOk(s)
    && s.lost == multiset{}
    && (forall i :: 0 <= i < |s.rx.Live()| ==> InUmem(s.rx.Live()[i]))
    && Conserved(s)
  }

  // ---------- counting ----------

  lemma ChunksConcat(a: seq<Desc>, b: seq<Desc>)
    ensures Chunks(a + b) == Chunks(a) + Chunks(b)
  {
    var f := (s: seq<Desc>) => seq(|s|, i requires 0 <= i < |s| => Chunk(s[i]));
    assert f(a + b) == f(a) + f(b);
  }

  lemma ChunksSplit(s: seq<Desc>, n: nat)
    requires n <= |s|
    ensures Chunks(s) == Chunks(s[..n]) + Chunks(s[n..])
  {
    assert s == s[..n] + s[n..];
    ChunksConcat(s[..n], s[n..]);
  }

  lemma ChunksOne(d: Desc)
    ensures Chunks([d]) == multiset{Chunk(d)}
  {
    assert seq(1, i requires 0 <= i < 1 => Chunk([d][i])) == [Chunk(d)];
  }

  lemma ChunksCount(s: seq<Desc>)
    ensures |Chunks(s)| == |s|
  {
  }

  lemma {:induction false} SeedCount(n: nat, c: nat)
    ensures Chunks(Seed(n))[c] == if c < n then 1 else 0
  {
    if n > 0 {
      var d := Desc((n - 1) * FRAME_SZ, 0);
      SeedCount(n - 1, c);
      assert Seed(n) == Seed(n - 1) + [d];
      ChunksConcat(Seed(n - 1), [d]);
      ChunksOne(d);
      assert Chunk(d) == n - 1;
    } else {
      assert Chunks([]) == multiset{};
    }
  }

  /** The pigeonhole: entries that stand in one ring leave room in another. */
  lemma RoomElsewhere(s: State)
    requires Inv(s)
    ensures |s.fill.Live()| + |s.rx.Live()| + |s.tx.Live()| + |s.comp.Live()| <= RING_SZ
  {
    var rings := Chunks(s.fill.Live()) + Chunks(s.rx.Live()) + Chunks(s.tx.Live()) + Chunks(s.comp.Live());
    var rest := s.kernelRx + s.kernelTx + InHand(s.user);
    forall c: nat ensures (rings + rest)[c] == Chunks(Seed(RING_SZ))[c] {
      SeedCount(RING_SZ, c);
      assert Count(s, c) == (rings + rest)[c];
    }
    assert rings + rest == Chunks(Seed(RING_SZ));
    ChunksCount(s.fill.Live());
    ChunksCount(s.rx.Live());
    ChunksCount(s.tx.Live());
    ChunksCount(s.comp.Live());
    ChunksCount(Seed(RING_SZ));
  }

  lemma SameCountsConserve(s: State, s': State)
    requires RingsOk(s) && RingsOk(s') && Conserved(s)
    requires forall c: nat :: Count(s', c) == Count(s, c)
    ensures Conserved(s')
  {
  }

  // ---------- every step keeps the invariant ----------

  lemma InitInv()
    ensures Inv(Init())
  {
    var s := Init();
    assert s.fill.Live() == Seed(RING_SZ);
    assert Chunks([]) == multiset{};
    forall c: nat ensures Count(s, c) == if c < RING_SZ then 1 else 0 {
      SeedCount(RING_SZ, c);
    }
  }

  /** Taking the oldest entry moves one frame from the ring to the taker. */
  lemma TakeFirst(f: Fifo<Desc>)
    requires f.Ok() && f.Live() != []
    ensures f.Refreshed().Release(1).Ok()
    ensures Chunks(f.Live()) == multiset{Chunk(f.Live()[0])} + Chunks(f.Refreshed().Release(1).Live())
    ensures f.Refreshed().Release(1).Live() == f.Live()[1..]
  {
    PeekFindsFront(f, 1);
    ChunksSplit(f.Live(), 1);
    assert f.Live()[..1] == [f.Live()[0]];
    ChunksOne(f.Live()[0]);
  }

  /** Submitting entries for which there is room adds exactly their frames. */
  lemma PutLast(f: Fifo<Desc>, items: seq<Desc>)
    requires f.Ok() && Room(f, |items|)
    ensures f.Submit(items).Ok()
    ensures f.Submit(items).Live() == f.Live() + items
    ensures Chunks(f.Submit(items).Live()) == Chunks(f.Live()) + Chunks(items)
  {
    ChunksConcat(f.Live(), items);
  }

  lemma KernelTakesKeeps(s: State, e: Event)
    requires Inv(s) && (e.KernelTakesFill? || e.KernelTakesTx?)
    ensures Inv(Apply(s, e))
  {
    var s' := Apply(s, e);
    if e.KernelTakesFill? && s.fill.Live() != [] {
      TakeFirst(s.fill);
    } else if e.KernelTakesTx? && s.tx.Live() != [] {
      TakeFirst(s.tx);
    }
    SameCountsConserve(s, s');
  }

  lemma MovesOut(held: multiset<nat>, c: nat)
    requires c in held
    ensures (held - multiset{c}) + multiset{c} == held
  {
  }

  lemma KernelDeliversKeeps(s: State, d: Desc)
    requires Inv(s)
    ensures Inv(Apply(s, KernelDelivers(d)))
  {
    var s' := Apply(s, KernelDelivers(d));
    if s' != s {
      ReserveIsExact(s.rx, 1);
      PutLast(s.rx.Reserved(1), [d]);
      ChunksOne(d);
      MovesOut(s.kernelRx, Chunk(d));
      assert s.user.Processing? ==> s'.rx.Live()[..s.user.i] == s.rx.Live()[..s.user.i];
      SameCountsConserve(s, s');
    }
  }

  lemma KernelCompletesKeeps(s: State, addr: nat)
    requires Inv(s)
    ensures Inv(Apply(s, KernelCompletes(addr)))
  {
    var d, s' := Desc(addr, 0), Apply(s, KernelCompletes(addr));
    if s' != s {
      ReserveIsExact(s.comp, 1);
      PutLast(s.comp.Reserved(1), [d]);
      ChunksOne(d);
      MovesOut(s.kernelTx, Chunk(d));
      SameCountsConserve(s, s');
    }
  }

  /** The reservations of the loop are always granted. */
  lemma ReservationsGranted(s: State)
    requires Inv(s)
    ensures s.user.GotCompletions? ==> s.fill.ReserveCount(s.user.n) == s.user.n
    ensures s.user.GotPackets? ==> s.fill.ReserveCount(s.user.n) == s.user.n
    ensures s.user.FillReserved? ==> s.tx.ReserveCount(s.user.n) == s.user.n
  {
    RoomElsewhere(s);
    match s.user {
      case GotCompletions(n) => ReserveIsExact(s.fill, n);
      case GotPackets(n) => ReserveIsExact(s.fill, n);
      case FillReserved(n) => ReserveIsExact(s.tx, n);
      case _ =>
    }
  }

  lemma ReclaimKeeps(s: State, answer: bool, outLen: nat)
    requires Inv(s) && (s.user.Reclaim? || s.user.GotCompletions?)
    ensures Inv(UserStep(s, answer, outLen))
  {
    if s.user.Reclaim? {
      PeekFindsFront(s.comp, BATCH);
    } else {
      ReservationsGranted(s);
      ReserveIsExact(s.fill, s.user.n);
    }
    SameCountsConserve(s, UserStep(s, answer, outLen));
  }

  lemma RecycleKeeps(s: State, answer: bool, outLen: nat)
    requires Inv(s) && (s.user.CompletionsCopied? || s.user.CompletionsReleased?)
    ensures Inv(UserStep(s, answer, outLen))
  {
    if s.user.CompletionsCopied? {
      ChunksSplit(s.comp.Live(), s.user.n);
      assert s.comp.Release(s.user.n).Live() == s.comp.Live()[s.user.n..];
    } else {
      PutLast(s.fill, s.user.out);
    }
    SameCountsConserve(s, UserStep(s, answer, outLen));
  }

  lemma ReceiveKeeps(s: State, answer: bool, outLen: nat)
    requires Inv(s)
    requires s.user.Receive? || s.user.GotPackets? || s.user.FillReserved?
    ensures Inv(UserStep(s, answer, outLen))
  {
    match s.user {
      case Receive =>
        PeekFindsFront(s.rx, BATCH);
      case GotPackets(n) =>
        ReservationsGranted(s);
        ReserveIsExact(s.fill, n);
      case FillReserved(n) =>
        ReservationsGranted(s);
        ReserveIsExact(s.tx, n);
        assert Chunks([]) == multiset{};
        assert s.rx.Live()[..0] == [];
      case _ =>
    }
    SameCountsConserve(s, UserStep(s, answer, outLen));
  }

  lemma ProcessPacketKeeps(s: State, answer: bool, outLen: nat)
    requires Inv(s) && s.user.Processing? && s.user.i < s.user.count
    ensures Inv(UserStep(s, answer, outLen))
  {
    var p := s.user;
    var live := s.rx.Live();
    var d := live[p.i];
    assert InUmem(d);
    assert live[..p.i + 1] == live[..p.i] + [d];
    ChunksConcat(live[..p.i], [d]);
    ChunksOne(d);
    ChunksOne(Desc(d.addr, outLen));
    ChunksOne(Desc(d.addr, 0));
    ChunksConcat(p.reply, [Desc(d.addr, outLen)]);
    ChunksConcat(p.refill, [Desc(d.addr, 0)]);
    SameCountsConserve(s, UserStep(s, answer, outLen));
  }

  lemma PacketsReleaseKeeps(s: State, answer: bool, outLen: nat)
    requires Inv(s) && s.user.Processing? && s.user.i == s.user.count
    ensures Inv(UserStep(s, answer, outLen))
  {
    var n := s.user.count;
    ChunksSplit(s.rx.Live(), n);
    assert s.rx.Release(n).Live() == s.rx.Live()[n..];
    assert Chunks([]) == multiset{};
    SameCountsConserve(s, UserStep(s, answer, outLen));
  }

  lemma FlushKeeps(s: State, answer: bool, outLen: nat)
    requires Inv(s) && (s.user.PacketsReleased? || s.user.RefillSubmitted?)
    ensures Inv(UserStep(s, answer, outLen))
  {
    if s.user.PacketsReleased? {
      PutLast(s.fill, s.user.refill);
    } else {
      PutLast(s.tx, s.user.reply);
    }
    SameCountsConserve(s, UserStep(s, answer, outLen));
  }

  lemma StepKeeps(s: State, e: Event)
    requires Inv(s)
    ensures Inv(Apply(s, e))
  {
    match e {
      case KernelDelivers(d) => KernelDeliversKeeps(s, d);
      case KernelCompletes(addr) => KernelCompletesKeeps(s, addr);
      case User(answer, outLen) =>
        match s.user {
          case Reclaim | GotCompletions(_) => ReclaimKeeps(s, answer, outLen);
          case CompletionsCopied(_) | CompletionsReleased(_) => RecycleKeeps(s, answer, outLen);
          case Receive | GotPackets(_) | FillReserved(_) => ReceiveKeeps(s, answer, outLen);
          case Processing(n, _, i, _, _, _) =>
            if i < n { ProcessPacketKeeps(s, answer, outLen); } else { PacketsReleaseKeeps(s, answer, outLen); }
          case PacketsReleased(_, _) | RefillSubmitted(_) => FlushKeeps(s, answer, outLen);
        }
      case _ => KernelTakesKeeps(s, e);
    }
  }

  // ---------- whole runs ----------

  /** The state reached by a sequence of events, in any interleaving. */
  ghost function Run(events: seq<Event>): (s: State)
    ensures Inv(s)
  {
    if events == [] then
      InitInv(); Init()
    else
      var s := Run(events[..|events| - 1]);
      StepKeeps(s, events[|events| - 1]);
      Apply(s, events[|events| - 1])
  }

  /** In every interleaving each of the 2048 seeded frames is in exactly one
      place, no other frame is anywhere, and no frame is ever lost. */
  lemma EveryFrameOnce(events: seq<Event>, c: nat)
    ensures Run(events).lost == multiset{}
    ensures Count(Run(events), c) == if c < RING_SZ then 1 else 0
  {
    var s := Run(events);
    assert Conserved(s);
  }

  /** In every interleaving the loop's three reservations are granted in full,
      so the branches for a full ring are never taken. */
  lemma FullRingBranchesDead(events: seq<Event>)
    ensures var s := Run(events);
            && (s.user.GotCompletions? ==> s.fill.ReserveCount(s.user.n) == s.user.n)
            && (s.user.GotPackets? ==> s.fill.ReserveCount(s.user.n) == s.user.n > 0)
            && (s.user.FillReserved? ==> s.tx.ReserveCount(s.user.n) == s.user.n)
            && (s.user.Processing? && s.user.i < s.user.count ==>
                  |s.user.reply| < s.user.txRoom && |s.user.refill| < s.user.count)
  {
    ReservationsGranted(Run(events));
  }
}
