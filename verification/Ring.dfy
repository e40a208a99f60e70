/** An unbounded first-in first-out queue between one producer and one consumer,
    each with a possibly stale view of the other's progress.  This is what a
    u32_ring is meant to be; positions are unbounded and never wrap. */
module Fifo {

  datatype Fifo<T> = Fifo(
    size: nat,          // capacity of the ring behind the queue
    sent: seq<T>,       // everything ever submitted, in order
    released: nat,      // how many of those the consumer has given back
    seenProd: nat,      // the consumer's last reading of |sent|
    seenCons: nat)      // the producer's last reading of released
  {
    predicate Ok() {
      && released <= seenProd <= |sent|
      && seenCons <= released
      && |sent| <= seenCons + size
    }

    /** The entries submitted and not yet released, oldest first. */
    function Live(): seq<T>
      requires Ok()
    {
      sent[released..]
    }

    /** The consumer refreshes its reading only when its view is empty. */
    function Refreshed(): Fifo<T> {
      if released == seenProd then this.(seenProd := |sent|) else this
    }

    function PeekCount(n: nat): nat
      requires Ok()
    {
      var avail := Refreshed().seenProd - released;
      if n > avail then avail else n
    }

    function Release(n: nat): Fifo<T> {
      this.(released := released + n)
    }

    /** The producer refreshes its reading only when its view is too full. */
    function Reserved(n: nat): Fifo<T> {
      if seenCons + size < |sent| + n then this.(seenCons := released) else this
    }

    function ReserveCount(n: nat): nat {
      if Reserved(n).seenCons + size < |sent| + n then 0 else n
    }

    function Submit(items: seq<T>): Fifo<T> {
      this.(sent := sent + items)
    }
  }

  function Empty<T>(size: nat): (f: Fifo<T>)
    ensures f.Ok() && f.Live() == []
  {
    Fifo(size, [], 0, 0, 0)
  }

  /** Staleness never hides an entry: a peek finds something exactly when the
      queue holds something, and what it finds is the front of the queue. */
  lemma PeekFindsFront<T>(f: Fifo<T>, n: nat)
    requires f.Ok()
    ensures f.Refreshed().Ok() && f.Refreshed().Live() == f.Live()
    ensures f.PeekCount(n) <= n && f.PeekCount(n) <= |f.Live()|
    ensures f.PeekCount(n) == 0 <==> n == 0 || f.Live() == []
    ensures f.Refreshed().Release(f.PeekCount(n)).Ok()
    ensures f.Refreshed().Release(f.PeekCount(n)).Live() == f.Live()[f.PeekCount(n)..]
  {
  }

  /** Staleness never refuses room: a reservation is granted, and then in full,
      exactly when the queue together with the new entries fits the ring. */
  lemma ReserveIsExact<T>(f: Fifo<T>, n: nat)
    requires f.Ok()
    ensures f.Reserved(n).Ok() && f.Reserved(n).Live() == f.Live()
    ensures f.ReserveCount(n) == if |f.Live()| + n <= f.size then n else 0
    ensures forall items: seq<T> :: |items| <= f.ReserveCount(n) ==>
              && f.Reserved(n).Submit(items).Ok()
              && f.Reserved(n).Submit(items).Live() == f.Live() + items
  {
  }
}

/** The single-producer single-consumer ring of afxdp_ring_consumer.c: shared
    wrapping counters, a power-of-two array of entries, and the two private
    copies (struct u32_ring) held by the producing and the consuming side. */
module Ring {
  import opened MachineWords
  import opened Fifo

  /** The six 32-bit words of one ring: the two shared counters and the cached
      pair of each side. */
  datatype Words = Words(
    producer: nat, consumer: nat,
    prodCachedProd: nat, prodCachedCons: nat,
    consCachedProd: nat, consCachedCons: nat)

  /** The words are what 32 bits can hold of the queue's positions, counted
      from wherever the shared counters started. */
  ghost predicate Matches<T>(w: Words, base: nat, q: Fifo<T>) {
    && q.Ok() && q.size < U32
    && w.producer == w.prodCachedProd && w.consumer == w.consCachedCons
    && Tracks(w.prodCachedProd, base + |q.sent|)
    && Tracks(w.consCachedCons, base + q.released)
    && Tracks(w.prodCachedCons, base + q.seenCons)
    && Tracks(w.consCachedProd, base + q.seenProd)
  }

  /** What the consumer computes from wrapped words is the true distance, and a
      refresh replaces its reading by the producer's position. */
  lemma ConsumerReading<T>(w: Words, base: nat, q: Fifo<T>)
    requires Matches(w, base, q)
    ensures w.consCachedProd < U32 && w.consCachedCons < U32
    ensures Sub32(w.consCachedProd, w.consCachedCons) == q.seenProd - q.released
    ensures Matches(w.(consCachedProd := w.producer), base, q.(seenProd := |q.sent|))
  {
    DistanceSurvivesWrap(w.consCachedProd, base + q.seenProd, w.consCachedCons, base + q.released);
  }

  /** Likewise the producer: `size - (prod - cons)` is the true room. */
  lemma ProducerReading<T>(w: Words, base: nat, q: Fifo<T>)
    requires Matches(w, base, q)
    ensures w.prodCachedProd < U32 && w.prodCachedCons < U32
    ensures Sub32(q.size, Sub32(w.prodCachedProd, w.prodCachedCons)) == q.seenCons + q.size - |q.sent|
    ensures Matches(w.(prodCachedCons := w.consumer), base, q.(seenCons := q.released))
  {
    DistanceSurvivesWrap(w.prodCachedProd, base + |q.sent|, w.prodCachedCons, base + q.seenCons);
  }

  lemma ReleaseMatches<T>(w: Words, base: nat, q: Fifo<T>, n: nat)
    requires Matches(w, base, q) && n <= q.seenProd - q.released
    ensures w.consCachedCons < U32 && n < U32
    ensures var c := Add32(w.consCachedCons, n);
            Matches(w.(consCachedCons := c, consumer := c), base, q.Release(n))
  {
    AddSurvivesWrap(w.consCachedCons, base + q.released, n);
  }

  lemma SubmitMatches<T>(w: Words, base: nat, q: Fifo<T>, items: seq<T>)
    requires Matches(w, base, q) && |q.sent| + |items| <= q.seenCons + q.size
    ensures w.prodCachedProd < U32 && |items| < U32
    ensures var p := Add32(w.prodCachedProd, |items|);
            Matches(w.(prodCachedProd := p, producer := p), base, q.Submit(items))
  {
    AddSurvivesWrap(w.prodCachedProd, base + |q.sent|, |items|);
  }

  /** The slots hold `items` from position `first` on, one lap at most. */
  ghost predicate Holds<T>(slots: seq<T>, first: nat, items: seq<T>) {
    && 0 < |slots| && |items| <= |slots|
    && forall i :: 0 <= i < |items| ==> slots[(first + i) % |slots|] == items[i]
  }

  lemma HoldsRest<T>(slots: seq<T>, first: nat, items: seq<T>, n: nat)
    requires Holds(slots, first, items) && n <= |items|
    ensures Holds(slots, first + n, items[n..])
  {
    forall i | 0 <= i < |items| - n ensures slots[(first + n + i) % |slots|] == items[n..][i] {
      assert first + n + i == first + (n + i);
    }
  }

  /** Writing one entry past the last disturbs none of those held. */
  lemma HoldsMore<T>(slots: seq<T>, first: nat, items: seq<T>, v: T)
    requires Holds(slots, first, items) && |items| < |slots|
    ensures Holds(slots[(first + |items|) % |slots| := v], first, items + [v])
  {
    var slots' := slots[(first + |items|) % |slots| := v];
    forall i | 0 <= i < |items| ensures slots'[(first + i) % |slots|] == items[i] {
      SlotsDistinct(first + i, first + |items|, |slots|);
    }
  }

  class U32Ring<T> {
    const bits: nat
    const size: nat
    const mask: nat
    const entries: array<T>
    var words: Words

    ghost const base: nat        // both counters start here
    ghost var queue: Fifo<T>     // what the ring stands for
    ghost var staged: seq<T>     // written to reserved slots, not yet submitted

    ghost predicate Valid()
      reads this, entries
    {
      && bits < 32 && size == Pow2(bits) && mask == size - 1
      && entries.Length == size == queue.size
      && Matches(words, base, queue)
      && |queue.sent| + |staged| <= queue.seenCons + size
      && EntriesHold(base + queue.released, Pending(queue, staged))
    }

    ghost predicate EntriesHold(first: nat, items: seq<T>)
      reads entries
    {
      Holds(entries[..], first, items)
    }

    /** Every entry that must not be overwritten: the queue, then the staged. */
    static ghost function Pending(q: Fifo<T>, staged: seq<T>): seq<T>
      requires q.Ok()
    {
      q.Live() + staged
    }

    /** The ring of 2^bits entries whose shared counters both read `start`. */
    constructor (bits: nat, start: nat, init: T)
      requires bits < 32 && start < U32
      ensures Valid() && fresh(entries)
      ensures this.bits == bits && base == start
      ensures queue == Empty(Pow2(bits)) && staged == []
    {
      Pow2FitsWord(bits);
      this.bits := bits;
      size := Pow2(bits);
      mask := Pow2(bits) - 1;
      entries := new T[Pow2(bits)](_ => init);
      words := Words(start, start, start, start, start, start);
      base := start;
      queue := Empty(Pow2(bits));
      staged := [];
    }

    method ConsPeek(n: nat) returns (got: nat, idx: nat)
      requires Valid() && n < U32
      modifies this`words, this`queue
      ensures Valid()
      ensures queue == old(queue).Refreshed() && got == old(queue).PeekCount(n)
      ensures got > 0 ==> idx == (base + queue.released) % size
    {
      ConsumerReading(words, base, queue);
      if words.consCachedCons == words.consCachedProd {
        assert Pending(queue.(seenProd := |queue.sent|), staged) == Pending(queue, staged);
        words := words.(consCachedProd := words.producer);
        queue := queue.(seenProd := |queue.sent|);
        ConsumerReading(words, base, queue);
      }
      var avail := Sub32(words.consCachedProd, words.consCachedCons);
      got := if n > avail then avail else n;
      MaskedCounter(words.consCachedCons, base + queue.released, bits);
      idx := BitAnd(words.consCachedCons, mask);
    }

    /** Entry k of the entries last peeked. */
    method EntryAt(idx: nat, k: nat) returns (v: T)
      requires Valid() && k < queue.seenProd - queue.released
      requires idx == (base + queue.released) % size
      ensures v == queue.sent[queue.released + k]
    {
      MaskedIndex(base + queue.released, k, bits);
      assert entries[..][(base + queue.released + k) % size] == Pending(queue, staged)[k];
      v := entries[BitAnd(Add32(idx, k), mask)];
    }

    method ConsRelease(n: nat)
      requires Valid() && n <= queue.seenProd - queue.released
      modifies this`words, this`queue
      ensures Valid() && queue == old(queue).Release(n)
    {
      ReleaseMatches(words, base, queue, n);
      HoldsRest(entries[..], base + queue.released, Pending(queue, staged), n);
      assert Pending(queue.Release(n), staged) == Pending(queue, staged)[n..];
      var c := Add32(words.consCachedCons, n);
      words := words.(consCachedCons := c, consumer := c);
      queue := queue.Release(n);
    }

    /** The producer loads the consumer's counter. */
    method RefreshProducer()
      requires Valid()
      modifies this`words, this`queue
      ensures Valid() && queue == old(queue).(seenCons := old(queue).released)
      ensures words.prodCachedProd < U32 && words.prodCachedCons < U32
      ensures Sub32(size, Sub32(words.prodCachedProd, words.prodCachedCons)) == queue.seenCons + size - |queue.sent|
    {
      ProducerReading(words, base, queue);
      assert Pending(queue.(seenCons := queue.released), staged) == Pending(queue, staged);
      words := words.(prodCachedCons := words.consumer);
      queue := queue.(seenCons := queue.released);
      ProducerReading(words, base, queue);
    }

    method ProdReserve(n: nat) returns (got: nat, idx: nat)
      requires Valid() && n < U32
      modifies this`words, this`queue
      ensures Valid()
      ensures queue == old(queue).Reserved(n) && got == old(queue).ReserveCount(n)
      ensures got > 0 ==> idx == (base + |queue.sent|) % size
    {
      ProducerReading(words, base, queue);
      var free := Sub32(size, Sub32(words.prodCachedProd, words.prodCachedCons));
      if free < n {
        RefreshProducer();
        free := Sub32(size, Sub32(words.prodCachedProd, words.prodCachedCons));
      }
      got := if free < n then 0 else n;
      MaskedCounter(words.prodCachedProd, base + |queue.sent|, bits);
      idx := BitAnd(words.prodCachedProd, mask);
    }

    /** Write reserved entry k.  No entry still in the queue is touched. */
    method Stage(idx: nat, k: nat, v: T)
      requires Valid() && k == |staged|
      requires idx == (base + |queue.sent|) % size
      requires |queue.sent| + k < queue.seenCons + size
      modifies this`staged, entries
      ensures Valid() && staged == old(staged) + [v]
    {
      ghost var slots, first, pending := entries[..], base + queue.released, Pending(queue, staged);
      MaskedIndex(base + |queue.sent|, k, bits);
      var slot := BitAnd(Add32(idx, k), mask);
      assert slot == (first + |pending|) % size;
      HoldsMore(slots, first, pending, v);
      assert Pending(queue, staged + [v]) == pending + [v];
      entries[slot] := v;
      assert entries[..] == slots[slot := v];
      staged := staged + [v];
    }

    method ProdSubmit(n: nat)
      requires Valid() && n <= |staged|
      modifies this`words, this`queue, this`staged
      ensures Valid()
      ensures queue == old(queue).Submit(old(staged)[..n]) && staged == old(staged)[n..]
    {
      SubmitMatches(words, base, queue, staged[..n]);
      assert Pending(queue.Submit(staged[..n]), staged[n..]) == Pending(queue, staged);
      var p := Add32(words.prodCachedProd, n);
      words := words.(prodCachedProd := p, producer := p);
      queue := queue.Submit(staged[..n]);
      staged := staged[n..];
    }
  }
}
