/** Several worker threads on one Store.  Every operation of the store holds the
    lock of its shard, so operations on one shard come one after the other, while
    those on different shards may overlap in time; a command with several keys is
    several operations. */
module SharedStore {
  import opened Options
  import opened FlatStore
  import opened ShardedStore

  datatype Op =
    | Get(key: string)
    | Set(key: string, value: string, expireAt: nat)
    | Del(key: string)
    | Exists(key: string)
    | Ttl(key: string)
    | Expire(key: string, seconds: nat)
    | Incr(key: string)

  datatype Answer = Stored | Value(value: Option<string>) | Number(number: int) | Counter(counter: Option<int>)

  /** One operation of some worker, and the clock readings it takes. */
  datatype Access = Access(op: Op, now1: nat, now2: nat)

  /** What the flat map answers, and becomes. */
  function Do(db: Db, a: Access): (Db, Answer) {
    var live, key := Purge(db, a.now1), a.op.key;
    match a.op
    case Get(_) => (live, Value(if key in live then Some(live[key].value) else None))
    case Set(_, value, expireAt) => (FlatStore.Set(live, key, Entry(value, expireAt)), Stored)
    case Del(_) => (Remove(live, key), Number(if key in live then 1 else 0))
    case Exists(_) => (live, Number(if key in live then 1 else 0))
    case Ttl(_) => (Purge(db, a.now2), Number(FlatStore.Ttl(Purge(db, a.now2), key, a.now2)))
    case Expire(_, seconds) =>
      var (db', n) := FlatStore.Expire(live, key, Deadline(a.now2, seconds * 1000));
      (db', Number(n))
    case Incr(_) =>
      var (db', n) := FlatStore.Incr(live, key);
      (db', Counter(n))
  }

  /** The same one after the other. */
  function Replay(db: Db, accesses: seq<Access>): (r: (Db, seq<Answer>))
    ensures |r.1| == |accesses|
  {
    if accesses == [] then (db, [])
    else
      var (before, answers) := Replay(db, accesses[..|accesses| - 1]);
      var (after, answer) := Do(before, accesses[|accesses| - 1]);
      (after, answers + [answer])
  }

  /** No operation overlaps another in time. */
  ghost predicate InTime(accesses: seq<Access>, clock: nat) {
    && (forall i :: 0 <= i < |accesses| ==> clock <= accesses[i].now1 <= accesses[i].now2)
    && (forall i, j :: 0 <= i < j < |accesses| ==> accesses[i].now2 <= accesses[j].now1)
  }

  /** Operations on one shard do not overlap; those on different ones may, in the
      order in which they are listed or the other way round. */
  ghost predicate InTimePerShard(accesses: seq<Access>, clock: nat) {
    && (forall i :: 0 <= i < |accesses| ==> clock <= accesses[i].now1 <= accesses[i].now2)
    && (forall i, j :: 0 <= i < j < |accesses| && ShardOf(accesses[i].op.key) == ShardOf(accesses[j].op.key) ==>
                         accesses[i].now2 <= accesses[j].now1)
  }

  method Perform(store: Store, a: Access) returns (answer: Answer)
    requires store.Valid() && store.clock <= a.now1 <= a.now2
    modifies store
    ensures store.Valid() && store.clock <= a.now2
    ensures (store.db, answer) == Do(old(store.db), a)
    ensures OnlyShardOf(a.op.key, old(store.shards), store.shards)
  {
    match a.op {
      case Get(key) =>
        var r := store.Get(key, a.now1);
        answer := Value(r);
      case Set(key, value, expireAt) =>
        store.Set(key, value, expireAt, a.now1);
        answer := Stored;
      case Del(key) =>
        var removed := store.DelOne(key, a.now1);
        answer := Number(if removed then 1 else 0);
      case Exists(key) =>
        var r := store.Exists(key, a.now1);
        answer := Number(if r then 1 else 0);
      case Ttl(key) =>
        var r := store.TtlSeconds(key, a.now1, a.now2);
        answer := Number(r);
      case Expire(key, seconds) =>
        var r := store.ExpireSeconds(key, seconds, a.now1, a.now2);
        answer := Number(r);
      case Incr(key) =>
        var r := store.Incr(key, a.now1);
        answer := Counter(r);
    }
  }

  /** However operations that do not overlap are interleaved, all of them are
      answered as the flat map answers them in that order. */
  method ServeInOrder(store: Store, accesses: seq<Access>) returns (answers: seq<Answer>)
    requires store.Valid() && InTime(accesses, store.clock)
    modifies store
    ensures store.Valid() && (store.db, answers) == Replay(old(store.db), accesses)
  {
    answers := [];
    ghost var db := store.db;
    for i := 0 to |accesses|
      invariant store.Valid() && (store.db, answers) == Replay(db, accesses[..i])
      invariant forall j :: i <= j < |accesses| ==> store.clock <= accesses[j].now1
    {
      assert accesses[..i + 1][..i] == accesses[..i] && accesses[..i + 1][i] == accesses[i];
      var answer := Perform(store, accesses[i]);
      answers := answers + [answer];
    }
    assert accesses[..|accesses|] == accesses;
  }

  // ---------- keys do not see each other ----------

  /** The operations on one key, in order. */
  function Only(accesses: seq<Access>, key: string): seq<Access> {
    if accesses == [] then []
    else
      var last := accesses[|accesses| - 1];
      Only(accesses[..|accesses| - 1], key) + if last.op.key == key then [last] else []
  }

  /** The answers to them. */
  function AnswersOf(accesses: seq<Access>, answers: seq<Answer>, key: string): seq<Answer>
    requires |answers| == |accesses|
  {
    if accesses == [] then []
    else
      var n := |accesses| - 1;
      AnswersOf(accesses[..n], answers[..n], key) + if accesses[n].op.key == key then [answers[n]] else []
  }

  lemma SameKey(db: Db, db': Db, a: Access, clock: nat)
    requires View(db, a.op.key, clock) == View(db', a.op.key, clock) && clock <= a.now1 <= a.now2
    ensures Do(db, a).1 == Do(db', a).1
    ensures View(Do(db, a).0, a.op.key, a.now2) == View(Do(db', a).0, a.op.key, a.now2)
  {
  }

  lemma OtherKey(db: Db, db': Db, a: Access, key: string, clock: nat)
    requires View(db, key, clock) == View(db', key, clock) && clock <= a.now1 <= a.now2 && a.op.key != key
    ensures View(Do(db, a).0, key, a.now2) == View(db', key, a.now2)
  {
  }

  /** Up to `end`, the operations on a key were answered as if they were alone,
      and have left the same under it. */
  ghost predicate Alone(db: Db, accesses: seq<Access>, key: string, end: nat) {
    var all, own := Replay(db, accesses), Replay(db, Only(accesses, key));
    AnswersOf(accesses, all.1, key) == own.1 && View(all.0, key, end) == View(own.0, key, end)
  }

  lemma {:induction false} AloneNext(db: Db, init: seq<Access>, a: Access, key: string, clock: nat)
    requires Alone(db, init, key, clock) && clock <= a.now1 <= a.now2
    ensures Alone(db, init + [a], key, a.now2)
  {
    var d, d' := Replay(db, init).0, Replay(db, Only(init, key)).0;
    OneMore(db, init, a, key);
    if a.op.key == key { SameKey(d, d', a, clock); } else { OtherKey(d, d', a, key, clock); }
  }

  /** On the flat map, the answers to the operations on a key are the answers to
      these alone, whatever is done with other keys in between. */
  lemma {:induction false} KeysAreIndependent(db: Db, accesses: seq<Access>, key: string, clock: nat)
    requires InTime(accesses, clock)
    ensures Alone(db, accesses, key, EndOf(accesses, clock))
  {
    if accesses == [] {
      AloneAtFirst(db, key, clock);
    } else {
      var n := |accesses| - 1;
      var init, a := accesses[..n], accesses[n];
      assert accesses == init + [a];
      KeysAreIndependent(db, init, key, clock);
      assert EndOf(init, clock) <= a.now1;
      AloneNext(db, init, a, key, EndOf(init, clock));
    }
  }

  function EndOf(accesses: seq<Access>, clock: nat): nat {
    if accesses == [] then clock else accesses[|accesses| - 1].now2
  }

  lemma AloneAtFirst(db: Db, key: string, clock: nat)
    ensures Alone(db, [], key, clock)
  {
  }

  lemma {:induction false} OneMore(db: Db, init: seq<Access>, a: Access, key: string)
    ensures var all, own := Replay(db, init), Replay(db, Only(init, key));
            && Replay(db, init + [a]) == (Do(all.0, a).0, all.1 + [Do(all.0, a).1])
            && AnswersOf(init + [a], Replay(db, init + [a]).1, key)
               == AnswersOf(init, all.1, key) + (if a.op.key == key then [Do(all.0, a).1] else [])
            && Replay(db, Only(init + [a], key))
               == if a.op.key == key then (Do(own.0, a).0, own.1 + [Do(own.0, a).1]) else own
  {
    var n, all := |init|, Replay(db, init);
    ReplayNext(db, init, a);
    assert (init + [a])[..n] == init && (all.1 + [Do(all.0, a).1])[..n] == all.1;
    var own := Only(init, key);
    assert Only(init + [a], key) == own + if a.op.key == key then [a] else [];
    if a.op.key == key { ReplayNext(db, own, a); } else { assert own + [] == own; }
  }

  lemma {:induction false} ReplayNext(db: Db, init: seq<Access>, a: Access)
    ensures var all := Replay(db, init);
            Replay(db, init + [a]) == (Do(all.0, a).0, all.1 + [Do(all.0, a).1])
  {
    assert (init + [a])[..|init|] == init;
  }

  // ---------- operations that overlap ----------

  /** When shard s was used last. */
  function LastOn(accesses: seq<Access>, s: nat, clock: nat): nat {
    if accesses == [] then clock
    else
      var last := accesses[|accesses| - 1];
      if ShardOf(last.op.key) == s then last.now2 else LastOn(accesses[..|accesses| - 1], s, clock)
  }

  /** The operations on a key were answered as the flat map answers them alone,
      and its shard holds under it what they leave. */
  ghost predicate AloneIn(shards: seq<Db>, db: Db, accesses: seq<Access>, answers: seq<Answer>, key: string,
                          clock: nat) {
    && |shards| == SHARDS && |answers| == |accesses|
    && AnswersOf(accesses, answers, key) == Replay(db, Only(accesses, key)).1
    && var t := LastOn(accesses, ShardOf(key), clock);
       View(shards[ShardOf(key)], key, t) == View(Replay(db, Only(accesses, key)).0, key, t)
  }

  ghost predicate EveryKeyAlone(shards: seq<Db>, db: Db, accesses: seq<Access>, answers: seq<Answer>, clock: nat) {
    forall key :: AloneIn(shards, db, accesses, answers, key, clock)
  }

  /** What one operation does to the shards: to its own what it does to a flat
      map of all they hold, to the others nothing. */
  ghost predicate ShardStep(shards: seq<Db>, shards': seq<Db>, a: Access, answer: Answer) {
    && |shards| == SHARDS && OnlyShardOf(a.op.key, shards, shards')
    && answer == Do(Merged(shards), a).1
    && forall k :: ShardOf(k) == ShardOf(a.op.key) ==>
         View(shards'[ShardOf(k)], k, a.now2) == View(Do(Merged(shards), a).0, k, a.now2)
  }

  lemma ViewLater(m: Db, m': Db, key: string, now: nat, later: nat)
    requires View(m, key, now) == View(m', key, now) && now <= later
    ensures View(m, key, later) == View(m', key, later)
  {
  }

  /** An operation whose clock readings may lie before those of operations on
      other shards. */
  method PerformAnyTime(store: Store, a: Access) returns (answer: Answer)
    requires store.Valid() && a.now1 <= a.now2
    modifies store
    ensures store.Valid() && ShardStep(old(store.shards), store.shards, a, answer)
  {
    store.Restart();
    answer := Perform(store, a);
    forall k | ShardOf(k) == ShardOf(a.op.key)
      ensures View(store.shards[ShardOf(k)], k, a.now2) == View(store.db, k, a.now2)
    {
      ViewLater(store.shards[ShardOf(k)], store.db, k, store.clock, a.now2);
    }
  }

  lemma {:induction false} AloneInNext(shards: seq<Db>, shards': seq<Db>, db: Db, init: seq<Access>,
                                       answers: seq<Answer>, a: Access, answer: Answer, key: string, clock: nat)
    requires AloneIn(shards, db, init, answers, key, clock) && ShardStep(shards, shards', a, answer)
    requires ShardOf(key) == ShardOf(a.op.key) ==> LastOn(init, ShardOf(key), clock) <= a.now1 <= a.now2
    ensures AloneIn(shards', db, init + [a], answers + [answer], key, clock)
  {
    var own := Only(init, key);
    var d, t := Replay(db, own).0, LastOn(init, ShardOf(key), clock);
    assert (init + [a])[..|init|] == init && (answers + [answer])[..|init|] == answers;
    MergedView(shards, key, t);
    if a.op.key == key {
      ReplayNext(db, own, a);
      SameKey(Merged(shards), d, a, t);
    } else {
      assert own + [] == own;
      if ShardOf(key) == ShardOf(a.op.key) { OtherKey(Merged(shards), d, a, key, t); }
    }
  }

  lemma {:induction false} EveryKeyNext(shards: seq<Db>, shards': seq<Db>, db: Db, init: seq<Access>,
                                        answers: seq<Answer>, a: Access, answer: Answer, clock: nat)
    requires EveryKeyAlone(shards, db, init, answers, clock) && ShardStep(shards, shards', a, answer)
    requires LastOn(init, ShardOf(a.op.key), clock) <= a.now1 <= a.now2
    ensures EveryKeyAlone(shards', db, init + [a], answers + [answer], clock)
  {
    var init', answers' := init + [a], answers + [answer];
    forall key ensures AloneIn(shards', db, init', answers', key, clock) {
      AloneInNext(shards, shards', db, init, answers, a, answer, key, clock);
    }
  }

  lemma {:induction false} LastOnBefore(accesses: seq<Access>, n: nat, i: nat, s: nat, clock: nat)
    requires InTimePerShard(accesses, clock) && n <= i < |accesses| && ShardOf(accesses[i].op.key) == s
    ensures LastOn(accesses[..n], s, clock) <= accesses[i].now1
  {
    if n > 0 {
      assert accesses[..n][..n - 1] == accesses[..n - 1];
      LastOnBefore(accesses, n - 1, i, s, clock);
    }
  }

  /** The workers' operations, in the order in which they let go of their shard:
      every key's operations are answered as the flat map answers them alone. */
  method Serve(store: Store, accesses: seq<Access>) returns (answers: seq<Answer>)
    requires store.Valid() && InTimePerShard(accesses, store.clock)
    modifies store
    ensures store.Valid()
    ensures EveryKeyAlone(store.shards, old(store.db), accesses, answers, old(store.clock))
  {
    answers := [];
    ghost var db, clock := store.db, store.clock;
    for i := 0 to |accesses|
      invariant store.Valid()
      invariant EveryKeyAlone(store.shards, db, accesses[..i], answers, clock)
    {
      ghost var shards, before := store.shards, answers;
      var a := accesses[i];
      var answer := PerformAnyTime(store, a);
      answers := answers + [answer];
      assert accesses[..i] + [a] == accesses[..i + 1];
      LastOnBefore(accesses, i, i, ShardOf(a.op.key), clock);
      EveryKeyNext(shards, store.shards, db, accesses[..i], before, a, answer, clock);
    }
    assert accesses[..|accesses|] == accesses;
  }
}
