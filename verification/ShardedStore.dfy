/** The Store class of mini_redis_server.cpp: 256 maps chosen by a hash of the
    key, from which an expired entry is erased only when somebody meets it. */
module ShardedStore {
  import opened Options
  import opened MachineWords
  import opened FlatStore

  const SHARDS: nat := 256

  function Fnv1a(key: string): (h: nat)
    ensures h < U64
  {
    if key == "" then 1469598103934665603
    else BitXor(Fnv1a(key[..|key| - 1]), key[|key| - 1] as int % 256) * 1099511628211 % U64
  }

  function ShardOf(key: string): (i: nat)
    ensures i < SHARDS
  {
    assert Pow2(8) == SHARDS by { assert Pow2(4) == 16; }
    MaskIsMod(Fnv1a(key), 8);
    BitAnd(Fnv1a(key), SHARDS - 1)
  }

  /** Only the shard of that key has changed. */
  ghost predicate OnlyShardOf(key: string, shards: seq<Db>, shards': seq<Db>) {
    |shards| == |shards'| && forall i :: 0 <= i < |shards| && i != ShardOf(key) ==> shards'[i] == shards[i]
  }

  function AllKeys(shards: seq<Db>): set<string> { set i, k | 0 <= i < |shards| && k in shards[i] :: k }

  /** All that is in the shards, expired or not, as one map. */
  function Merged(shards: seq<Db>): Db
    requires |shards| == SHARDS
  {
    map k | k in AllKeys(shards) && k in shards[ShardOf(k)] :: shards[ShardOf(k)][k]
  }

  lemma MergedView(shards: seq<Db>, key: string, now: nat)
    requires |shards| == SHARDS
    ensures View(Merged(shards), key, now) == View(shards[ShardOf(key)], key, now)
  {
    if key in shards[ShardOf(key)] { assert key in AllKeys(shards); }
  }

  class Store {
    var shards: seq<Db>
    ghost var db: Db       // the flat map this store stands for
    ghost var clock: nat   // the latest clock reading used

    /** At the latest reading, every key looks the same as in the flat map. */
    ghost predicate Valid()
      reads this
    {
      && |shards| == SHARDS
      && forall k :: View(shards[ShardOf(k)], k, clock) == View(db, k, clock)
    }

    constructor ()
      ensures Valid() && db == map[] && clock == 0
    {
      shards := seq(SHARDS, _ => map[]);
      db, clock := map[], 0;
    }

    /** Time passes: what has expired meanwhile is gone on both sides. */
    ghost method Advance(now: nat)
      requires Valid() && clock <= now
      modifies this`db, this`clock
      ensures Valid() && clock == now && db == Purge(old(db), now)
      ensures forall k :: View(shards[ShardOf(k)], k, now) == if k in db then Some(db[k]) else None
    {
      forall k ensures View(shards[ShardOf(k)], k, now) == View(db, k, now) {
        assert View(shards[ShardOf(k)], k, clock) == View(db, k, clock);
      }
      clock, db := now, Purge(db, now);
    }

    /** The flat map is taken to be what the shards hold, and the clock to start anew. */
    ghost method Restart()
      requires Valid()
      modifies this`db, this`clock
      ensures Valid() && clock == 0 && db == Merged(shards)
    {
      db, clock := Merged(shards), 0;
      forall k ensures View(shards[ShardOf(k)], k, 0) == View(db, k, 0) { MergedView(shards, k, 0); }
    }

    /** Look key up in its shard; an expired entry met on the way is erased. */
    method Find(key: string, now: nat) returns (r: Option<Entry>)
      requires Valid() && clock <= now
      modifies this
      ensures Valid() && clock == now && db == Purge(old(db), now)
      ensures r == if key in db then Some(db[key]) else None
      ensures key in db <==> key in shards[ShardOf(key)]
      ensures key in db ==> shards[ShardOf(key)][key] == db[key]
      ensures OnlyShardOf(key, old(shards), shards)
    {
      Advance(now);
      var i := ShardOf(key);
      if key !in shards[i] { return None; }
      var e := shards[i][key];
      assert View(shards[i], key, now) == if key in db then Some(db[key]) else None;
      if e.expireAt != 0 && e.expireAt <= now {
        EraseExpired(key);
        return None;
      }
      r := Some(e);
    }

    /** Erasing an entry that has expired changes nothing anybody can see. */
    method EraseExpired(key: string)
      requires Valid() && View(db, key, clock) == None
      modifies this`shards
      ensures Valid() && key !in shards[ShardOf(key)]
      ensures OnlyShardOf(key, old(shards), shards)
    {
      var i := ShardOf(key);
      shards := shards[i := shards[i] - {key}];
    }

    /** Store e under key in its shard, as `sh.map[key] = e` does. */
    method Put(key: string, e: Entry)
      requires Valid()
      modifies this`shards, this`db
      ensures Valid() && db == FlatStore.Set(old(db), key, e)
      ensures OnlyShardOf(key, old(shards), shards)
    {
      var i := ShardOf(key);
      shards := shards[i := shards[i][key := e]];
      db := FlatStore.Set(db, key, e);
    }

    method Get(key: string, now: nat) returns (r: Option<string>)
      requires Valid() && clock <= now
      modifies this
      ensures Valid() && clock == now && db == Purge(old(db), now)
      ensures r == if key in db then Some(db[key].value) else None
      ensures OnlyShardOf(key, old(shards), shards)
    {
      var e := Find(key, now);
      r := if e.None? then None else Some(e.value.value);
    }

    method Set(key: string, value: string, expireAt: nat, ghost now: nat)
      requires Valid() && clock <= now
      modifies this
      ensures Valid() && clock == now
      ensures db == FlatStore.Set(Purge(old(db), now), key, Entry(value, expireAt))
      ensures OnlyShardOf(key, old(shards), shards)
    {
      Advance(now);
      Put(key, Entry(value, expireAt));
    }

    method DelOne(key: string, now: nat) returns (removed: bool)
      requires Valid() && clock <= now
      modifies this
      ensures Valid() && clock == now && db == Remove(Purge(old(db), now), key)
      ensures removed <==> key in Purge(old(db), now)
      ensures OnlyShardOf(key, old(shards), shards)
    {
      var e := Find(key, now);
      if e.None? { return false; }
      var i := ShardOf(key);
      shards := shards[i := shards[i] - {key}];
      db := Remove(db, key);
      removed := true;
    }

    method Del(keys: seq<string>, start: nat, ts: seq<nat>) returns (removed: nat)
      requires Valid() && Readings(ts, |keys|) && clock <= ts[0] && start <= |keys|
      modifies this
      ensures Valid() && clock <= ts[|ts| - 1]
      ensures (db, removed) == DelKeys(old(db), ts, keys, start)
    {
      removed := 0;
      for i := start to |keys|
        invariant Valid() && clock <= ts[i]
        invariant var (d, n) := DelKeys(db, ts, keys, i);
                  DelKeys(old(db), ts, keys, start) == (d, removed + n)
      {
        var one := DelOne(keys[i], ts[i]);
        removed := removed + if one then 1 else 0;
      }
    }

    method Exists(key: string, now: nat) returns (r: bool)
      requires Valid() && clock <= now
      modifies this
      ensures Valid() && clock == now && db == Purge(old(db), now)
      ensures r <==> key in db
      ensures OnlyShardOf(key, old(shards), shards)
    {
      var e := Find(key, now);
      r := e.Some?;
    }

    method TtlSeconds(key: string, now1: nat, now2: nat) returns (r: int)
      requires Valid() && clock <= now1 <= now2
      modifies this
      ensures Valid() && clock == now2 && db == Purge(old(db), now2)
      ensures r == Ttl(db, key, now2)
      ensures OnlyShardOf(key, old(shards), shards)
    {
      var e := Find(key, now1);
      ghost var live := db;
      Advance(now2);
      assert Purge(live, now2) == Purge(old(db), now2);
      if e.None? { return -2; }
      if e.value.expireAt == 0 { return -1; }
      if e.value.expireAt <= now2 {
        EraseExpired(key);
        return -2;
      }
      r := (e.value.expireAt - now2) / 1000;
    }

    method ExpireSeconds(key: string, seconds: nat, now1: nat, now2: nat) returns (r: int)
      requires Valid() && clock <= now1 <= now2
      modifies this
      ensures Valid() && clock == now1
      ensures (db, r) == Expire(Purge(old(db), now1), key, Deadline(now2, seconds * 1000))
      ensures OnlyShardOf(key, old(shards), shards)
    {
      var e := Find(key, now1);
      if e.None? { return 0; }
      Put(key, e.value.(expireAt := Deadline(now2, seconds * 1000)));
      r := 1;
    }

    method Incr(key: string, now: nat) returns (r: Option<int>)
      requires Valid() && clock <= now
      modifies this
      ensures Valid() && clock == now
      ensures (db, r) == FlatStore.Incr(Purge(old(db), now), key)
      ensures OnlyShardOf(key, old(shards), shards)
    {
      var e := Find(key, now);
      var cur, expireAt := 0, 0;
      if e.Some? {
        expireAt := e.value.expireAt;
        var v := ParseLl(e.value.value);
        if v.None? { return None; }
        cur := v.value;
      }
      var next := cur + 1;
      Put(key, Entry(ToString(next), expireAt));
      r := Some(next);
    }

    /** EXISTS key...: the loop of dispatch. */
    method CountExisting(args: seq<string>, ts: seq<nat>) returns (count: nat)
      requires Valid() && Readings(ts, |args|) && clock <= ts[0] && |args| > 0
      modifies this
      ensures Valid() && clock <= ts[|ts| - 1]
      ensures (db, count) == CountKeys(old(db), ts, args, 1)
    {
      count := 0;
      for i := 1 to |args|
        invariant Valid() && clock <= ts[i]
        invariant var (d, n) := CountKeys(db, ts, args, i);
                  CountKeys(old(db), ts, args, 1) == (d, count + n)
      {
        var one := Exists(args[i], ts[i]);
        if one { count := count + 1; }
      }
    }

    method DispatchSet(args: seq<string>, ts: seq<nat>) returns (reply: string)
      requires Valid() && args != [] && Readings(ts, |args|) && clock <= ts[0] && Upper(args[0]) == "SET"
      modifies this
      ensures Valid() && clock <= ts[|ts| - 1]
      ensures (db, reply) == Exec(old(db), ts, args)
    {
      if |args| < 3 { return WrongArgs("set"); }
      if |args| != 3 && |args| != 5 { return Failure("ERR syntax error"); }
      if |args[2]| > MAX_VALUE { return Failure(TOO_LARGE); }
      var expireAt := 0;
      if |args| == 5 {
        var opt := Upper(args[3]);
        var t := StrToLl(args[4]);
        if args[4] == "" || t.None? || t.value <= 0 { return Failure(NOT_INTEGER); }
        if opt == "EX" {
          expireAt := Deadline(ts[0], t.value * 1000);
        } else if opt == "PX" {
          expireAt := Deadline(ts[0], t.value);
        } else {
          return Failure("ERR syntax error");
        }
      }
      Set(args[1], args[2], expireAt, ts[0]);
      reply := Simple("OK");
    }

    /** Every command answers exactly as the flat map would. */
    method Dispatch(args: seq<string>, ts: seq<nat>) returns (reply: string)
      requires Valid() && args != [] && Readings(ts, |args|) && clock <= ts[0]
      modifies this
      ensures Valid() && clock <= ts[|ts| - 1]
      ensures (db, reply) == Exec(old(db), ts, args)
    {
      var cmd := Upper(args[0]);
      if cmd == "PING" {
        if |args| == 1 { return Simple("PONG"); }
        if |args| == 2 { return BulkReply(args[1]); }
        return WrongArgs("ping");
      }
      if cmd == "ECHO" {
        if |args| != 2 { return WrongArgs("echo"); }
        return BulkReply(args[1]);
      }
      if cmd == "GET" {
        if |args| != 2 { return WrongArgs("get"); }
        var v := Get(args[1], ts[0]);
        return if v.None? then NULL_BULK else BulkReply(v.value);
      }
      if cmd == "SET" {
        reply := DispatchSet(args, ts);
        return;
      }
      if cmd == "DEL" {
        if |args| < 2 { return WrongArgs("del"); }
        var removed := Del(args, 1, ts);
        return Integer(removed);
      }
      if cmd == "EXISTS" {
        if |args| < 2 { return WrongArgs("exists"); }
        var count := CountExisting(args, ts);
        return Integer(count);
      }
      if cmd == "INCR" {
        if |args| != 2 { return WrongArgs("incr"); }
        var v := Incr(args[1], ts[0]);
        return if v.None? then Failure(NOT_INTEGER) else Integer(v.value);
      }
      if cmd == "EXPIRE" {
        if |args| != 3 { return WrongArgs("expire"); }
        var sec := StrToLl(args[2]);
        if sec.None? || sec.value < 0 { return Failure(NOT_INTEGER); }
        var n := ExpireSeconds(args[1], sec.value, ts[0], ts[1]);
        return Integer(n);
      }
      if cmd == "TTL" {
        if |args| != 2 { return WrongArgs("ttl"); }
        var n := TtlSeconds(args[1], ts[0], ts[1]);
        return Integer(n);
      }
      if cmd == "QUIT" {
        if |args| != 1 { return WrongArgs("quit"); }
        return Simple("OK");
      }
      reply := Failure("ERR unknown command");
    }
  }
}
