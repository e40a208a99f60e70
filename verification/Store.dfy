/** The commands of mini_redis_server.cpp against a reference: one flat map in
    which a key that has expired does not exist. */
module FlatStore {
  import opened Options
  import opened Decimal

  const U64: nat := 0x1_0000_0000_0000_0000
  const MAX_LL: int := 0x7FFF_FFFF_FFFF_FFFF
  const MIN_LL: int := -0x8000_0000_0000_0000

  /** expireAt is in milliseconds; 0 stands for no expiry. */
  datatype Entry = Entry(value: string, expireAt: nat)

  type Db = map<string, Entry>

  predicate Live(e: Entry, now: nat) { e.expireAt == 0 || now < e.expireAt }

  /** What a reader at time `now` may find under key. */
  function View(m: Db, key: string, now: nat): Option<Entry> {
    if key in m && Live(m[key], now) then Some(m[key]) else None
  }

  /** The flat map at time `now`: nothing in it has expired. */
  function Purge(m: Db, now: nat): Db {
    map k | k in m && Live(m[k], now) :: m[k]
  }

  lemma PurgedView(m: Db, key: string, now: nat, later: nat)
    requires now <= later
    ensures View(Purge(m, now), key, later) == View(m, key, later)
  {
  }

  // ---------- the reference operations, on a purged map ----------

  function Set(live: Db, key: string, e: Entry): Db { live[key := e] }

  function Remove(live: Db, key: string): Db { live - {key} }

  function Ttl(live: Db, key: string, now: nat): int {
    if key !in live then -2
    else if live[key].expireAt == 0 then -1
    else (live[key].expireAt - now) / 1000
  }

  /** now + ms in unsigned 64-bit arithmetic. */
  function Deadline(now: nat, ms: nat): nat { (now + ms) % U64 }

  function Expire(live: Db, key: string, at: nat): (Db, int) {
    if key in live then (live[key := live[key].(expireAt := at)], 1) else (live, 0)
  }

  function Incr(live: Db, key: string): (Db, Option<int>) {
    if key !in live then (live[key := Entry(ToString(1), 0)], Some(1))
    else
      match ParseLl(live[key].value)
      case None => (live, None)
      case Some(cur) => (live[key := live[key].(value := ToString(cur + 1))], Some(cur + 1))
  }

  /** std::to_string */
  function ToString(v: int): string {
    if v < 0 then "-" + Dec(-v) else Dec(v)
  }

  predicate IsSpace(c: char) { c == ' ' || '\t' <= c <= '\r' }

  function CStr(s: string): string {
    if s == "" || s[0] == '\0' then "" else [s[0]] + CStr(s[1..])
  }

  function TrimSpaces(s: string): string {
    if s != "" && IsSpace(s[0]) then TrimSpaces(s[1..]) else s
  }

  /** strtoll to the very end of the C string, without a range error. */
  function StrToLl(s: string): Option<int> {
    var c := CStr(s);
    if c == "" then Some(0)
    else
      var t := TrimSpaces(c);
      var neg := t != "" && t[0] == '-';
      var digits := if t != "" && (t[0] == '-' || t[0] == '+') then t[1..] else t;
      if digits == "" || !AllDigits(digits) then None
      else
        var v := if neg then -(Value(digits) as int) else Value(digits);
        if MIN_LL <= v <= MAX_LL then Some(v) else None
  }

  function ParseLl(s: string): Option<int> {
    if s == "" then None else StrToLl(s)
  }

  // ---------- replies ----------

  function Simple(s: string): string { "+" + s + "\r\n" }

  function Failure(s: string): string { "-" + s + "\r\n" }

  function Integer(v: int): string { ":" + ToString(v) + "\r\n" }

  function BulkReply(s: string): string { "$" + Dec(|s|) + "\r\n" + s + "\r\n" }

  const NULL_BULK := "$-1\r\n"

  function WrongArgs(name: string): string {
    Failure("ERR wrong number of arguments for '" + name + "' command")
  }

  const NOT_INTEGER := "ERR value is not an integer or out of range"
  const TOO_LARGE := "ERR value too large (max 4096 bytes)"
  const MAX_VALUE: nat := 4096

  function UpperChar(c: char): char {
    if 'a' <= c <= 'z' then (c as int - 'a' as int + 'A' as int) as char else c
  }

  function Upper(s: string): string {
    seq(|s|, i requires 0 <= i < |s| => UpperChar(s[i]))
  }

  // ---------- one command on the flat map ----------

  /** The clock readings available to one command, in order: never decreasing,
      and one for each word of the command besides the first. */
  ghost predicate Readings(ts: seq<nat>, n: nat) {
    && |ts| > n
    && forall i, j :: 0 <= i <= j < |ts| ==> ts[i] <= ts[j]
  }

  /** DEL from word i on. */
  ghost function DelKeys(db: Db, ts: seq<nat>, args: seq<string>, i: nat): (Db, nat)
    requires |ts| > |args|
    decreases |args| - i
  {
    if i >= |args| then (db, 0)
    else
      var live := Purge(db, ts[i]);
      var (db', n) := DelKeys(Remove(live, args[i]), ts, args, i + 1);
      (db', n + if args[i] in live then 1 else 0)
  }

  /** EXISTS from word i on. */
  ghost function CountKeys(db: Db, ts: seq<nat>, args: seq<string>, i: nat): (Db, nat)
    requires |ts| > |args|
    decreases |args| - i
  {
    if i >= |args| then (db, 0)
    else
      var live := Purge(db, ts[i]);
      var (db', n) := CountKeys(live, ts, args, i + 1);
      (db', n + if args[i] in live then 1 else 0)
  }

  /** The expiry SET asks for, or the error it is answered with. */
  datatype SetExpiry = At(at: nat) | Refused(reply: string)

  ghost function ExpiryOf(args: seq<string>, now: nat): SetExpiry
    requires |args| == 3 || |args| == 5
  {
    if |args| == 3 then At(0)
    else
      var t := StrToLl(args[4]);
      if args[4] == "" || t.None? || t.value <= 0 then Refused(Failure(NOT_INTEGER))
      else if Upper(args[3]) == "EX" then At(Deadline(now, t.value * 1000))
      else if Upper(args[3]) == "PX" then At(Deadline(now, t.value))
      else Refused(Failure("ERR syntax error"))
  }

  /** The reply to a command, and the map after it. */
  ghost function Exec(db: Db, ts: seq<nat>, args: seq<string>): (Db, string)
    requires args != [] && Readings(ts, |args|)
  {
    var cmd := Upper(args[0]);
    var live := Purge(db, ts[0]);
    if cmd == "PING" then
      (db, if |args| == 1 then Simple("PONG") else if |args| == 2 then BulkReply(args[1]) else WrongArgs("ping"))
    else if cmd == "ECHO" then
      (db, if |args| != 2 then WrongArgs("echo") else BulkReply(args[1]))
    else if cmd == "GET" then
      if |args| != 2 then (db, WrongArgs("get"))
      else (live, if args[1] in live then BulkReply(live[args[1]].value) else NULL_BULK)
    else if cmd == "SET" then
      if |args| < 3 then (db, WrongArgs("set"))
      else if |args| != 3 && |args| != 5 then (db, Failure("ERR syntax error"))
      else if |args[2]| > MAX_VALUE then (db, Failure(TOO_LARGE))
      else
        match ExpiryOf(args, ts[0])
        case Refused(reply) => (db, reply)
        case At(at) => (Set(live, args[1], Entry(args[2], at)), Simple("OK"))
    else if cmd == "DEL" then
      if |args| < 2 then (db, WrongArgs("del"))
      else var (db', n) := DelKeys(db, ts, args, 1); (db', Integer(n))
    else if cmd == "EXISTS" then
      if |args| < 2 then (db, WrongArgs("exists"))
      else var (db', n) := CountKeys(db, ts, args, 1); (db', Integer(n))
    else if cmd == "INCR" then
      if |args| != 2 then (db, WrongArgs("incr"))
      else
        var (db', r) := Incr(live, args[1]);
        (db', if r.None? then Failure(NOT_INTEGER) else Integer(r.value))
    else if cmd == "EXPIRE" then
      if |args| != 3 then (db, WrongArgs("expire"))
      else
        var sec := StrToLl(args[2]);
        if sec.None? || sec.value < 0 then (db, Failure(NOT_INTEGER))
        else
          var (db', n) := Expire(live, args[1], Deadline(ts[1], sec.value * 1000));
          (db', Integer(n))
    else if cmd == "TTL" then
      if |args| != 2 then (db, WrongArgs("ttl"))
      else
        var live' := Purge(db, ts[1]);
        (live', Integer(Ttl(live', args[1], ts[1])))
    else if cmd == "QUIT" then
      (db, if |args| != 1 then WrongArgs("quit") else Simple("OK"))
    else
      (db, Failure("ERR unknown command"))
  }

  /** Every command is answered. */
  lemma ExecReplies(db: Db, ts: seq<nat>, args: seq<string>)
    requires args != [] && Readings(ts, |args|)
    ensures Exec(db, ts, args).1 != ""
  {
  }

  // ---------- when a 64-bit deadline is the deadline asked for ----------

  /** An entry with this stored deadline is readable, at every 64-bit time from
      `now` on, exactly until the true deadline. */
  ghost predicate KeepsDeadline(now: nat, ms: nat) {
    forall t: nat :: now <= t < U64 ==> (Live(Entry("", Deadline(now, ms)), t) <==> t < now + ms)
  }

  /** The zero-means-never encoding and the 64-bit sum are right exactly when
      the sum is not zero and either fits 64 bits or wraps to exactly zero. */
  lemma DeadlineExactly(now: nat, ms: nat)
    requires now < U64
    ensures KeepsDeadline(now, ms) <==> now + ms > 0 && (now + ms < U64 || (now + ms) % U64 == 0)
  {
    var d := Deadline(now, ms);
    if now + ms == 0 {
      assert Live(Entry("", d), 0);
    } else if now + ms >= U64 && d != 0 {
      var t := if d < now then now else d;
      assert now <= t < U64 && !Live(Entry("", d), t) && t < now + ms;
    }
  }

  lemma StrToLlOfDec(n: nat)
    requires n <= MAX_LL
    ensures StrToLl(Dec(n)) == Some(n)
  {
    var s := Dec(n);
    CStrOfDigits(s);
    assert IsDigit(s[0]) && TrimSpaces(s) == s;
    ValueOfDec(n);
  }

  lemma {:induction false} CStrOfDigits(s: string)
    requires AllDigits(s)
    ensures CStr(s) == s
  {
    if s != "" {
      assert IsDigit(s[0]);
      CStrOfDigits(s[1..]);
    }
  }

  /** `SET key value EX seconds`, then `GET key`: the value is there as long as
      the stored 64-bit deadline lies ahead. */
  lemma SetThenGet(db: Db, ts: seq<nat>, key: string, value: string, seconds: nat, ts': seq<nat>)
    requires |value| <= MAX_VALUE && 0 < seconds <= MAX_LL
    requires Readings(ts, 5) && Readings(ts', 2)
    ensures var after := Exec(db, ts, ["SET", key, value, "EX", Dec(seconds)]);
            && after.1 == Simple("OK")
            && Exec(after.0, ts', ["GET", key]).1
               == if Live(Entry(value, Deadline(ts[0], seconds * 1000)), ts'[0]) then BulkReply(value) else NULL_BULK
  {
    var args := ["SET", key, value, "EX", Dec(seconds)];
    StrToLlOfDec(seconds);
    assert Upper("SET") == "SET" && Upper("EX") == "EX" && Upper("GET") == "GET";
    assert ExpiryOf(args, ts[0]) == At(Deadline(ts[0], seconds * 1000));
  }

  /** The time to live wraps: the key is gone d milliseconds after it was set. */
  lemma WrappedExpiryIsShort(db: Db, ts: seq<nat>, key: string, value: string, seconds: nat, d: nat, ts': seq<nat>)
    requires |value| <= MAX_VALUE && seconds <= MAX_LL && Readings(ts, 5) && Readings(ts', 2)
    requires seconds * 1000 == U64 + d && 0 < ts[0] + d < U64 && ts'[0] >= ts[0] + d
    ensures Exec(AfterSetEx(db, ts, key, value, seconds), ts', ["GET", key]).1 == NULL_BULK
  {
    SetThenGet(db, ts, key, value, seconds, ts');
    assert Deadline(ts[0], seconds * 1000) == ts[0] + d;
  }

  /** So it is with `EX 18446744073709552`, half a billion years: 384
      milliseconds later the answer is that there is no such key. */
  lemma HugeExpiryIsShort(db: Db, ts: seq<nat>, key: string, value: string, ts': seq<nat>)
    requires |value| <= MAX_VALUE && Readings(ts, 5) && Readings(ts', 2)
    requires ts[0] + 384 < U64 && ts'[0] >= ts[0] + 384
    ensures Exec(AfterSetEx(db, ts, key, value, 18446744073709552), ts', ["GET", key]).1 == NULL_BULK
  {
    WrappedExpiryIsShort(db, ts, key, value, 18446744073709552, 384, ts');
  }

  /** The map after `SET key value EX seconds`. */
  ghost function AfterSetEx(db: Db, ts: seq<nat>, key: string, value: string, seconds: nat): Db
    requires Readings(ts, 5)
  {
    Exec(db, ts, ["SET", key, value, "EX", Dec(seconds)]).0
  }

  lemma BulkIsNotNull(value: string)
    ensures BulkReply(value) != NULL_BULK
  {
    var digits := Dec(|value|);
    assert IsDigit(digits[0]) && BulkReply(value)[1] == digits[0];
  }

  /** What a client sees: after `SET key value EX seconds` a GET at every later
      time answers the value exactly until the deadline asked for, if and only
      if that deadline fits 64 bits or wraps to exactly zero. */
  lemma ExpiryIsKeptExactlyWhen(db: Db, ts: seq<nat>, key: string, value: string, seconds: nat)
    requires |value| <= MAX_VALUE && 0 < seconds <= MAX_LL && Readings(ts, 5) && ts[0] < U64
    ensures (forall t: nat :: ts[0] <= t < U64 ==>
               (GetAt(AfterSetEx(db, ts, key, value, seconds), key, t) == BulkReply(value)
                <==> t < ts[0] + seconds * 1000))
            <==> ts[0] + seconds * 1000 < U64 || (ts[0] + seconds * 1000) % U64 == 0
  {
    var now, ms := ts[0], seconds * 1000;
    var after := AfterSetEx(db, ts, key, value, seconds);
    DeadlineExactly(now, ms);
    BulkIsNotNull(value);
    forall t: nat
      ensures GetAt(after, key, t) == BulkReply(value) <==> Live(Entry("", Deadline(now, ms)), t)
    {
      SetThenGet(db, ts, key, value, seconds, [t, t, t]);
    }
  }

  /** The reply to `GET key` while the clock reads t. */
  ghost function GetAt(db: Db, key: string, t: nat): string { Exec(db, [t, t, t], ["GET", key]).1 }

  /** `EXPIRE key 0` while the clock reads 0 keeps the key for ever. */
  lemma ZeroDeadlineNeverExpires(db: Db, ts: seq<nat>, key: string, ts': seq<nat>)
    requires key in db && Live(db[key], 0) && Readings(ts, 3) && ts[0] == ts[1] == 0 && Readings(ts', 2)
    ensures var after := Exec(db, ts, ["EXPIRE", key, Dec(0)]);
            Exec(after.0, ts', ["GET", key]).1 == BulkReply(db[key].value)
  {
    StrToLlOfDec(0);
    assert Upper("EXPIRE") == "EXPIRE" && Upper("GET") == "GET";
    assert Deadline(0, 0 * 1000) == 0;
  }
}
