/** The read-only paths of fs_store.go: the recovery scan, the range read of one
    segment, and Read over all segments. */
module LogReader {
  import opened LogCodec

  function Flatten(lists: seq<seq<Record>>): seq<Record> {
    if lists == [] then [] else lists[0] + Flatten(lists[1..])
  }

  lemma {:induction false} FlattenConcat(a: seq<seq<Record>>, b: seq<seq<Record>>)
    ensures Flatten(a + b) == Flatten(a) + Flatten(b)
  {
    if a == [] {
      assert a + b == b;
    } else {
      assert (a + b)[1..] == a[1..] + b;
      FlattenConcat(a[1..], b);
      assert a[0] + (Flatten(a[1..]) + Flatten(b)) == a[0] + Flatten(a[1..]) + Flatten(b);
    }
  }

  lemma FlattenSnoc(lists: seq<seq<Record>>, recs: seq<Record>)
    ensures Flatten(lists + [recs]) == Flatten(lists) + recs
  {
    FlattenConcat(lists, [recs]);
    assert [recs][1..] == [] && recs + [] == recs;
  }

  function Scans(segs: seq<seq<Byte>>): seq<seq<Record>> {
    seq(|segs|, i requires 0 <= i < |segs| => Scan(segs[i]))
  }

  /** All complete records, segment by segment. */
  function Records(segs: seq<seq<Byte>>): seq<Record> { Flatten(Scans(segs)) }

  // ---------- one segment ----------

  lemma {:induction false} ScanStep(file: seq<Byte>, pos: nat, done: seq<Record>)
    requires pos <= |file| && Whole(file[pos..]) && Scan(file) == done + Scan(file[pos..])
    ensures var next := pos + HEADER + DataLen(file[pos..]);
            && next <= |file|
            && Scan(file) == done + [First(file[pos..])] + Scan(file[next..])
  {
    var b := file[pos..];
    var next := pos + HEADER + DataLen(b);
    assert b[HEADER + DataLen(b)..] == file[next..];
    assert done + ([First(b)] + Scan(file[next..])) == done + [First(b)] + Scan(file[next..]);
  }

  /** io.ReadFull of a header and then of the data; false at the end or a torn tail. */
  method ReadRecord(file: seq<Byte>, pos: nat) returns (ok: bool, r: Record, next: nat)
    requires pos <= |file|
    ensures ok <==> Whole(file[pos..])
    ensures ok ==> r == First(file[pos..]) && next == pos + HEADER + DataLen(file[pos..]) <= |file|
  {
    ok, r, next := false, Record(0, []), pos;
    if |file| - pos < HEADER { return; }
    var hdr := file[pos..pos + HEADER];
    ghost var b := file[pos..];
    assert hdr == b[..HEADER];
    assert hdr[..8] == b[..8] && hdr[8..12] == b[8..12];
    var n := FromLe(hdr[8..12]);
    if |file| - pos - HEADER < n { return; }
    ok, next := true, pos + HEADER + n;
    r := Record(FromLe(hdr[..8]), file[pos + HEADER..next]);
    assert b[HEADER..HEADER + n] == file[pos + HEADER..next];
  }

  method ScanSegmentMaxOffset(file: seq<Byte>) returns (max: nat)
    ensures max == MaxOffset(Scan(file))
  {
    max := 0;
    var pos := 0;
    ghost var done: seq<Record> := [];
    assert file[0..] == file;
    while true
      invariant pos <= |file| && Scan(file) == done + Scan(file[pos..]) && max == MaxOffset(done)
      decreases |file| - pos
    {
      var ok, r, next := ReadRecord(file, pos);
      if !ok {
        assert done + [] == done;
        return;
      }
      ScanStep(file, pos, done);
      assert (done + [r])[..|done|] == done;
      done, pos := done + [r], next;
      if r.offset > max { max := r.offset; }
    }
  }

  lemma {:induction false} SelectConcat(a: seq<Record>, b: seq<Record>, from: nat, limit: nat)
    ensures Select(a + b, from, limit)
         == Select(a, from, limit) + Select(b, from, limit - |Select(a, from, limit)|)
    decreases |a|
  {
    if a == [] {
      assert a + b == b;
    } else if limit > 0 {
      assert (a + b)[1..] == a[1..] + b;
      SelectConcat(a[1..], b, from, if a[0].offset < from then limit else limit - 1);
    }
  }

  lemma SelectSnoc(done: seq<Record>, r: Record, from: nat, limit: nat)
    requires |Select(done, from, limit)| < limit
    ensures Select(done + [r], from, limit) == Select(done, from, limit) + if r.offset < from then [] else [r]
  {
    SelectConcat(done, [r], from, limit);
    assert [r][1..] == [];
  }

  method ReadSegmentRange(file: seq<Byte>, from: nat, limit: int) returns (out: seq<Record>)
    ensures out == if limit <= 0 then [] else Select(Scan(file), from, limit)
  {
    out := [];
    if limit <= 0 { return; }
    var pos := 0;
    ghost var done: seq<Record> := [];
    assert file[0..] == file;
    while |out| < limit
      invariant pos <= |file| && Scan(file) == done + Scan(file[pos..])
      invariant out == Select(done, from, limit)
      decreases |file| - pos
    {
      var ok, r, next := ReadRecord(file, pos);
      if !ok {
        assert done + [] == done;
        return;
      }
      ScanStep(file, pos, done);
      SelectSnoc(done, r, from, limit);
      done, pos := done + [r], next;
      if r.offset < from { continue; }
      out := out + [r];
    }
    SelectConcat(done, Scan(file[pos..]), from, limit);
  }

  // ---------- all segments ----------

  /** `from` for the next segment, as a 64-bit offset. */
  function NextFrom(recs: seq<Record>, from: nat): nat {
    if recs == [] then from else (recs[|recs| - 1].offset + 1) % U64
  }

  /** What Read collects: the limit counts down and `from` moves up. */
  function ReadLists(lists: seq<seq<Record>>, from: nat, limit: nat): seq<Record> {
    if lists == [] || limit == 0 then []
    else
      var recs := Select(lists[0], from, limit);
      recs + ReadLists(lists[1..], NextFrom(recs, from), limit - |recs|)
  }

  datatype ReadResult = Ok(records: seq<Record>) | InvalidReadArg

  lemma {:induction false} ReadNext(lists: seq<seq<Record>>, i: nat, from: nat, limit: nat, recs: seq<Record>)
    requires i < |lists| && limit > 0 && recs == Select(lists[i], from, limit)
    ensures ReadLists(lists[i..], from, limit)
         == recs + ReadLists(lists[i + 1..], NextFrom(recs, from), limit - |recs|)
  {
    assert lists[i..][1..] == lists[i + 1..];
  }

  lemma Concatenated(a: seq<Record>, b: seq<Record>, c: seq<Record>)
    ensures a + (b + c) == (a + b) + c
  {
  }

  method Read(segs: seq<seq<Byte>>, from: nat, limit: int) returns (r: ReadResult)
    ensures r == if limit <= 0 then InvalidReadArg else Ok(ReadLists(Scans(segs), from, limit))
  {
    if limit <= 0 { return InvalidReadArg; }
    var out := ReadAll(segs, from, limit, Scans(segs));
    r := Ok(out);
  }

  /** `out` is read, and what is left comes from segment i on. */
  ghost predicate ReadSoFar(lists: seq<seq<Record>>, i: nat, out: seq<Record>, cur: nat, left: nat, all: seq<Record>) {
    i <= |lists| && all == out + ReadLists(lists[i..], cur, left)
  }

  lemma {:induction false} ReadStep(lists: seq<seq<Record>>, i: nat, out: seq<Record>, cur: nat, left: nat,
                                    all: seq<Record>, recs: seq<Record>)
    requires ReadSoFar(lists, i, out, cur, left, all) && i < |lists| && left > 0
    requires recs == Select(lists[i], cur, left)
    ensures ReadSoFar(lists, i + 1, out + recs, NextFrom(recs, cur), left - |recs|, all)
    ensures |recs| == left ==> all == out + recs
  {
    ReadNext(lists, i, cur, left, recs);
    Concatenated(out, recs, ReadLists(lists[i + 1..], NextFrom(recs, cur), left - |recs|));
  }

  ghost predicate Scanned(segs: seq<seq<Byte>>, lists: seq<seq<Record>>) {
    |lists| == |segs| && forall i {:trigger segs[i]} :: 0 <= i < |segs| ==> lists[i] == Scan(segs[i])
  }

  /** One turn of the loop of Read. */
  method ReadSegment(segs: seq<seq<Byte>>, i: nat, from: nat, limit: nat, ghost lists: seq<seq<Record>>)
    returns (recs: seq<Record>)
    requires Scanned(segs, lists) && i < |segs| && limit > 0
    ensures recs == Select(lists[i], from, limit)
  {
    recs := ReadSegmentRange(segs[i], from, limit);
  }

  /** The loop of Read. */
  method ReadAll(segs: seq<seq<Byte>>, from: nat, limit: nat, ghost lists: seq<seq<Record>>) returns (out: seq<Record>)
    requires limit > 0 && Scanned(segs, lists)
    ensures out == ReadLists(lists, from, limit)
  {
    var cur: nat := from;
    ghost var left: nat, all := limit, ReadLists(lists, from, limit);
    out := [];
    assert lists[0..] == lists;
    for i := 0 to |segs|
      invariant left == limit - |out| > 0
      invariant ReadSoFar(lists, i, out, cur, left, all)
    {
      var recs := ReadSegment(segs, i, cur, limit - |out|, lists);
      ReadStep(lists, i, out, cur, left, all, recs);
      out, left := out + recs, left - |recs|;
      if |out| >= limit { return; }
      if |recs| > 0 { cur := (recs[|recs| - 1].offset + 1) % U64; }
    }
  }

  // ---------- when Read returns what was asked for ----------

  /** Every record from `from` on. */
  function From(recs: seq<Record>, from: nat): seq<Record> { Select(recs, from, |recs|) }

  /** In each segment, what lies at or above the offset at which the segments
      before it have left off is what was wanted. */
  ghost predicate Kept(lists: seq<seq<Record>>, want: nat, cur: nat) {
    lists != [] ==>
      && (forall r :: r in lists[0] ==> (r.offset >= cur <==> r.offset >= want))
      && Kept(lists[1..], want, NextFrom(From(lists[0], cur), cur))
  }

  /** For every limit, Read returns the first `limit` records from `from` on. */
  ghost predicate Exact(lists: seq<seq<Record>>, from: nat) {
    forall limit: nat :: ReadLists(lists, from, limit) == Select(Flatten(lists), from, limit)
  }

  /** A selection short of the limit is complete, and a limit that leaves room
      makes it so. */
  lemma {:induction false} SelectComplete(recs: seq<Record>, from: nat, limit: nat, room: nat)
    requires |recs| <= room
    ensures |Select(recs, from, limit)| < limit ==> Select(recs, from, limit) == Select(recs, from, room)
    ensures |Select(recs, from, room)| <= limit ==> Select(recs, from, limit) == Select(recs, from, room)
    ensures |Select(recs, from, room)| <= |recs|
    decreases |recs|
  {
    if recs != [] && room > 0 {
      if recs[0].offset < from {
        SelectComplete(recs[1..], from, limit, room);
      } else {
        SelectComplete(recs[1..], from, if limit > 0 then limit - 1 else 0, room - 1);
      }
    }
  }

  /** Exactly the records from `from` on are selected, given the room. */
  lemma {:induction false} SelectMeaning(recs: seq<Record>, from: nat, limit: nat)
    ensures forall r :: r in Select(recs, from, limit) ==> r in recs && r.offset >= from
    ensures |recs| <= limit ==> forall r :: r in recs && r.offset >= from ==> r in Select(recs, from, limit)
    decreases |recs|
  {
    if recs != [] && limit > 0 {
      SelectMeaning(recs[1..], from, if recs[0].offset < from then limit else limit - 1);
    }
  }

  lemma {:induction false} SelectAgrees(recs: seq<Record>, from: nat, from': nat, limit: nat)
    requires forall r :: r in recs ==> (r.offset >= from <==> r.offset >= from')
    ensures Select(recs, from, limit) == Select(recs, from', limit)
    decreases |recs|
  {
    if recs != [] && limit > 0 {
      assert recs[0] in recs;
      SelectAgrees(recs[1..], from, from', if recs[0].offset < from then limit else limit - 1);
    }
  }

  /** Fewer conditions select no fewer records, and no more only if the same. */
  lemma {:induction false} SelectFewer(recs: seq<Record>, from: nat, want: nat)
    requires forall r :: r in recs && r.offset >= from ==> r.offset >= want
    ensures |From(recs, from)| <= |From(recs, want)|
    ensures |From(recs, from)| == |From(recs, want)| ==> forall r :: r in recs && r.offset >= want ==> r.offset >= from
    decreases |recs|
  {
    if recs != [] {
      var rest := recs[1..];
      assert recs[0] in recs;
      SelectFewer(rest, from, want);
      SelectComplete(rest, from, |recs|, |rest|);
      SelectComplete(rest, want, |recs|, |rest|);
    }
  }

  lemma {:induction false} KeptIsRead(lists: seq<seq<Record>>, want: nat, cur: nat, limit: nat)
    requires Kept(lists, want, cur)
    ensures ReadLists(lists, cur, limit) == Select(Flatten(lists), want, limit)
    decreases |lists|
  {
    if lists != [] && limit > 0 {
      var head := lists[0];
      var recs := Select(head, cur, limit);
      SelectAgrees(head, cur, want, limit);
      SelectConcat(head, Flatten(lists[1..]), want, limit);
      assert Flatten(lists) == head + Flatten(lists[1..]);
      if |recs| < limit {
        SelectComplete(head, cur, limit, |head|);
        assert recs == From(head, cur);
        KeptIsRead(lists[1..], want, NextFrom(recs, cur), limit - |recs|);
      }
    }
  }

  /** With room for all records, Read returns no more of those wanted than there
      are, and as many only if nothing was left out. */
  lemma {:induction false} ReadIsKept(lists: seq<seq<Record>>, want: nat, cur: nat, room: nat)
    requires room > |Flatten(lists)|
    requires forall r :: r in ReadLists(lists, cur, room) ==> r.offset >= want
    ensures |ReadLists(lists, cur, room)| <= |Select(Flatten(lists), want, room)|
    ensures |ReadLists(lists, cur, room)| == |Select(Flatten(lists), want, room)| ==> Kept(lists, want, cur)
    decreases |lists|
  {
    if lists != [] {
      var head, rest, tail := lists[0], lists[1..], Flatten(lists[1..]);
      var recs := Select(head, cur, room);
      var next, left := NextFrom(recs, cur), room - |recs|;
      var all, others := ReadLists(lists, cur, room), ReadLists(rest, next, left);
      SelectComplete(head, cur, room, |head|);
      assert all == recs + others;
      assert forall r :: r in recs ==> r in all;
      assert forall r :: r in others ==> r in all;
      ReadIsKept(rest, want, next, left);
      SelectMeaning(head, cur, room);
      SelectFewer(head, cur, want);
      CountConcat(head, tail, want, room, left);
    }
  }

  lemma {:induction false} CountConcat(head: seq<Record>, tail: seq<Record>, want: nat, room: nat, left: nat)
    requires room > |head + tail| && left > |tail|
    ensures |Select(head + tail, want, room)| == |From(head, want)| + |Select(tail, want, left)|
  {
    SelectConcat(head, tail, want, room);
    SelectComplete(head, want, room, |head|);
    var l := room - |From(head, want)|;
    SelectComplete(tail, want, l, |tail|);
    SelectComplete(tail, want, left, |tail|);
  }

  /** Read returns what was asked for, whatever the limit, exactly when no record
      asked for lies below where an earlier segment left off, and none that was
      not asked for above it. */
  lemma ReadIsExactWhen(lists: seq<seq<Record>>, from: nat)
    ensures Exact(lists, from) <==> Kept(lists, from, from)
  {
    if Kept(lists, from, from) {
      forall limit: nat ensures ReadLists(lists, from, limit) == Select(Flatten(lists), from, limit) {
        KeptIsRead(lists, from, from, limit);
      }
    }
    if Exact(lists, from) {
      var room := |Flatten(lists)| + 1;
      assert ReadLists(lists, from, room) == Select(Flatten(lists), from, room);
      SelectMeaning(Flatten(lists), from, room);
      ReadIsKept(lists, from, from, room);
    }
  }

  /** r lies behind the last record of recs from `from` on. */
  ghost predicate Behind(recs: seq<Record>, r: Record, from: nat) {
    var wanted := From(recs, from);
    wanted != [] ==> r.offset > wanted[|wanted| - 1].offset
  }

  /** All wanted records lie behind the last wanted one of `head`. */
  ghost predicate AllBehind(lists: seq<seq<Record>>, head: seq<Record>, want: nat) {
    forall j, r :: 0 <= j < |lists| && r in lists[j] && r.offset >= want ==> Behind(head, r, want)
  }

  /** A wanted record lies behind the last wanted one of each earlier segment. */
  ghost predicate InSequence(lists: seq<seq<Record>>, from: nat) {
    forall i :: 0 <= i < |lists| ==> AllBehind(lists[i + 1..], lists[i], from)
  }

  ghost predicate WantedFrom(lists: seq<seq<Record>>, want: nat, cur: nat) {
    forall j, r :: 0 <= j < |lists| && r in lists[j] && r.offset >= want ==> r.offset >= cur
  }

  /** The last 64-bit offset is not in use. */
  ghost predicate BelowLast(lists: seq<seq<Record>>) {
    forall j, r :: 0 <= j < |lists| && r in lists[j] ==> r.offset + 1 < U64
  }

  lemma {:induction false} InSequenceCons(head: seq<Record>, tail: seq<seq<Record>>, from: nat)
    ensures InSequence([head] + tail, from) <==> InSequence(tail, from) && AllBehind(tail, head, from)
  {
    var lists := [head] + tail;
    assert lists[0] == head && lists[1..] == tail;
    forall i | 0 <= i < |tail|
      ensures AllBehind(tail[i + 1..], tail[i], from) <==> AllBehind(lists[i + 2..], lists[i + 1], from)
    {
      assert tail[i + 1..] == lists[i + 2..] && tail[i] == lists[i + 1];
    }
    if InSequence(lists, from) {
      assert AllBehind(lists[0 + 1..], lists[0], from);
      forall i | 0 <= i < |tail| ensures AllBehind(tail[i + 1..], tail[i], from) {
        assert AllBehind(lists[(i + 1) + 1..], lists[i + 1], from);
      }
    }
    if InSequence(tail, from) && AllBehind(tail, head, from) {
      forall i | 0 <= i < |lists| ensures AllBehind(lists[i + 1..], lists[i], from) {
        if i > 0 { assert AllBehind(tail[(i - 1) + 1..], tail[i - 1], from); }
      }
    }
  }

  lemma {:induction false} WantedCons(head: seq<Record>, tail: seq<seq<Record>>, want: nat, cur: nat)
    ensures WantedFrom([head] + tail, want, cur) <==>
              (forall r :: r in head && r.offset >= want ==> r.offset >= cur) && WantedFrom(tail, want, cur)
  {
    var lists := [head] + tail;
    assert lists[0] == head;
    assert forall j :: 0 <= j < |tail| ==> tail[j] == lists[j + 1];
  }

  lemma {:induction false} KeptIsInSequence(lists: seq<seq<Record>>, want: nat, cur: nat)
    requires BelowLast(lists) && cur >= want
    ensures Kept(lists, want, cur) <==> InSequence(lists, want) && WantedFrom(lists, want, cur)
    decreases |lists|
  {
    if lists != [] {
      var head, tail := lists[0], lists[1..];
      assert [head] + tail == lists;
      InSequenceCons(head, tail, want);
      WantedCons(head, tail, want, cur);
      if forall r :: r in head && r.offset >= want ==> r.offset >= cur {
        SelectAgrees(head, cur, want, |head|);
        NextBehind(head, tail, want, cur);
        KeptIsInSequence(tail, want, NextFrom(From(head, cur), cur));
      }
    }
  }

  /** The next segment is read from behind the last record wanted so far. */
  lemma NextBehind(head: seq<Record>, tail: seq<seq<Record>>, want: nat, cur: nat)
    requires cur >= want && From(head, cur) == From(head, want)
    requires forall r :: r in head ==> r.offset + 1 < U64
    ensures var next := NextFrom(From(head, cur), cur);
            && next >= cur
            && (WantedFrom(tail, want, next) <==> WantedFrom(tail, want, cur) && AllBehind(tail, head, want))
  {
    var all := From(head, cur);
    SelectMeaning(head, cur, |head|);
    if all != [] {
      assert all[|all| - 1] in all;
      assert all[|all| - 1] in head;
    }
  }

  /** The same in terms of offsets alone: as long as the last 64-bit offset is not
      in use, Read is exact if and only if every wanted record lies behind the
      last wanted one of each earlier segment. */
  lemma ReadIsExactInSequence(lists: seq<seq<Record>>, from: nat)
    requires BelowLast(lists)
    ensures Exact(lists, from) <==> InSequence(lists, from)
  {
    ReadIsExactWhen(lists, from);
    KeptIsInSequence(lists, from, from);
  }

  /** Offsets as 64 bits hold them. */
  ghost predicate Offsets64(recs: seq<Record>) { forall r :: r in recs ==> r.offset < U64 }

  /** In particular when the offsets on disk are in increasing order. */
  lemma {:induction false} IncreasingIsKept(lists: seq<seq<Record>>, want: nat, cur: nat)
    requires Increasing(Flatten(lists)) && Offsets64(Flatten(lists))
    requires forall r :: r in Flatten(lists) ==> (r.offset >= cur <==> r.offset >= want)
    ensures Kept(lists, want, cur)
    decreases |lists|
  {
    if lists != [] {
      var head, tail := lists[0], Flatten(lists[1..]);
      var all := From(head, cur);
      assert forall r :: r in head ==> r in Flatten(lists);
      assert forall r :: r in tail ==> r in Flatten(lists);
      TailInOrder(head, tail);
      if all != [] {
        var last := all[|all| - 1];
        SelectMeaning(head, cur, |head|);
        assert last in all && last in head;
        TailAbove(head, tail, last);
      }
      IncreasingIsKept(lists[1..], want, NextFrom(all, cur));
    }
  }

  lemma TailInOrder(head: seq<Record>, tail: seq<Record>)
    requires Increasing(head + tail)
    ensures Increasing(tail)
  {
    forall i | 0 <= i < |tail| ensures tail[i] == (head + tail)[|head| + i] {}
  }

  lemma TailAbove(head: seq<Record>, tail: seq<Record>, last: Record)
    requires Increasing(head + tail) && last in head
    ensures forall r :: r in tail ==> last.offset < r.offset
  {
    var j :| 0 <= j < |head| && head[j] == last;
    forall r | r in tail ensures last.offset < r.offset {
      var i :| 0 <= i < |tail| && tail[i] == r;
      assert (head + tail)[j].offset < (head + tail)[|head| + i].offset;
    }
  }

  lemma SelectOne(r: Record, from: nat, limit: nat)
    requires limit > 0
    ensures Select([r], from, limit) == if r.offset < from then [] else [r]
  {
    assert [r][1..] == [];
  }

  /** Otherwise records are lost: whatever is asked for at or below an offset
      that stands in a later segment behind a higher one, a read misses it. */
  lemma ReadOutOfOrderSkips(high: Record, low: Record, from: nat, limit: nat)
    requires from <= low.offset < high.offset && high.offset + 1 < U64 && limit >= 2
    ensures Select(Flatten([[high], [low]]), from, limit) == [high, low]
    ensures ReadLists([[high], [low]], from, limit) == [high]
  {
    FlattenTwo([high], [low]);
    SelectConcat([high], [low], from, limit);
    ReadTwo([high], [low], from, limit);
    SelectOne(high, from, limit);
    SelectOne(low, from, limit - 1);
    SelectOne(low, high.offset + 1, limit - 1);
  }

  lemma {:induction false} FlattenTwo(a: seq<Record>, b: seq<Record>)
    ensures Flatten([a, b]) == a + b
  {
    assert [a, b][1..] == [b] && [b][1..] == [] && b + [] == b;
    assert Flatten([b]) == b + Flatten([]);
  }

  lemma {:induction false} ReadTwo(a: seq<Record>, b: seq<Record>, from: nat, limit: nat)
    requires limit > |Select(a, from, limit)|
    ensures var recs := Select(a, from, limit);
            ReadLists([a, b], from, limit) == recs + Select(b, NextFrom(recs, from), limit - |recs|)
  {
    var recs := Select(a, from, limit);
    var more := Select(b, NextFrom(recs, from), limit - |recs|);
    assert [a, b][1..] == [b] && [b][1..] == [] && more + [] == more;
    var next, left := NextFrom(recs, from), limit - |recs|;
    assert ReadLists([b], next, left) == more + ReadLists([], NextFrom(more, next), left - |more|);
  }

  // ---------- recovery ----------

  /** openOrRecover: the largest offset over all segments, and the one after it. */
  method Recover(segs: seq<seq<Byte>>) returns (maxOffset: nat, nextOffset: nat)
    ensures maxOffset == MaxOffset(Records(segs)) && nextOffset == NextOffset(Records(segs))
  {
    maxOffset := 0;
    ghost var lists := Scans(segs);
    for i := 0 to |segs|
      invariant maxOffset == MaxOffset(Flatten(lists[..i]))
    {
      var off := ScanSegmentMaxOffset(segs[i]);
      MaxOfConcat(Flatten(lists[..i]), lists[i]);
      FlattenSnoc(lists[..i], lists[i]);
      assert lists[..i + 1] == lists[..i] + [lists[i]];
      if off > maxOffset { maxOffset := off; }
    }
    assert lists[..|segs|] == lists;
    nextOffset := (maxOffset + 1) % U64;
  }

  lemma {:induction false} MaxOfConcat(a: seq<Record>, b: seq<Record>)
    ensures MaxOffset(a + b) == if MaxOffset(b) > MaxOffset(a) then MaxOffset(b) else MaxOffset(a)
  {
    if b == [] {
      assert a + b == a;
    } else {
      var init := b[..|b| - 1];
      assert (a + b)[..|a + b| - 1] == a + init;
      MaxOfConcat(a, init);
    }
  }

  /** The offset recovery hands out next. */
  function NextOffset(recs: seq<Record>): nat { (MaxOffset(recs) + 1) % U64 }

  /** It is above every recovered offset if and only if the last 64-bit offset
      is not among them. */
  lemma NextOffsetIsFreshWhen(recs: seq<Record>)
    requires Offsets64(recs)
    ensures (forall r :: r in recs ==> r.offset < NextOffset(recs)) <==> (forall r :: r in recs ==> r.offset + 1 < U64)
  {
    MaxOffsetBounds(recs);
    if forall r :: r in recs ==> r.offset + 1 < U64 {
      assert MaxOffset(recs) + 1 < U64;
      forall r | r in recs ensures r.offset < NextOffset(recs) {
        var i :| 0 <= i < |recs| && recs[i] == r;
      }
    } else {
      var r :| r in recs && r.offset + 1 >= U64;
      var i :| 0 <= i < |recs| && recs[i] == r;
      assert MaxOffset(recs) == U64 - 1;
    }
  }

  /** If it is, recovery starts again at offset 0. */
  lemma NextOffsetWraps(data: seq<Byte>)
    ensures var last := Record(U64 - 1, data);
            NextOffset([last]) == 0 && !(forall r :: r in [last] ==> r.offset < NextOffset([last]))
  {
    var last := Record(U64 - 1, data);
    assert [last][..0] == [] && MaxOffset([]) == 0;
    assert MaxOffset([last]) == U64 - 1;
    assert last in [last];
  }

  lemma ScannedOffsets(segs: seq<seq<Byte>>)
    ensures Offsets64(Records(segs))
  {
    forall i | 0 <= i < |segs| ensures Offsets64(Scans(segs)[i]) {
      FileSplits(segs[i]);
    }
    FlattenOffsets(Scans(segs));
  }

  lemma {:induction false} FlattenOffsets(lists: seq<seq<Record>>)
    requires forall i :: 0 <= i < |lists| ==> Offsets64(lists[i])
    ensures Offsets64(Flatten(lists))
  {
    if lists != [] {
      assert Offsets64(lists[0]);
      FlattenOffsets(lists[1..]);
    }
  }

  /** The files that appending leaves from the active one on: a record that would
      make the file too large goes into a new one. */
  function AppendAll(active: seq<Byte>, more: seq<Record>, maxSegmentBytes: int): (files: seq<seq<Byte>>)
    ensures files != []
    decreases |more|
  {
    if more == [] then [active]
    else if |active| + HEADER + |more[0].data| > maxSegmentBytes then
      [active] + AppendAll(Encode(more[0]), more[1..], maxSegmentBytes)
    else AppendAll(active + Encode(more[0]), more[1..], maxSegmentBytes)
  }

  lemma {:induction false} AppendsToUntornFound(recs: seq<Record>, more: seq<Record>, maxSegmentBytes: int)
    requires AllEncodable(recs) && AllEncodable(more)
    ensures Records(AppendAll(EncodeAll(recs), more, maxSegmentBytes)) == recs + more
    decreases |more|
  {
    var active := EncodeAll(recs);
    ScanOfAll(recs);
    if more == [] {
      RecordsOne(active);
      assert recs + [] == recs;
    } else {
      var r, rest := more[0], more[1..];
      EncodeAllOne(r);
      assert recs + more == recs + ([r] + rest) == (recs + [r]) + rest;
      if |active| + HEADER + |r.data| > maxSegmentBytes {
        RecordsBehind([active], AppendAll(Encode(r), rest, maxSegmentBytes));
        RecordsOne(active);
        AppendsToUntornFound([r], rest, maxSegmentBytes);
      } else {
        EncodeAllConcat(recs, [r]);
        AppendsToUntornFound(recs + [r], rest, maxSegmentBytes);
      }
    }
  }

  lemma RecordsOne(file: seq<Byte>)
    ensures Records([file]) == Scan(file)
  {
    assert Scans([file]) == [Scan(file)] && [Scan(file)][1..] == [];
    assert Flatten([Scan(file)]) == Scan(file) + Flatten([]) == Scan(file);
  }

  lemma RecordsBehind(a: seq<seq<Byte>>, b: seq<seq<Byte>>)
    ensures Records(a + b) == Records(a) + Records(b)
  {
    assert Scans(a + b) == Scans(a) + Scans(b);
    FlattenConcat(Scans(a), Scans(b));
  }

  /** Every append is found if there is no torn tail, or if every append leaves
      the torn file behind. */
  lemma {:induction false} AppendsFoundWhen(active: seq<Byte>, more: seq<Record>, maxSegmentBytes: int)
    requires AllEncodable(more) && forall i :: 0 <= i < |more| ==> more[i].data != []
    requires Torn(active) == [] || |active| + HEADER + 1 > maxSegmentBytes
    ensures Records(AppendAll(active, more, maxSegmentBytes)) == Scan(active) + more
  {
    FileSplits(active);
    if Torn(active) == [] {
      assert active == EncodeAll(Scan(active));
      AppendsToUntornFound(Scan(active), more, maxSegmentBytes);
    } else {
      RecordsOne(active);
      if more == [] {
        assert Scan(active) + [] == Scan(active);
      } else {
        EncodeAllOne(more[0]);
        RecordsBehind([active], AppendAll(Encode(more[0]), more[1..], maxSegmentBytes));
        AppendsToUntornFound([more[0]], more[1..], maxSegmentBytes);
        assert [more[0]] + more[1..] == more;
      }
    }
  }

  /** The files in which the appends after a recovery are looked for. */
  function FilesAfter(sealed: seq<seq<Byte>>, active: seq<Byte>, more: seq<Record>, maxSegmentBytes: int)
    : seq<seq<Byte>>
  {
    sealed + AppendAll(active, more, maxSegmentBytes)
  }

  /** After recovery: whatever Append hands out is found if and only if the last
      file was left without a torn tail, or has no room for even the smallest
      record, so that the next append starts a new file. */
  lemma {:induction false} AppendsAfterRecovery(sealed: seq<seq<Byte>>, active: seq<Byte>, maxSegmentBytes: int)
    ensures var found := Records(sealed + [active]);
            (forall more :: Appendable(more, NextOffset(found)) ==>
               Records(FilesAfter(sealed, active, more, maxSegmentBytes)) == found + more)
            <==> Torn(active) == [] || |active| + HEADER + 1 > maxSegmentBytes
  {
    var found := Records(sealed + [active]);
    var next := NextOffset(found);
    RecordsBehind(sealed, [active]);
    RecordsOne(active);
    if Torn(active) == [] || |active| + HEADER + 1 > maxSegmentBytes {
      forall more | Appendable(more, next)
        ensures Records(FilesAfter(sealed, active, more, maxSegmentBytes)) == found + more
      {
        AppendsFoundWhen(active, more, maxSegmentBytes);
        RecordsBehind(sealed, AppendAll(active, more, maxSegmentBytes));
        Concatenated(Records(sealed), Scan(active), more);
      }
    } else {
      var r := OneAppendIsLost(active, next);
      EncodeAllOne(r);
      assert [r][1..] == [];
      assert AppendAll(active, [r], maxSegmentBytes) == [active + Encode(r)];
      LastSegmentDecides(sealed, active, active + Encode(r), [r]);
      assert Records(FilesAfter(sealed, active, [r], maxSegmentBytes)) != found + [r];
    }
  }

  lemma LastSegmentDecides(sealed: seq<seq<Byte>>, active: seq<Byte>, active': seq<Byte>, more: seq<Record>)
    ensures Records(sealed + [active']) == Records(sealed + [active]) + more <==> Scan(active') == Scan(active) + more
  {
    var lists := Scans(sealed);
    assert Scans(sealed + [active]) == lists + [Scan(active)] && Scans(sealed + [active']) == lists + [Scan(active')];
    FlattenSnoc(lists, Scan(active));
    FlattenSnoc(lists, Scan(active'));
    Concatenated(Flatten(lists), Scan(active), more);
    SameBehind(Flatten(lists), Scan(active'), Scan(active) + more);
  }
}
