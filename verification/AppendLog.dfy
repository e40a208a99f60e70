/** The whole of fs_store.go: concurrent appenders, the flusher that writes their
    requests to disk, rotation, Sync, and readers that take no lock.  A step is
    one atomic operation of a call, or one of the two writes of a record. */
module AppendLog {
  import opened LogCodec
  import opened LogReader
  import opened LogWriter
  import Appenders

  /** How far the flusher is with the request it has taken. */
  datatype Stage = Idle | HeaderOut | Done

  datatype Event =
    | Atomic(e: Appenders.Event)
    | WriteHeader
    | WriteData
    | Rotate
    | Sync

  /** What of the request in hand is already part of the log. */
  ghost function InHand(app: Appenders.State, stage: Stage): seq<Record> {
    if stage == Idle || app.flusher == [] then [] else Appenders.Written(app.flusher[0])
  }

  /** Only the flusher's own steps touch what it holds and what it has written. */
  lemma OthersLeaveFlusher(app: Appenders.State, e: Appenders.Event)
    requires !e.Dequeue? && !e.Release?
    ensures Appenders.Apply(app, e).flusher == app.flusher && Appenders.Apply(app, e).persisted == app.persisted
  {
  }

  lemma OffsetsGoUpByOne(app: Appenders.State, e: Appenders.Event)
    ensures app.nextOffset <= Appenders.Apply(app, e).nextOffset <= app.nextOffset + 1
    ensures !e.TakeOffset? ==> Appenders.Apply(app, e).nextOffset == app.nextOffset
  {
  }

  /** The request in hand has an offset that was handed out. */
  lemma OffsetInHand(app: Appenders.State)
    requires Appenders.Inv(app) && app.flusher != []
    ensures app.flusher[0].offset < app.nextOffset
  {
    var r := app.flusher[0];
    assert Appenders.OffsetOf(app.calls[r.call]) == r.offset;
  }

  /** What is written is a prefix of what is on its way. */
  lemma WrittenIsPrefix(app: Appenders.State, stage: Stage, log: seq<Record>)
    requires Appenders.RequestsOk(app) && log == app.persisted + InHand(app, stage)
    ensures log <= Appenders.Pipeline(app)
  {
    if app.flusher != [] {
      assert app.flusher == [app.flusher[0]];
      Appenders.RecordsOfOne(app.flusher[0]);
    }
  }

  /** The appenders' state and the log on disk fit each other. */
  ghost predicate Joined(app: Appenders.State, stage: Stage, serial: bool, log: seq<Record>, acked: nat, fsync: bool) {
    && Appenders.Inv(app) && app.nextOffset <= U64
    && (app.flusher == [] ==> stage == Idle)
    && (stage == HeaderOut ==> |app.flusher[0].data| <= MAX_U32)
    && log == app.persisted + InHand(app, stage)
    && (fsync ==> |app.persisted| <= acked && (stage == Done ==> acked == |log|))
    && (serial ==> Appenders.InOrder(app))
  }

  lemma JoinedInitially(app: Appenders.State, serial: bool, fsync: bool)
    requires Appenders.Initial(app) && app.nextOffset <= U64
    requires serial ==> Increasing(app.persisted) && Appenders.Below(app.persisted, app.nextOffset)
    ensures Joined(app, Idle, serial, app.persisted, |app.persisted|, fsync)
  {
    if serial { Appenders.InitialInOrder(app); }
  }

  lemma JoinedStep(app: Appenders.State, stage: Stage, serial: bool, log: seq<Record>, acked: nat, fsync: bool,
                   e: Appenders.Event) returns (app': Appenders.State, serial': bool)
    requires Joined(app, stage, serial, log, acked, fsync)
    requires (e.TakeOffset? ==> app.nextOffset < U64) && (e.Release? ==> stage == Done)
    ensures app' == Appenders.Apply(app, e) && serial' == (serial && Appenders.Serialised(app, e))
    ensures Joined(app', NextStage(stage, e), serial', log, acked, fsync)
    ensures stage == HeaderOut ==> app'.flusher == app.flusher
  {
    app', serial' := Appenders.Apply(app, e), serial && Appenders.Serialised(app, e);
    Appenders.StepKeeps(app, e);
    if serial && Appenders.Serialised(app, e) { Appenders.StepInOrder(app, e); }
    OffsetsGoUpByOne(app, e);
    StageFollows(app, stage, e);
  }

  lemma JoinedHeader(app: Appenders.State, serial: bool, log: seq<Record>, acked: nat, fsync: bool, acked': nat)
    requires Joined(app, Idle, serial, log, acked, fsync) && app.flusher != [] && acked <= acked'
    requires |app.flusher[0].data| <= MAX_U32
    ensures Joined(app, HeaderOut, serial, log + [Record(app.flusher[0].offset, app.flusher[0].data)], acked', fsync)
  {
    assert log == app.persisted;
  }

  lemma JoinedData(app: Appenders.State, serial: bool, log: seq<Record>, acked: nat, fsync: bool, acked': nat)
    requires Joined(app, HeaderOut, serial, log, acked, fsync) && acked <= acked' && (fsync ==> acked' == |log|)
    ensures Joined(app, Done, serial, log, acked', fsync)
  {
  }

  // ---------- what a run does, as a function of its events ----------

  /** Where the calls, the channel and the flusher stand. */
  datatype Point = Point(app: Appenders.State, stage: Stage)

  /** The flusher takes up the request in hand: its header is out, or it is refused. */
  function HeaderStage(p: Point): Stage {
    if p.stage != Idle || p.app.flusher == [] then p.stage
    else if |p.app.flusher[0].data| > MAX_U32 then Done else HeaderOut
  }

  /** Bytes are given back only after the write. */
  function Next(p: Point, e: Event): Point {
    match e
    case Atomic(a) =>
      if a.Release? && p.stage != Done then p else Point(Appenders.Apply(p.app, a), NextStage(p.stage, a))
    case WriteHeader => p.(stage := HeaderStage(p))
    case WriteData => if p.stage == HeaderOut then p.(stage := Done) else p
    case Rotate => p
    case Sync => p
  }

  function After(p: Point, events: seq<Event>): Point {
    if events == [] then p else Next(After(p, events[..|events| - 1]), events[|events| - 1])
  }

  /** No call takes an offset while another has one unsent. */
  ghost predicate SerialStep(p: Point, e: Event) { e.Atomic? ==> Appenders.Serialised(p.app, e.e) }

  ghost predicate AllSerial(p: Point, events: seq<Event>) {
    events == [] ||
    var n := |events| - 1;
    AllSerial(p, events[..n]) && SerialStep(After(p, events[..n]), events[n])
  }

  /** The events lead from p to p', and order is kept as long as all are serial. */
  ghost predicate Reached(p: Point, serial: bool, events: seq<Event>, p': Point, serial': bool) {
    && p' == After(p, events) && (serial' <==> serial && AllSerial(p, events))
    && p'.app.nextOffset <= p.app.nextOffset + |events|
  }

  lemma NothingReached(p: Point, serial: bool)
    ensures Reached(p, serial, [], p, serial)
  {
  }

  lemma {:induction false} ReachedNext(p: Point, serial: bool, events: seq<Event>, p': Point, serial': bool,
                                       e: Event, p'': Point, serial'': bool)
    requires Reached(p, serial, events, p', serial') && p'' == Next(p', e)
    requires (serial'' <==> serial' && SerialStep(p', e)) && p''.app.nextOffset <= p'.app.nextOffset + 1
    ensures Reached(p, serial, events + [e], p'', serial'')
  {
    assert (events + [e])[..|events|] == events;
  }

  lemma {:induction false} AfterConcat(p: Point, a: seq<Event>, b: seq<Event>)
    ensures After(p, a + b) == After(After(p, a), b)
    ensures AllSerial(p, a + b) <==> AllSerial(p, a) && AllSerial(After(p, a), b)
    decreases |b|
  {
    if b == [] {
      assert a + b == a;
    } else {
      var n := |b| - 1;
      AfterConcat(p, a, b[..n]);
      assert (a + b)[..|a + b| - 1] == a + b[..n] && (a + b)[|a + b| - 1] == b[n];
    }
  }

  lemma ReachedJoins(p: Point, serial: bool, a: seq<Event>, p': Point, serial': bool,
                     b: seq<Event>, p'': Point, serial'': bool)
    requires Reached(p, serial, a, p', serial') && Reached(p', serial', b, p'', serial'')
    ensures Reached(p, serial, a + b, p'', serial'')
  {
    AfterConcat(p, a, b);
  }

  class Log {
    const fs: FsStore
    var app: Appenders.State
    var stage: Stage
    ghost var serial: bool    // so far appenders were serialised, on a recovered log in order

    /** Holds after every step. */
    ghost predicate Valid()
      reads this, fs
    {
      && fs.Valid() && !fs.closed
      && Joined(app, stage, serial, fs.Log(), fs.Acked(), fs.fsync)
      && (stage != HeaderOut ==> fs.Ready())
      && (stage == HeaderOut ==> fs.HalfWritten(app.flusher[0].data))
    }

    function At(): Point
      reads this`app, this`stage
    {
      Point(app, stage)
    }

    /** NewFSStore on files none of which has a torn tail: the first offset
        handed out is the one recovery computes. */
    constructor (maxSegmentBytes: int, fsync: bool, maxBuffered: nat, channelCap: nat,
                 sealed: seq<seq<Byte>>, active: seq<Byte>)
      requires Torn(active) == [] && forall i :: 0 <= i < |sealed| ==> Torn(sealed[i]) == []
      ensures Valid() && fresh(fs) && fs.Log() == Records(sealed + [active])
      ensures app.nextOffset == NextOffset(fs.Log())
      ensures serial <==> Increasing(fs.Log()) && Appenders.Below(fs.Log(), NextOffset(fs.Log()))
    {
      var maxOffset, next := Recover(sealed + [active]);
      var found := Records(sealed + [active]);
      fs := new FsStore(maxSegmentBytes, fsync, sealed, active);
      app := Appenders.State(maxBuffered, channelCap, 0, next, [], [], [], found);
      stage := Idle;
      serial := Increasing(found) && Appenders.Below(found, next);
      new;
      JoinedInitially(app, serial, fs.fsync);
    }

    /** One atomic operation of a call or the flusher; bytes are given back only
        after the write. */
    method Step(e: Appenders.Event)
      requires Valid() && (e.TakeOffset? ==> app.nextOffset < U64)
      modifies this`app, this`stage, this`serial
      ensures Valid() && app.nextOffset <= old(app).nextOffset + 1 && At() == Next(old(At()), Atomic(e))
      ensures serial <==> old(serial) && Appenders.Serialised(old(app), e)
    {
      if e.Release? && stage != Done { return; }
      ghost var log, acked := fs.Log(), fs.Acked();
      StepApp(e, log, acked, fs.fsync);
      assert fs.Log() == log && fs.Acked() == acked && fs.Valid();
    }

    /** What the operation does to the shared counters, the channel and the calls. */
    method StepApp(e: Appenders.Event, ghost log: seq<Record>, ghost acked: nat, ghost fsync: bool)
      requires Joined(app, stage, serial, log, acked, fsync)
      requires (e.TakeOffset? ==> app.nextOffset < U64) && (e.Release? ==> stage == Done)
      modifies this`app, this`stage, this`serial
      ensures Joined(app, stage, serial, log, acked, fsync)
      ensures app == Appenders.Apply(old(app), e) && stage == NextStage(old(stage), e)
      ensures serial <==> old(serial) && Appenders.Serialised(old(app), e)
      ensures old(stage) == HeaderOut ==> app.flusher == old(app).flusher
      ensures app.nextOffset <= old(app).nextOffset + 1
    {
      OffsetsGoUpByOne(app, e);
      ghost var app', serial' := JoinedStep(app, stage, serial, log, acked, fsync, e);
      app, stage, serial := Appenders.Apply(app, e), NextStage(stage, e), serial';
    }

    /** appendToDisk as far as the header, or its refusal of too much data. */
    method WriteHeader()
      requires Valid()
      modifies this`stage, fs
      ensures Valid() && Grows(old(fs.Snap()), fs.Snap())
      ensures stage == HeaderStage(old(At()))
    {
      if stage != Idle || app.flusher == [] { return; }
      var r := app.flusher[0];
      OffsetInHand(app);
      if |r.data| > MAX_U32 {
        stage := Done;
        return;
      }
      ghost var log, acked := fs.Log(), fs.Acked();
      fs.AppendHeader(Record(r.offset, r.data));
      JoinedHeader(app, serial, log, acked, fs.fsync, fs.Acked());
      stage := HeaderOut;
    }

    /** The rest of appendToDisk. */
    method WriteData()
      requires Valid()
      modifies this`stage, fs
      ensures Valid() && Grows(old(fs.Snap()), fs.Snap())
      ensures At() == Next(old(At()), Event.WriteData)
    {
      if stage != HeaderOut { return; }
      ghost var log, acked := fs.Log(), fs.Acked();
      var data := app.flusher[0].data;
      assert Joined(app, HeaderOut, serial, log, acked, fs.fsync) && fs.HalfWritten(data);
      fs.AppendData(data);
      JoinedData(app, serial, log, acked, fs.fsync, fs.Acked());
      stage := Done;
    }

    /** Rotate, when the lock is free. */
    method Rotate()
      requires Valid()
      modifies fs
      ensures Valid() && fs.Log() == old(fs.Log()) && Grows(old(fs.Snap()), fs.Snap())
      ensures fs.sealed == if stage == HeaderOut then old(fs.sealed) else old(fs.sealed + [fs.active + fs.buf])
    {
      if stage == HeaderOut { return; }
      fs.RotateLocked();
    }

    /** Sync, when the lock is free. */
    method Sync() returns (ok: bool)
      requires Valid()
      modifies fs`active, fs`buf, fs`synced
      ensures Valid() && (ok <==> stage != HeaderOut) && (ok ==> fs.buf == []) && Grows(old(fs.Snap()), fs.Snap())
    {
      if stage == HeaderOut { return false; }
      ok := fs.Sync();
    }

    /** What the flusher and the callers of Rotate and Sync do to the files. */
    method ActOnFiles(e: Event)
      requires Valid() && !e.Atomic?
      modifies this`stage, fs
      ensures Valid() && Grows(old(fs.Snap()), fs.Snap()) && At() == Next(old(At()), e)
    {
      if e.WriteHeader? {
        WriteHeader();
      } else if e.WriteData? {
        WriteData();
      } else if e.Rotate? {
        Rotate();
      } else {
        var _ := Sync();
      }
    }

    /** One step of a call, of the flusher or of the store. */
    method Act(e: Event)
      requires Valid() && app.nextOffset < U64
      modifies this`app, this`stage, this`serial, fs
      ensures Valid() && Grows(old(fs.Snap()), fs.Snap()) && app.nextOffset <= old(app).nextOffset + 1
      ensures At() == Next(old(At()), e) && (serial <==> old(serial) && SerialStep(old(At()), e))
    {
      if e.Atomic? { Step(e.e); } else { ActOnFiles(e); }
    }

    /** The next of some steps that lead here from p. */
    method ActNext(ghost p: Point, ghost was: bool, ghost done: seq<Event>, e: Event, ghost v: View)
      requires Valid() && app.nextOffset < U64 && Reached(p, was, done, At(), serial) && Grows(v, fs.Snap())
      modifies this`app, this`stage, this`serial, fs
      ensures Valid() && Reached(p, was, done + [e], At(), serial) && Grows(v, fs.Snap())
    {
      ghost var p', serial', before := At(), serial, fs.Snap();
      Act(e);
      ReachedNext(p, was, done, p', serial', e, At(), serial);
      GrowsFurther(v, before, fs.Snap());
    }

    /** Any steps in any order, as long as 64 bits of offsets last. */
    method Run(events: seq<Event>)
      requires Valid() && app.nextOffset + |events| <= U64
      modifies this`app, this`stage, this`serial, fs
      ensures Valid() && Reached(old(At()), old(serial), events, At(), serial)
      ensures Grows(old(fs.Snap()), fs.Snap())
    {
      ghost var p, was, v := At(), serial, fs.Snap();
      NothingReached(p, was);
      for i := 0 to |events|
        invariant Valid() && Reached(p, was, events[..i], At(), serial) && Grows(v, fs.Snap())
      {
        ActNext(p, was, events[..i], events[i], v);
        OneMore(events, i);
      }
      AllOf(events);
    }

    /** More steps, after some that lead here from p. */
    method RunOn(ghost p: Point, ghost was: bool, ghost done: seq<Event>, more: seq<Event>, ghost v: View)
      requires Valid() && Reached(p, was, done, At(), serial) && p.app.nextOffset + |done + more| <= U64
      requires Grows(v, fs.Snap())
      modifies this`app, this`stage, this`serial, fs
      ensures Valid() && Reached(p, was, done + more, At(), serial) && Grows(v, fs.Snap())
    {
      ghost var p', serial', before := At(), serial, fs.Snap();
      Run(more);
      ReachedJoins(p, was, done, p', serial', more, At(), serial);
      GrowsFurther(v, before, fs.Snap());
    }

    /** Segment i after what the others do in its pause; they were at p, and the
        files at v, when the segments were listed. */
    method NextFile(i: nat, pauses: seq<seq<Event>>, ghost upTo: seq<seq<Event>>,
                    ghost p: Point, ghost was: bool, ghost v: View)
      returns (file: seq<Byte>)
      requires Running(pauses, upTo) && p.app.nextOffset + |upTo[|pauses|]| <= U64
      requires i < |pauses| && i <= |v.sealed|
      requires Valid() && Reached(p, was, upTo[i], At(), serial) && Grows(v, fs.Snap())
      modifies this`app, this`stage, this`serial, fs
      ensures Valid() && Reached(p, was, upTo[i + 1], At(), serial) && Grows(v, fs.Snap())
      ensures i <= |fs.sealed| && file == FileAt(fs.sealed, fs.active, i)
    {
      assert upTo[i + 1] == upTo[i] + pauses[i];
      RunOn(p, was, upTo[i], pauses[i], v);
      file := FileAt(fs.sealed, fs.active, i);
    }

    /** A sealed one is as it was when the segments were listed. */
    method NextSealed(i: nat, segs: seq<seq<Byte>>, pauses: seq<seq<Event>>, ghost upTo: seq<seq<Event>>,
                      ghost p: Point, ghost was: bool, ghost v: View)
      returns (segs': seq<seq<Byte>>)
      requires Running(pauses, upTo) && p.app.nextOffset + |upTo[|pauses|]| <= U64
      requires i < |pauses| && i < |v.sealed| && segs == v.sealed[..i]
      requires Valid() && Reached(p, was, upTo[i], At(), serial) && Grows(v, fs.Snap())
      modifies this`app, this`stage, this`serial, fs
      ensures Valid() && Reached(p, was, upTo[i + 1], At(), serial) && Grows(v, fs.Snap())
      ensures segs' == v.sealed[..i + 1]
    {
      var file := NextFile(i, pauses, upTo, p, was, v);
      OneFile(v.sealed, i);
      segs' := segs + [file];
    }

    /** The sealed ones of the files listed at v, each read at its own moment. */
    method CollectSealed(n: nat, pauses: seq<seq<Event>>, ghost upTo: seq<seq<Event>>,
                         ghost p: Point, ghost was: bool, ghost v: View)
      returns (segs: seq<seq<Byte>>)
      requires Running(pauses, upTo) && p.app.nextOffset + |upTo[|pauses|]| <= U64
      requires n == |v.sealed| < |pauses|
      requires Valid() && Reached(p, was, upTo[0], At(), serial) && Grows(v, fs.Snap())
      modifies this`app, this`stage, this`serial, fs
      ensures Valid() && Reached(p, was, upTo[n], At(), serial) && Grows(v, fs.Snap())
      ensures segs == v.sealed[..n]
    {
      segs := [];
      for i := 0 to n
        invariant Valid() && Reached(p, was, upTo[i], At(), serial) && Grows(v, fs.Snap())
        invariant segs == v.sealed[..i]
      {
        segs := NextSealed(i, segs, pauses, upTo, p, was, v);
      }
    }

    /** The files that were listed, each read at its own moment. */
    method Collect(pauses: seq<seq<Event>>, ghost steps: seq<Event>) returns (segs: seq<seq<Byte>>)
      requires Valid() && |pauses| == |fs.sealed| + 1
      requires steps == Concat(pauses) && app.nextOffset + |steps| <= U64
      modifies this`app, this`stage, this`serial, fs
      ensures Valid() && Grows(old(fs.Snap()), fs.Snap()) && Reached(old(At()), old(serial), steps, At(), serial)
      ensures |old(fs.sealed)| <= |fs.sealed|
      ensures segs == old(fs.sealed) + [FileAt(fs.sealed, fs.active, |old(fs.sealed)|)]
    {
      ghost var p, was, v := At(), serial, fs.Snap();
      ghost var upTo := RunningTotals(pauses);
      var n := |fs.sealed|;
      AllFiles(v.sealed);
      NothingReached(p, was);
      segs := CollectSealed(n, pauses, upTo, p, was, v);
      var file := NextFile(n, pauses, upTo, p, was, v);
      segs := segs + [file];
    }

    /** Read, from any moment of any run on, while the others go on: pauses[i] is
        what they do before segment i is read.  If appenders were serialised and
        go on being so, it returns the selection from the first m records
        appended, m being no less than what was complete in the files, and so
        acknowledged, when the segments were listed, and no more than what is
        complete at the end. */
    method Read(from: nat, limit: int, pauses: seq<seq<Event>>, ghost steps: seq<Event>)
      returns (r: ReadResult, ghost m: nat)
      requires Valid() && |pauses| == |fs.sealed| + 1
      requires steps == Concat(pauses) && app.nextOffset + |steps| <= U64
      modifies this`app, this`stage, this`serial, fs
      ensures Valid() && fs.Log() <= Appenders.Pipeline(app) && Reached(old(At()), old(serial), steps, At(), serial)
      ensures limit <= 0 ==> r == InvalidReadArg
      ensures old(fs.Acked()) <= old(Visible(fs)) <= m <= Visible(fs) <= |fs.Log()|
      ensures old(fs.buf == [] && stage != HeaderOut) ==> old(|fs.Log()|) <= m
      ensures old(serial) && AllSerial(old(At()), steps) && limit > 0 ==>
                r == Ok(Select(Appenders.Pipeline(app)[..m], from, limit))
    {
      ghost var v := fs.Snap();
      Listed(fs);
      var segs := Collect(pauses, steps);
      r := LogReader.Read(segs, from, limit);
      m := ReadFound(v, fs.Snap(), segs, app, stage, serial, fs.Acked(), fs.fsync, from, limit, r);
    }
  }

  /** What the files hold when they are listed. */
  lemma Listed(fs: FsStore)
    requires fs.Valid()
    ensures ViewOk(fs.Snap()) && fs.Acked() <= VisibleIn(fs.Snap())
    ensures fs.buf == [] && fs.unwritten == [] ==> VisibleIn(fs.Snap()) == |fs.Log()|
  {
    ReadSeesPrefix(fs, 0, 0);
  }

  /** What a read of the files listed at v finds of all that was appended. */
  lemma ReadFound(v: View, w: View, segs: seq<seq<Byte>>,
                  app: Appenders.State, stage: Stage, serial: bool, acked: nat, fsync: bool,
                  from: nat, limit: int, r: ReadResult)
    returns (m: nat)
    requires ViewOk(v) && ViewOk(w) && Grows(v, w) && Joined(app, stage, serial, LogOf(w), acked, fsync)
    requires segs == v.sealed + [FileAt(w.sealed, w.active, |v.sealed|)]
    requires r == if limit <= 0 then InvalidReadArg else Ok(ReadLists(Scans(segs), from, limit))
    ensures VisibleIn(v) <= m <= VisibleIn(w) <= |LogOf(w)| && LogOf(w) <= Appenders.Pipeline(app)
    ensures serial && limit > 0 ==> r == Ok(Select(Appenders.Pipeline(app)[..m], from, limit))
  {
    WrittenIsPrefix(app, stage, LogOf(w));
    m := ReadBetween(v, w, from, if limit > 0 then limit else 0);
    if serial { PrefixAgrees(LogOf(w), Appenders.Pipeline(app), m); }
  }

  lemma PrefixAgrees(log: seq<Record>, all: seq<Record>, m: nat)
    requires log <= all && Increasing(all) && m <= |log|
    ensures Increasing(log) && log[..m] == all[..m]
  {
    PrefixInOrder(all, |log|);
    assert log == all[..|log|];
  }

  /** All that happens in some pauses. */
  function Concat(pauses: seq<seq<Event>>): seq<Event> {
    if pauses == [] then [] else Concat(pauses[..|pauses| - 1]) + pauses[|pauses| - 1]
  }

  /** upTo[i] is all that happens in the first i pauses. */
  ghost predicate Running(pauses: seq<seq<Event>>, upTo: seq<seq<Event>>) {
    && |upTo| == |pauses| + 1 && upTo[0] == []
    && (forall i :: 0 <= i < |pauses| ==> upTo[i + 1] == upTo[i] + pauses[i])
    && (forall i :: 0 <= i < |upTo| ==> |upTo[i]| <= |upTo[|pauses|]|)
  }

  lemma {:induction false} RunningTotals(pauses: seq<seq<Event>>) returns (upTo: seq<seq<Event>>)
    ensures Running(pauses, upTo) && upTo[|pauses|] == Concat(pauses)
  {
    if pauses == [] {
      upTo := [[]];
    } else {
      var n := |pauses| - 1;
      upTo := RunningTotals(pauses[..n]);
      upTo := upTo + [Concat(pauses)];
    }
  }

  lemma OneMore(events: seq<Event>, i: nat)
    requires i < |events|
    ensures events[..i] + [events[i]] == events[..i + 1]
  {
  }

  lemma AllOf(events: seq<Event>)
    ensures events[..|events|] == events
  {
  }

  lemma AllFiles(sealed: seq<seq<Byte>>)
    ensures sealed[..|sealed|] == sealed
  {
  }

  lemma OneFile(sealed: seq<seq<Byte>>, i: nat)
    requires i < |sealed|
    ensures sealed[..i] + [sealed[i]] == sealed[..i + 1]
  {
  }

  function NextStage(stage: Stage, e: Appenders.Event): Stage { if e.Release? then Idle else stage }

  /** The log's relation to the flusher outlasts every atomic operation. */
  lemma StageFollows(app: Appenders.State, stage: Stage, e: Appenders.Event)
    requires |app.flusher| <= 1 && (app.flusher == [] ==> stage == Idle) && (e.Release? ==> stage == Done)
    ensures var app', stage' := Appenders.Apply(app, e), NextStage(stage, e);
            && (app'.flusher == [] ==> stage' == Idle)
            && (stage' != Idle ==> app'.flusher == app.flusher)
            && app'.persisted + InHand(app', stage') == app.persisted + InHand(app, stage)
            && |app'.persisted| <= |app.persisted + InHand(app, stage)|
  {
    if !e.Dequeue? && !e.Release? { OthersLeaveFlusher(app, e); }
  }

  /** A crash at any moment of a run with fsync: what is found afterwards holds
      every record whose append was acknowledged, and nothing but a prefix of
      what was appended; after serialised appends it is in order again. */
  lemma CrashInRun(log: Log, disk: seq<seq<Byte>>)
    requires log.Valid() && log.fs.fsync && Survives(log.fs, disk)
    ensures log.app.persisted <= Records(disk) <= Appenders.Pipeline(log.app)
    ensures log.serial ==> Increasing(Records(disk))
  {
    CrashKeepsAcknowledged(log.fs, disk);
    WrittenIsPrefix(log.app, log.stage, log.fs.Log());
    var found, all := Records(disk), Appenders.Pipeline(log.app);
    assert found == all[..|found|];
    if log.serial { PrefixInOrder(all, |found|); }
  }
}
