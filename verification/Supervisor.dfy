/** The restart limit of pkg/actor/supervisor.go: restarts are recorded, and one
    more is allowed while fewer than maxRestarts lie within the window. */
module RestartLimit {

  /** How many of the times lie strictly after the cutoff. */
  function CountAfter(times: seq<int>, cutoff: int): nat {
    if times == [] then 0
    else CountAfter(times[..|times| - 1], cutoff) + if times[|times| - 1] > cutoff then 1 else 0
  }

  /** How many of the times lie in the half-open window (from, to]. */
  function CountWithin(times: seq<int>, from: int, to: int): nat {
    if times == [] then 0
    else
      var last := times[|times| - 1];
      CountWithin(times[..|times| - 1], from, to) + if from < last <= to then 1 else 0
  }

  ghost predicate Sorted(times: seq<int>) { forall i, j :: 0 <= i <= j < |times| ==> times[i] <= times[j] }

  /** Each restart was recorded while the window before it had room. */
  ghost predicate Limited(times: seq<int>, maxRestarts: int, window: int) {
    forall i :: 0 <= i < |times| ==> LimitedAt(times, i, maxRestarts, window)
  }

  ghost predicate LimitedAt(times: seq<int>, i: nat, maxRestarts: int, window: int)
    requires i < |times|
  {
    CountAfter(times[..i], times[i] - window) < maxRestarts
  }

  class Limiter {
    const maxRestarts: int
    const restartWindow: int
    var restarts: seq<int>
    ghost var clock: int        // the latest reading of the clock

    ghost predicate Valid()
      reads this
    {
      && Sorted(restarts) && Limited(restarts, maxRestarts, restartWindow)
      && forall i :: 0 <= i < |restarts| ==> restarts[i] <= clock
    }

    constructor (maxRestarts: int, restartWindow: int, start: int)
      ensures Valid() && restarts == [] && clock == start
      ensures this.maxRestarts == maxRestarts && this.restartWindow == restartWindow
    {
      this.maxRestarts, this.restartWindow := maxRestarts, restartWindow;
      restarts, clock := [], start;
    }

    method AllowRestart(now: int) returns (allowed: bool)
      ensures allowed <==> CountAfter(restarts, now - restartWindow) < maxRestarts
    {
      var cutoff := now - restartWindow;
      var n := 0;
      for i := 0 to |restarts|
        invariant n == CountAfter(restarts[..i], cutoff)
      {
        assert restarts[..i + 1][..i] == restarts[..i];
        if restarts[i] > cutoff { n := n + 1; }
      }
      assert restarts[..|restarts|] == restarts;
      allowed := n < maxRestarts;
    }

    method RecordRestart(now: int)
      requires Valid() && clock <= now && CountAfter(restarts, now - restartWindow) < maxRestarts
      modifies this
      ensures Valid() && restarts == old(restarts) + [now] && clock == now
    {
      LimitedNext(restarts, maxRestarts, restartWindow, now);
      restarts, clock := restarts + [now], now;
    }

    /** What the select loop does with a failed child: check, then record.  The
        clock is read twice and may move on in between. */
    method TryRestart(now1: int, now2: int) returns (restarted: bool)
      requires Valid() && clock <= now1 <= now2
      modifies this
      ensures Valid() && clock >= old(clock)
      ensures restarted <==> CountAfter(old(restarts), now1 - restartWindow) < maxRestarts
      ensures restarts == if restarted then old(restarts) + [now2] else old(restarts)
    {
      var allowed := AllowRestart(now1);
      if !allowed { return false; }
      LaterCutoffCountsFewer(restarts, now1 - restartWindow, now2 - restartWindow);
      RecordRestart(now2);
      restarted := true;
    }
  }

  lemma {:induction false} LaterCutoffCountsFewer(times: seq<int>, cutoff: int, later: int)
    requires cutoff <= later
    ensures CountAfter(times, later) <= CountAfter(times, cutoff)
  {
    if times != [] { LaterCutoffCountsFewer(times[..|times| - 1], cutoff, later); }
  }

  lemma {:induction false} WithinIsAfter(times: seq<int>, from: int, to: int)
    ensures CountWithin(times, from, to) <= CountAfter(times, from)
  {
    if times != [] { WithinIsAfter(times[..|times| - 1], from, to); }
  }

  lemma {:induction false} LimitedInit(times: seq<int>, maxRestarts: int, window: int)
    requires times != [] && Sorted(times) && Limited(times, maxRestarts, window)
    ensures Sorted(times[..|times| - 1]) && Limited(times[..|times| - 1], maxRestarts, window)
    ensures CountAfter(times[..|times| - 1], times[|times| - 1] - window) < maxRestarts
  {
    var n := |times| - 1;
    var init := times[..n];
    forall i | 0 <= i < |init| ensures LimitedAt(init, i, maxRestarts, window) {
      assert LimitedAt(times, i, maxRestarts, window) && init[..i] == times[..i];
    }
    assert LimitedAt(times, n, maxRestarts, window);
  }

  /** Any window as long as restartWindow, wherever it lies, holds at most
      maxRestarts recorded restarts. */
  lemma {:induction false} AnyWindowIsLimited(times: seq<int>, maxRestarts: int, window: int, from: int)
    requires Sorted(times) && Limited(times, maxRestarts, window)
    ensures CountWithin(times, from, from + window) <= if maxRestarts > 0 then maxRestarts else 0
  {
    if times != [] {
      var init, last := times[..|times| - 1], times[|times| - 1];
      LimitedInit(times, maxRestarts, window);
      if from < last <= from + window {
        WithinIsAfter(init, from, from + window);
        LaterCutoffCountsFewer(init, last - window, from);
      } else {
        AnyWindowIsLimited(init, maxRestarts, window, from);
      }
    }
  }

  lemma {:induction false} LimitedNext(times: seq<int>, maxRestarts: int, window: int, now: int)
    requires Limited(times, maxRestarts, window) && CountAfter(times, now - window) < maxRestarts
    ensures Limited(times + [now], maxRestarts, window)
  {
    var times' := times + [now];
    forall i | 0 <= i < |times'| ensures LimitedAt(times', i, maxRestarts, window) {
      if i == |times| {
        assert times'[..i] == times;
      } else {
        assert LimitedAt(times, i, maxRestarts, window) && times'[..i] == times[..i];
      }
    }
  }

  // ---------- both ends of the window included ----------

  /** How many of the times lie in the closed window [from, to]. */
  function CountClosed(times: seq<int>, from: int, to: int): nat {
    if times == [] then 0
    else
      var last := times[|times| - 1];
      CountClosed(times[..|times| - 1], from, to) + if from <= last <= to then 1 else 0
  }

  /** A closed window is the half-open one before its end and the one behind its start. */
  lemma {:induction false} ClosedSplits(times: seq<int>, from: int, to: int)
    requires from <= to
    ensures CountClosed(times, from, to) == CountWithin(times, from - 1, from) + CountWithin(times, from, to)
    ensures CountClosed(times, from, to) == CountWithin(times, from - 1, to - 1) + CountWithin(times, to - 1, to)
  {
    if times != [] { ClosedSplits(times[..|times| - 1], from, to); }
  }

  lemma {:induction false} WithinWider(times: seq<int>, from: int, from': int, to: int)
    requires from' <= from
    ensures CountWithin(times, from, to) <= CountWithin(times, from', to)
  {
    if times != [] { WithinWider(times[..|times| - 1], from, from', to); }
  }

  lemma {:induction false} CountedIsThere(times: seq<int>, t: int)
    ensures CountWithin(times, t - 1, t) > 0 ==> t in times
  {
    if times != [] { CountedIsThere(times[..|times| - 1], t); }
  }

  /** With both ends included a window holds at most twice the maximum, and more
      than the maximum only with a restart at each end. */
  lemma {:induction false} ClosedWindowBound(times: seq<int>, maxRestarts: nat, window: nat, from: int)
    requires Sorted(times) && Limited(times, maxRestarts, window) && window > 0
    ensures CountClosed(times, from, from + window) <= 2 * maxRestarts
    ensures CountClosed(times, from, from + window) > maxRestarts ==> from in times && from + window in times
  {
    ClosedSplits(times, from, from + window);
    AnyWindowIsLimited(times, maxRestarts, window, from);
    AnyWindowIsLimited(times, maxRestarts, window, from - 1);
    AnyWindowIsLimited(times, maxRestarts, window, from - window);
    WithinWider(times, from - 1, from - window, from);
    CountedIsThere(times, from);
    CountedIsThere(times, from + window);
  }

  function Repeat(t: int, n: nat): seq<int> { seq(n, _ => t) }

  lemma {:induction false} CountsOfRepeat(before: seq<int>, t: int, n: nat, from: int, to: int)
    ensures CountAfter(before + Repeat(t, n), from) == CountAfter(before, from) + if t > from then n else 0
    ensures CountClosed(before + Repeat(t, n), from, to)
         == CountClosed(before, from, to) + if from <= t <= to then n else 0
  {
    var times := before + Repeat(t, n);
    if n == 0 {
      assert times == before;
    } else {
      assert times[..|times| - 1] == before + Repeat(t, n - 1);
      CountsOfRepeat(before, t, n - 1, from, to);
    }
  }

  lemma {:induction false} RepeatLimited(before: seq<int>, t: int, n: nat, maxRestarts: int, window: int)
    requires Limited(before, maxRestarts, window) && window > 0
    requires CountAfter(before, t - window) + n <= maxRestarts
    ensures Limited(before + Repeat(t, n), maxRestarts, window)
  {
    if n == 0 {
      assert before + Repeat(t, n) == before;
    } else {
      RepeatLimited(before, t, n - 1, maxRestarts, window);
      CountsOfRepeat(before, t, n - 1, t - window, t);
      LimitedNext(before + Repeat(t, n - 1), maxRestarts, window, t);
      assert before + Repeat(t, n - 1) + [t] == before + Repeat(t, n);
    }
  }

  /** And so many it may hold, whatever the maximum and the window: that many
      restarts at each end are all allowed. */
  lemma {:induction false} ClosedWindowMayHoldMore(maxRestarts: nat, window: nat) returns (times: seq<int>)
    requires window > 0
    ensures Sorted(times) && Limited(times, maxRestarts, window)
    ensures CountClosed(times, 0, window) == 2 * maxRestarts
  {
    var early := [] + Repeat(0, maxRestarts);
    times := early + Repeat(window, maxRestarts);
    RepeatLimited([], 0, maxRestarts, maxRestarts, window);
    CountsOfRepeat([], 0, maxRestarts, 0, window);
    RepeatLimited(early, window, maxRestarts, maxRestarts, window);
    CountsOfRepeat(early, window, maxRestarts, 0, window);
  }

  /** No closed window of the restart length holds more than the maximum. */
  ghost predicate ClosedWindowsKept(times: seq<int>, maxRestarts: nat, window: nat) {
    forall from, to :: to == from + window ==> CountClosed(times, from, to) <= maxRestarts
  }

  /** So closed windows are kept, in all that may happen, only if there are no
      restarts at all. */
  lemma ClosedWindowsKeptExactlyWhen(maxRestarts: nat, window: nat)
    requires window > 0
    ensures (forall times :: Sorted(times) && Limited(times, maxRestarts, window) ==>
                               ClosedWindowsKept(times, maxRestarts, window))
            <==> maxRestarts == 0
  {
    if maxRestarts == 0 {
      forall times | Sorted(times) && Limited(times, maxRestarts, window)
        ensures ClosedWindowsKept(times, maxRestarts, window)
      {
        forall from, to | to == from + window ensures CountClosed(times, from, to) <= maxRestarts {
          ClosedWindowBound(times, maxRestarts, window, from);
        }
      }
    } else {
      var times := ClosedWindowMayHoldMore(maxRestarts, window);
      assert CountClosed(times, 0, window) > maxRestarts;
    }
  }
}

/** The supervisor's goroutine, its children's runners and the result channel
    between them, whose capacity is the number of children. */
module ResultChannel {
  import opened FiniteSets
  import opened RestartLimit

  datatype Strategy = OneForOne | AllForOne

  datatype Result = Result(index: nat, failed: bool)

  /** Where the goroutine of Start stands. */
  datatype Pc =
    | Starting(next: nat)        // starting all children, `next` first
    | Waiting                    // in the select
    | Restarting(index: nat)     // about to start one child again
    | Blocked(index: nat, after: Pc)  // sending the failure of a start to the full channel; then `after`
    | Stopped

  datatype Config = Config(strategy: Strategy, children: nat, maxRestarts: int, restartWindow: int, start: int)

  datatype State = State(
    cfg: Config,
    runners: seq<nat>,           // live runners of each child
    channel: seq<Result>,
    pc: Pc,
    restarts: seq<int>,          // when restarts were recorded
    clock: int)                  // the latest reading of the clock

  datatype Event =
    | StartOne(ok: bool)                      // spec.Start succeeds or fails
    | Send                                    // the channel has room again for a blocked send
    | Finish(index: nat, failed: bool)        // a runner returns and sends
    | Receive(now1: int, now2: int)           // a result arrives in the select; allowRestart
                                              // and recordRestart read the clock
    | Stop

  function Init(cfg: Config): State {
    State(cfg, seq(cfg.children, _ => 0), [], if cfg.children == 0 then Waiting else Starting(0), [], cfg.start)
  }

  /** startOne for child i, then on to `then`. */
  function Start(s: State, i: nat, ok: bool, then': Pc): State
    requires i < |s.runners|
  {
    if ok then s.(runners := s.runners[i := s.runners[i] + 1], pc := then')
    else if |s.channel| < |s.runners| then s.(channel := s.channel + [Result(i, true)], pc := then')
    else s.(pc := Blocked(i, then'))
  }

  /** A blocked send goes through as soon as the channel has room. */
  function Sent(s: State): State {
    if s.pc.Blocked? && |s.channel| < |s.runners| then
      s.(channel := s.channel + [Result(s.pc.index, true)], pc := s.pc.after)
    else s
  }

  /** Start the child that is due, if any. */
  function Started(s: State, ok: bool): State {
    if s.pc.Starting? && s.pc.next < |s.runners| then
      Start(s, s.pc.next, ok, if s.pc.next + 1 < |s.runners| then Starting(s.pc.next + 1) else Waiting)
    else if s.pc.Restarting? && s.pc.index < |s.runners| then
      Start(s, s.pc.index, ok, Waiting)
    else s
  }

  /** A runner of child i returns and sends, if the channel has room. */
  function Finished(s: State, i: nat, failed: bool): State {
    if i < |s.runners| && s.runners[i] > 0 && |s.channel| < |s.runners| then
      s.(runners := s.runners[i := s.runners[i] - 1], channel := s.channel + [Result(i, failed)])
    else s
  }

  /** The select receives a result; allowRestart and recordRestart decide. */
  function Received(s: State, now1: int, now2: int): State {
    if !s.pc.Waiting? || s.channel == [] || now1 < s.clock || now2 < now1 then s
    else
      var r, s' := s.channel[0], s.(channel := s.channel[1..]);
      if !r.failed then s'
      else if CountAfter(s.restarts, now1 - s.cfg.restartWindow) >= s.cfg.maxRestarts then
        s'.(pc := Stopped, clock := now1)
      else
        s'.(pc := if s.cfg.strategy == OneForOne then Restarting(r.index) else Starting(0),
            restarts := s.restarts + [now2], clock := now2)
  }

  /** An event that is not enabled leaves the state alone. */
  function Apply(s: State, e: Event): State {
    match e
    case StartOne(ok) => Started(s, ok)
    case Send => Sent(s)
    case Finish(i, failed) => Finished(s, i, failed)
    case Receive(now1, now2) => Received(s, now1, now2)
    case Stop => if s.pc.Waiting? then s.(pc := Stopped) else s
  }

  /** The state reached from s by a sequence of events. */
  ghost function From(s: State, events: seq<Event>): State {
    if events == [] then s else Apply(From(s, events[..|events| - 1]), events[|events| - 1])
  }

  ghost function Run(cfg: Config, events: seq<Event>): State { From(Init(cfg), events) }

  // ---------- the restart limit in every run ----------

  ghost predicate WithinLimit(s: State) {
    && Sorted(s.restarts) && Limited(s.restarts, s.cfg.maxRestarts, s.cfg.restartWindow)
    && forall i :: 0 <= i < |s.restarts| ==> s.restarts[i] <= s.clock
  }

  lemma {:induction false} ReceiveWithinLimit(s: State, now1: int, now2: int)
    requires WithinLimit(s)
    ensures WithinLimit(Received(s, now1, now2))
  {
    var s' := Received(s, now1, now2);
    if s'.restarts != s.restarts {
      LaterCutoffCountsFewer(s.restarts, now1 - s.cfg.restartWindow, now2 - s.cfg.restartWindow);
      LimitedNext(s.restarts, s.cfg.maxRestarts, s.cfg.restartWindow, now2);
    }
  }

  lemma StepWithinLimit(s: State, e: Event)
    requires WithinLimit(s)
    ensures WithinLimit(Apply(s, e)) && Apply(s, e).cfg == s.cfg
  {
    if e.Receive? {
      ReceiveWithinLimit(s, e.now1, e.now2);
    } else {
      assert Apply(s, e).restarts == s.restarts;
    }
  }

  /** In every run, check and record interleaved with all else, any window of
      the restart length holds at most maxRestarts recorded restarts. */
  lemma {:induction false} RestartsAreLimited(cfg: Config, events: seq<Event>, from: int)
    ensures WithinLimit(Run(cfg, events)) && Run(cfg, events).cfg == cfg
    ensures CountWithin(Run(cfg, events).restarts, from, from + cfg.restartWindow)
         <= if cfg.maxRestarts > 0 then cfg.maxRestarts else 0
  {
    if events != [] {
      var init, e := events[..|events| - 1], events[|events| - 1];
      RestartsAreLimited(cfg, init, from);
      StepWithinLimit(Run(cfg, init), e);
    }
    AnyWindowIsLimited(Run(cfg, events).restarts, cfg.maxRestarts, cfg.restartWindow, from);
  }

  // ---------- one for one, or one child only, or no restarts ----------

  function InChannel(channel: seq<Result>, i: nat): nat {
    if channel == [] then 0
    else InChannel(channel[..|channel| - 1], i) + if channel[|channel| - 1].index == i then 1 else 0
  }

  /** The supervisor is about to start child i. */
  predicate Due(pc: Pc, i: nat) {
    (pc.Starting? && pc.next <= i) || (pc.Restarting? && pc.index == i)
  }

  /** Each child has at most one runner, or result, or start ahead of it. */
  ghost predicate OneEach(s: State) {
    forall i :: 0 <= i < |s.runners| ==>
      s.runners[i] + InChannel(s.channel, i) + (if Due(s.pc, i) then 1 else 0) <= 1
  }

  /** No child is ever started again while it may have a runner or a result. */
  predicate Harmless(cfg: Config) {
    cfg.strategy == OneForOne || cfg.children <= 1 || cfg.maxRestarts <= 0
  }

  /** Not blocked, and pointing at a child if at any. */
  predicate Pointed(pc: Pc, n: nat) {
    !pc.Blocked? && (pc.Starting? ==> pc.next < n) && (pc.Restarting? ==> pc.index < n)
  }

  ghost predicate Inv(s: State) {
    && Harmless(s.cfg) && |s.runners| == s.cfg.children && Pointed(s.pc, |s.runners|)
    && (forall a :: 0 <= a < |s.channel| ==> s.channel[a].index < |s.runners|)
    && OneEach(s)
  }

  lemma InChannelFirst(channel: seq<Result>, i: nat)
    requires channel != []
    ensures InChannel(channel, i) == InChannel(channel[1..], i) + if channel[0].index == i then 1 else 0
  {
    if |channel| > 1 {
      var init := channel[..|channel| - 1];
      InChannelFirst(init, i);
      assert init[1..] == channel[1..][..|channel| - 2];
    }
  }

  lemma InChannelNext(channel: seq<Result>, r: Result, i: nat)
    ensures InChannel(channel + [r], i) == InChannel(channel, i) + if r.index == i then 1 else 0
  {
    assert (channel + [r])[..|channel|] == channel;
  }

  lemma ChannelGrows(channel: seq<Result>, r: Result)
    ensures forall i: nat :: InChannel(channel + [r], i) == InChannel(channel, i) + if r.index == i then 1 else 0
  {
    forall i: nat ensures InChannel(channel + [r], i) == InChannel(channel, i) + if r.index == i then 1 else 0 {
      InChannelNext(channel, r, i);
    }
  }

  /** The children of which the channel holds results, among the first n. */
  ghost function Senders(channel: seq<Result>): set<nat> { set a | 0 <= a < |channel| :: channel[a].index }

  lemma {:induction false} InChannelPositive(channel: seq<Result>, a: nat)
    requires a < |channel|
    ensures InChannel(channel, channel[a].index) >= 1
  {
    if a < |channel| - 1 { InChannelPositive(channel[..|channel| - 1], a); }
  }

  lemma {:induction false} DistinctSenders(channel: seq<Result>)
    requires forall i: nat :: InChannel(channel, i) <= 1
    ensures |Senders(channel)| == |channel|
  {
    if channel != [] {
      var n := |channel| - 1;
      var init, last := channel[..n], channel[n].index;
      forall i: nat ensures InChannel(init, i) <= 1 { assert InChannel(channel, i) <= 1; }
      DistinctSenders(init);
      assert last !in Senders(init) by {
        if last in Senders(init) {
          var a :| 0 <= a < |init| && init[a].index == last;
          assert InChannel(channel, last) == InChannel(init, last) + 1;
          InChannelPositive(init, a);
        }
      }
      assert Senders(channel) == Senders(init) + {last} by {
        forall x | x in Senders(init) ensures x in Senders(channel) {
          var a :| 0 <= a < |init| && init[a].index == x;
          assert channel[a].index == x;
        }
        assert channel[n].index == last;
        forall x | x in Senders(channel) ensures x in Senders(init) || x == last {
          var a :| 0 <= a < |channel| && channel[a].index == x;
          if a < n { assert init[a].index == x; }
        }
      }
    }
  }

  /** A child that runs, or is about to be started, leaves room for its result. */
  lemma RoomForResult(s: State, i: nat)
    requires Inv(s) && i < |s.runners| && InChannel(s.channel, i) == 0
    ensures |s.channel| < |s.runners|
  {
    forall j: nat ensures InChannel(s.channel, j) <= 1 {
      if j >= |s.runners| { StrangerSendsNothing(s.channel, |s.runners|, j); }
    }
    DistinctSenders(s.channel);
    assert Senders(s.channel) <= Upto(|s.runners|) - {i} by {
      if i in Senders(s.channel) {
        var a :| 0 <= a < |s.channel| && s.channel[a].index == i;
        InChannelPositive(s.channel, a);
      }
    }
    SubsetSmaller(Senders(s.channel), Upto(|s.runners|) - {i});
  }

  lemma {:induction false} StrangerSendsNothing(channel: seq<Result>, n: nat, j: nat)
    requires j >= n && forall a :: 0 <= a < |channel| ==> channel[a].index < n
    ensures InChannel(channel, j) == 0
  {
    if channel != [] { StrangerSendsNothing(channel[..|channel| - 1], n, j); }
  }

  lemma {:induction false} StartDue(s: State, i: nat, ok: bool, then': Pc)
    requires Inv(s) && i < |s.runners| && Due(s.pc, i) && Pointed(then', |s.runners|)
    requires forall j: nat :: Due(then', j) ==> Due(s.pc, j) && j != i
    ensures Inv(Start(s, i, ok, then'))
  {
    if ok {
      assert OneEach(Start(s, i, ok, then'));
    } else {
      RoomForResult(s, i);
      ChannelGrows(s.channel, Result(i, true));
      assert OneEach(Start(s, i, ok, then'));
    }
  }

  lemma StartKeeps(s: State, ok: bool)
    requires Inv(s)
    ensures Inv(Started(s, ok))
  {
    if s.pc.Starting? {
      StartDue(s, s.pc.next, ok, if s.pc.next + 1 < |s.runners| then Starting(s.pc.next + 1) else Waiting);
    } else if s.pc.Restarting? {
      StartDue(s, s.pc.index, ok, Waiting);
    }
  }

  lemma FinishKeeps(s: State, i: nat, failed: bool)
    requires Inv(s)
    ensures Inv(Finished(s, i, failed))
  {
    ChannelGrows(s.channel, Result(i, failed));
  }

  lemma ReceiveKeeps(s: State, now1: int, now2: int)
    requires Inv(s)
    ensures Inv(Received(s, now1, now2))
  {
    if s.pc.Waiting? && s.channel != [] {
      forall j: nat ensures InChannel(s.channel, j)
                         == InChannel(s.channel[1..], j) + if s.channel[0].index == j then 1 else 0 {
        InChannelFirst(s.channel, j);
      }
    }
  }

  lemma {:induction false} RunKeeps(cfg: Config, events: seq<Event>)
    requires Harmless(cfg)
    ensures Inv(Run(cfg, events)) && Run(cfg, events).cfg == cfg
  {
    if events != [] {
      var init, e := events[..|events| - 1], events[|events| - 1];
      RunKeeps(cfg, init);
      var s := Run(cfg, init);
      match e {
        case StartOne(ok) => StartKeeps(s, ok);
        case Send =>
        case Finish(i, failed) => FinishKeeps(s, i, failed);
        case Receive(now1, now2) => ReceiveKeeps(s, now1, now2);
        case Stop =>
      }
    }
  }

  /** Under OneForOne, in every run: the supervisor never blocks on its own
      channel, each child has at most one result outstanding, and a runner that
      finishes always finds room to send. */
  lemma OneForOneNeverBlocks(cfg: Config, events: seq<Event>)
    requires cfg.strategy == OneForOne
    ensures var s := Run(cfg, events);
            && !s.pc.Blocked? && |s.runners| == cfg.children
            && (forall i :: 0 <= i < |s.runners| ==> s.runners[i] + InChannel(s.channel, i) <= 1)
            && (forall i :: 0 <= i < |s.runners| && s.runners[i] > 0 ==> |s.channel| < |s.runners|)
  {
    RunKeeps(cfg, events);
    var s := Run(cfg, events);
    forall i | 0 <= i < |s.runners| && s.runners[i] > 0 ensures |s.channel| < |s.runners| {
      RoomForResult(s, i);
    }
  }

  // ---------- all for one ----------

  lemma RunNext(cfg: Config, events: seq<Event>, e: Event)
    ensures Run(cfg, events + [e]) == Apply(Run(cfg, events), e)
  {
    assert (events + [e])[..|events|] == events;
  }

  /** The first k children have been started. */
  lemma {:induction false} StartFirst(cfg: Config, k: nat) returns (events: seq<Event>)
    requires cfg.children >= 1 && k <= cfg.children
    ensures var n := cfg.children;
            Run(cfg, events) == State(cfg, seq(n, i => if i < k then 1 else 0), [],
                                      if k < n then Starting(k) else Waiting, [], cfg.start)
  {
    var n := cfg.children;
    if k == 0 {
      events := [];
      assert seq(n, _ => 0) == seq(n, i => if i < 0 then 1 else 0);
    } else {
      events := StartFirst(cfg, k - 1);
      RunNext(cfg, events, StartOne(true));
      events := events + [StartOne(true)];
      assert seq(n, i => if i < k - 1 then 1 else 0)[k - 1 := 1] == seq(n, i => if i < k then 1 else 0);
    }
  }

  function Cancelled(k: nat): seq<Result> { seq(k, i requires 0 <= i < k => Result(i + 1, false)) }

  predicate MayRestartAll(cfg: Config) {
    cfg.strategy == AllForOne && cfg.children >= 2 && cfg.maxRestarts >= 1
  }

  /** Child 0 has failed and all are to be restarted: the first restart is allowed. */
  lemma FailFirst(cfg: Config) returns (events: seq<Event>)
    requires MayRestartAll(cfg)
    ensures var n := cfg.children;
            Run(cfg, events) == State(cfg, seq(n, i => if i <= 0 then 0 else 1), Cancelled(0), Starting(0),
                                      [cfg.start], cfg.start)
  {
    var n := cfg.children;
    events := StartFirst(cfg, n);
    RunNext(cfg, events, Finish(0, true));
    events := events + [Finish(0, true)];
    RunNext(cfg, events, Receive(cfg.start, cfg.start));
    events := events + [Receive(cfg.start, cfg.start)];
    assert seq(n, i => if i < n then 1 else 0)[0 := 0] == seq(n, i => if i <= 0 then 0 else 1);
  }

  /** And the old runners of the next k children have sent their results. */
  lemma {:induction false} CancelFirst(cfg: Config, k: nat) returns (events: seq<Event>)
    requires MayRestartAll(cfg) && k < cfg.children
    ensures var n := cfg.children;
            Run(cfg, events) == State(cfg, seq(n, i => if i <= k then 0 else 1), Cancelled(k), Starting(0),
                                      [cfg.start], cfg.start)
  {
    var n := cfg.children;
    if k == 0 {
      events := FailFirst(cfg);
    } else {
      events := CancelFirst(cfg, k - 1);
      RunNext(cfg, events, Finish(k, false));
      events := events + [Finish(k, false)];
      assert seq(n, i => if i <= k - 1 then 0 else 1)[k := 0] == seq(n, i => if i <= k then 0 else 1);
      assert Cancelled(k - 1) + [Result(k, false)] == Cancelled(k);
    }
  }

  /** With two or more children and one restart allowed AllForOne can block: one
      child fails, the cancelled runners of the others send too, and two
      restarts fail at once. */
  lemma AllForOneMayBlock(cfg: Config) returns (events: seq<Event>)
    requires MayRestartAll(cfg)
    ensures Run(cfg, events).pc.Blocked?
  {
    events := CancelFirst(cfg, cfg.children - 1);
    RunNext(cfg, events, StartOne(false));
    events := events + [StartOne(false)];
    RunNext(cfg, events, StartOne(false));
    events := events + [StartOne(false)];
  }

  /** While the supervisor is blocked the channel is full: it is the only one
      that reads it, and nothing else can be sent either. */
  ghost predicate FullIfBlocked(s: State) { s.pc.Blocked? ==> |s.channel| >= |s.runners| }

  lemma StepFullIfBlocked(s: State, e: Event)
    requires FullIfBlocked(s)
    ensures FullIfBlocked(Apply(s, e)) && (s.pc.Blocked? ==> Apply(s, e) == s)
  {
  }

  lemma {:induction false} FromFullIfBlocked(s: State, more: seq<Event>)
    requires FullIfBlocked(s)
    ensures FullIfBlocked(From(s, more)) && (s.pc.Blocked? ==> From(s, more) == s)
  {
    if more != [] {
      var n := |more| - 1;
      FromFullIfBlocked(s, more[..n]);
      StepFullIfBlocked(From(s, more[..n]), more[n]);
    }
  }

  lemma {:induction false} FromConcat(s: State, a: seq<Event>, b: seq<Event>)
    ensures From(s, a + b) == From(From(s, a), b)
  {
    if b == [] {
      assert a + b == a;
    } else {
      var n := |b| - 1;
      FromConcat(s, a, b[..n]);
      assert (a + b)[..|a + b| - 1] == a + b[..n] && (a + b)[|a + b| - 1] == b[n];
    }
  }

  /** Once blocked, blocked for ever: in no continuation of a run does the channel
      get room for the pending send, and no runner can send or finish either. */
  lemma BlockedForEver(cfg: Config, events: seq<Event>, more: seq<Event>)
    requires Run(cfg, events).pc.Blocked?
    ensures Run(cfg, events + more) == Run(cfg, events)
    ensures |Run(cfg, events).channel| >= |Run(cfg, events).runners|
  {
    FromFullIfBlocked(Init(cfg), events);
    FromConcat(Init(cfg), events, more);
    FromFullIfBlocked(Run(cfg, events), more);
  }

  /** The supervisor can block on its own channel exactly when it restarts all
      children for one, has more than one, and allows a restart at all. */
  lemma BlocksExactlyWhen(cfg: Config)
    ensures (exists events :: Run(cfg, events).pc.Blocked?)
            <==> cfg.strategy == AllForOne && cfg.children >= 2 && cfg.maxRestarts >= 1
  {
    if MayRestartAll(cfg) {
      var events := AllForOneMayBlock(cfg);
    } else {
      forall events ensures !Run(cfg, events).pc.Blocked? {
        RunKeeps(cfg, events);
      }
    }
  }
}
