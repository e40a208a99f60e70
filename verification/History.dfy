/** What the clients of one worker have asked, in the order it was dispatched,
    and what the flat map answers to each of them. */
module History {
  import opened FlatStore

  /** One dispatched command: the client session, its words, the clock
      readings; the reply it got, and the flat map after it. */
  datatype Call = Call(session: nat, args: seq<string>, ts: seq<nat>, reply: string, after: Db)

  function DbAfter(h: seq<Call>): Db {
    if h == [] then map[] else h[|h| - 1].after
  }

  /** Call i was answered as the flat map answers after the calls before it. */
  ghost predicate GenuineAt(h: seq<Call>, i: nat)
    requires i < |h|
  {
    && h[i].args != [] && Readings(h[i].ts, |h[i].args|)
    && (h[i].after, h[i].reply) == Exec(DbAfter(h[..i]), h[i].ts, h[i].args)
  }

  ghost predicate Genuine(h: seq<Call>) {
    forall i :: 0 <= i < |h| ==> GenuineAt(h, i)
  }

  /** The commands of one session, in order. */
  ghost function CommandsOf(h: seq<Call>, session: nat): seq<seq<string>> {
    if h == [] then []
    else CommandsOf(h[..|h| - 1], session) + if h[|h| - 1].session == session then [h[|h| - 1].args] else []
  }

  /** The replies owed to one session, in order. */
  ghost function RepliesTo(h: seq<Call>, session: nat): string {
    if h == [] then ""
    else RepliesTo(h[..|h| - 1], session) + if h[|h| - 1].session == session then h[|h| - 1].reply else ""
  }

  lemma ExtendGenuine(h: seq<Call>, call: Call)
    requires Genuine(h) && call.args != [] && Readings(call.ts, |call.args|)
    requires (call.after, call.reply) == Exec(DbAfter(h), call.ts, call.args)
    ensures Genuine(h + [call])
  {
    var h' := h + [call];
    forall i | 0 <= i < |h'| ensures GenuineAt(h', i) {
      assert h'[..i] == h[..i];
      if i < |h| { assert GenuineAt(h, i); } else { assert h[..|h|] == h; }
    }
  }

  lemma Extend(h: seq<Call>, call: Call, session: nat)
    ensures CommandsOf(h + [call], session)
         == if call.session == session then CommandsOf(h, session) + [call.args] else CommandsOf(h, session)
    ensures RepliesTo(h + [call], session)
         == if call.session == session then RepliesTo(h, session) + call.reply else RepliesTo(h, session)
  {
    assert (h + [call])[..|h|] == h;
  }

  /** A session whose only command, if any, is QUIT is owed five bytes at most. */
  lemma {:induction false} OneQuitReply(h: seq<Call>, session: nat)
    requires Genuine(h) && CommandsOf(h, session) <= [["QUIT"]]
    ensures |RepliesTo(h, session)| == 5 * |CommandsOf(h, session)|
  {
    if h != [] {
      var last, before := h[|h| - 1], h[..|h| - 1];
      assert GenuineAt(h, |h| - 1);
      forall i | 0 <= i < |before| ensures GenuineAt(before, i) {
        assert GenuineAt(h, i) && before[..i] == h[..i];
      }
      assert CommandsOf(before, session) <= CommandsOf(h, session);
      OneQuitReply(before, session);
      if last.session == session {
        assert last.args == CommandsOf(h, session)[0];
        assert Upper("QUIT") == "QUIT";
        assert last.reply == Simple("OK");
      }
    }
  }

  predicate IsQuit(c: Call) { c.args != [] && Upper(c.args[0]) == "QUIT" }

  /** Among the calls from number n on there is a QUIT. */
  ghost predicate QuitSince(h: seq<Call>, n: nat) {
    exists i :: n <= i < |h| && IsQuit(h[i])
  }

  lemma QuitNext(h: seq<Call>, call: Call, n: nat)
    requires n <= |h|
    ensures QuitSince(h + [call], n) <==> QuitSince(h, n) || IsQuit(call)
  {
    var h' := h + [call];
    if QuitSince(h, n) {
      var i :| n <= i < |h| && IsQuit(h[i]);
      assert IsQuit(h'[i]);
    }
    if IsQuit(call) { assert IsQuit(h'[|h|]); }
  }

  /** Call by call the same clock readings; calls of session s1 in the one are
      calls of session s2 in the other, and all others have the same words. */
  ghost predicate SameButFor(h1: seq<Call>, h2: seq<Call>, s1: nat, s2: nat) {
    && |h1| == |h2|
    && (forall i :: 0 <= i < |h1| ==> h1[i].ts == h2[i].ts && (h1[i].session == s1 <==> h2[i].session == s2))
    && (forall i :: 0 <= i < |h1| && h1[i].session != s1 ==> h1[i].args == h2[i].args)
  }

  /** Then equal commands of the two sessions make all words the same. */
  lemma {:induction false} SameWords(h1: seq<Call>, h2: seq<Call>, s1: nat, s2: nat)
    requires SameButFor(h1, h2, s1, s2) && CommandsOf(h1, s1) == CommandsOf(h2, s2)
    ensures forall i :: 0 <= i < |h1| ==> h1[i].args == h2[i].args
  {
    if h1 != [] {
      var n := |h1| - 1;
      var c1, c2 := CommandsOf(h1[..n], s1), CommandsOf(h2[..n], s2);
      if h1[n].session == s1 {
        assert c1 == (c1 + [h1[n].args])[..|c1|] && c2 == (c2 + [h2[n].args])[..|c2|];
        assert h1[n].args == (c1 + [h1[n].args])[|c1|];
      } else {
        assert c1 + [] == c1 && c2 + [] == c2;
      }
      SameWords(h1[..n], h2[..n], s1, s2);
      forall i | 0 <= i < |h1| ensures h1[i].args == h2[i].args {
        if i < n { assert h1[..n][i] == h1[i] && h2[..n][i] == h2[i]; }
      }
    }
  }

  /** Replies depend only on the commands and the clock readings, not on how
      sessions are named: two sessions get the same bytes. */
  lemma {:induction false} SameCallsSameReplies(h1: seq<Call>, h2: seq<Call>, s1: nat, s2: nat)
    requires Genuine(h1) && Genuine(h2) && SameButFor(h1, h2, s1, s2)
    requires forall i :: 0 <= i < |h1| ==> h1[i].args == h2[i].args
    ensures DbAfter(h1) == DbAfter(h2) && RepliesTo(h1, s1) == RepliesTo(h2, s2)
  {
    if h1 != [] {
      var n := |h1| - 1;
      GenuinePrefix(h1, n);
      GenuinePrefix(h2, n);
      SameCallsSameReplies(h1[..n], h2[..n], s1, s2);
      assert GenuineAt(h1, n) && GenuineAt(h2, n);
    }
  }

  lemma GenuinePrefix(h: seq<Call>, n: nat)
    requires Genuine(h) && n <= |h|
    ensures Genuine(h[..n])
  {
    forall i | 0 <= i < n ensures GenuineAt(h[..n], i) {
      assert GenuineAt(h, i) && h[..n][..i] == h[..i];
    }
  }

  lemma {:induction false} FreshSession(h: seq<Call>, session: nat)
    requires forall i :: 0 <= i < |h| ==> h[i].session != session
    ensures CommandsOf(h, session) == [] && RepliesTo(h, session) == ""
  {
    if h != [] { FreshSession(h[..|h| - 1], session); }
  }
}
