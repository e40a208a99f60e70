/** Decimal numbers as the RESP parser reads them and the encoders print them. */
module Decimal {
  import opened Options

  predicate IsDigit(c: char) { '0' <= c <= '9' }

  function Digit(c: char): nat
    requires IsDigit(c)
  {
    c as int - '0' as int
  }

  predicate AllDigits(s: string) { forall i :: 0 <= i < |s| ==> IsDigit(s[i]) }

  function Value(s: string): nat
    requires AllDigits(s)
  {
    if s == "" then 0 else 10 * Value(s[..|s| - 1]) + Digit(s[|s| - 1])
  }

  /** An optional minus sign followed by at least one digit, and nothing else. */
  function ParseInt(s: string): Option<int> {
    if s != "" && s[0] == '-' then
      if |s| > 1 && AllDigits(s[1..]) then Some(-(Value(s[1..]) as int)) else None
    else
      if s != "" && AllDigits(s) then Some(Value(s)) else None
  }

  lemma ValueNext(s: string, i: nat)
    requires i < |s| && AllDigits(s[..i]) && IsDigit(s[i])
    ensures AllDigits(s[..i + 1]) && Value(s[..i + 1]) == 10 * Value(s[..i]) + Digit(s[i])
  {
    assert s[..i + 1][..i] == s[..i];
  }

  /** parse_int64_ascii on buf[start..end), over unbounded integers. */
  method ParseInt64Ascii(buf: string, start: nat, end: nat) returns (r: Option<int>)
    requires start <= end <= |buf|
    ensures r == ParseInt(buf[start..end])
  {
    if end <= start { return None; }
    var neg, i := false, start;
    if buf[i] == '-' { neg, i := true, i + 1; }
    if i >= end { return None; }
    assert buf[start..end][i - start..] == buf[i..end];
    var v: nat := 0;
    ghost var from, digits := i, buf[i..end];
    while i < end
      invariant from <= i <= end && AllDigits(digits[..i - from]) && v == Value(digits[..i - from])
    {
      var c := buf[i];
      assert c == digits[i - from];
      if c < '0' || c > '9' { return None; }
      ValueNext(digits, i - from);
      v := v * 10 + Digit(c);
      i := i + 1;
    }
    assert digits[..end - from] == digits;
    r := Some(if neg then -(v as int) else v);
  }

  function ToDigit(n: nat): (c: char)
    requires n < 10
    ensures IsDigit(c) && Digit(c) == n
  {
    ('0' as int + n) as char
  }

  /** The decimal digits of n, without leading zeros. */
  function Dec(n: nat): (s: string)
    ensures s != "" && AllDigits(s)
  {
    if n < 10 then [ToDigit(n)] else Dec(n / 10) + [ToDigit(n % 10)]
  }

  lemma {:induction false} ValueOfDec(n: nat)
    ensures Value(Dec(n)) == n
  {
    if n < 10 {
      assert Value("") == 0 && [ToDigit(n)][..0] == "";
    } else {
      var s := Dec(n);
      assert s[..|s| - 1] == Dec(n / 10);
      ValueOfDec(n / 10);
    }
  }

  lemma ParseOfDec(n: nat)
    ensures ParseInt(Dec(n)) == Some(n)
  {
    ValueOfDec(n);
    assert IsDigit(Dec(n)[0]);
  }
}

/** The incremental RESP2 command parser of mini_redis_server.cpp, the command
    encoder of bench_miniredis.py, and the greedy parse of a byte stream.  A
    byte is a `char`; no result below depends on its range. */
module Resp {
  import opened Options
  import opened Decimal

  datatype Parsed =
    | Ok(args: seq<string>, consumed: nat)
    | Incomplete
    | Error(message: string)

  const BAD_MULTIBULK := "ERR Protocol error: invalid multibulk length"
  const BAD_BULK := "ERR Protocol error: invalid bulk length"
  const NO_DOLLAR := "ERR Protocol error: expected '$'"
  const NO_CRLF := "ERR Protocol error: missing CRLF after bulk string"

  predicate CrlfAt(buf: string, i: nat) {
    i + 1 < |buf| && buf[i] == '\r' && buf[i + 1] == '\n'
  }

  /** The first CR LF at or after `start`. */
  function FindCrlf(buf: string, start: nat): (r: Option<nat>)
    ensures r.Some? ==> start <= r.value && CrlfAt(buf, r.value)
    decreases |buf| - start
  {
    if start + 1 >= |buf| then None
    else if CrlfAt(buf, start) then Some(start)
    else FindCrlf(buf, start + 1)
  }

  datatype Bulk =
    | Got(arg: string, next: nat)
    | Undecided
    | Bad(message: string)

  /** The bulk string at `pos`; a null bulk string reads as the empty string. */
  function ParseBulk(buf: string, pos: nat): (r: Bulk)
    ensures r.Got? ==> pos < r.next <= |buf|
  {
    if pos >= |buf| then Undecided
    else if buf[pos] != '$' then Bad(NO_DOLLAR)
    else
      match FindCrlf(buf, pos)
      case None => Undecided
      case Some(e) =>
        match ParseInt(buf[pos + 1..e])
        case None => Bad(BAD_BULK)
        case Some(len) =>
          if len < -1 then Bad(BAD_BULK)
          else if len == -1 then Got("", e + 2)
          else if e + 2 + len + 2 > |buf| then Undecided
          else if !CrlfAt(buf, e + 2 + len) then Bad(NO_CRLF)
          else Got(buf[e + 2..e + 2 + len], e + 2 + len + 2)
  }

  /** The remaining n bulk strings of an array, from `pos` on. */
  function ParseBulks(buf: string, pos: nat, n: nat, args: seq<string>): Parsed
    decreases n
  {
    if n == 0 then Ok(args, pos)
    else
      match ParseBulk(buf, pos)
      case Undecided => Incomplete
      case Bad(message) => Error(message)
      case Got(arg, next) => ParseBulks(buf, next, n - 1, args + [arg])
  }

  predicate IsBlank(c: char) { c == ' ' || c == '\t' }

  function SkipBlanks(line: string, i: nat): (j: nat)
    requires i <= |line|
    ensures i <= j <= |line| && (j < |line| ==> !IsBlank(line[j]))
    decreases |line| - i
  {
    if i < |line| && IsBlank(line[i]) then SkipBlanks(line, i + 1) else i
  }

  function EndOfWord(line: string, i: nat): (j: nat)
    requires i <= |line|
    ensures i <= j <= |line| && (i < |line| && !IsBlank(line[i]) ==> i < j)
    decreases |line| - i
  {
    if i < |line| && !IsBlank(line[i]) then EndOfWord(line, i + 1) else i
  }

  /** The blank-separated words of an inline command. */
  function SplitWords(line: string, i: nat): seq<string>
    requires i <= |line|
    decreases |line| - i
  {
    var a := SkipBlanks(line, i);
    if a == |line| then [] else
      var b := EndOfWord(line, a);
      [line[a..b]] + SplitWords(line, b)
  }

  /** An array of bulk strings, e.g. "*1\r\n$4\r\nPING\r\n". */
  function ParseMultibulk(buf: string): Parsed
    requires buf != "" && buf[0] == '*'
  {
    match FindCrlf(buf, 0)
    case None => Incomplete
    case Some(e) =>
      match ParseInt(buf[1..e])
      case None => Error(BAD_MULTIBULK)
      case Some(n) => if n < 0 then Error(BAD_MULTIBULK) else ParseBulks(buf, e + 2, n, [])
  }

  /** An inline command, e.g. "GET key\r\n". */
  function ParseInline(buf: string): Parsed {
    match FindCrlf(buf, 0)
    case None => Incomplete
    case Some(e) => Ok(SplitWords(buf[..e], 0), e + 2)
  }

  function ParseCommand(buf: string): Parsed {
    if buf == "" then Incomplete
    else if buf[0] == '*' then ParseMultibulk(buf)
    else ParseInline(buf)
  }

  // ---------- the C++ routines ----------

  method ScanCrlf(buf: string, start: nat) returns (r: Option<nat>)
    ensures r == FindCrlf(buf, start)
  {
    var i := start;
    while i + 1 < |buf|
      invariant FindCrlf(buf, start) == FindCrlf(buf, i)
    {
      if buf[i] == '\r' && buf[i + 1] == '\n' { return Some(i); }
      i := i + 1;
    }
    r := None;
  }

  /** The body of the parser's loop over an array. */
  method ParseBulkString(buf: string, start: nat) returns (r: Bulk)
    ensures r == ParseBulk(buf, start)
  {
    var pos := start;
    if pos >= |buf| { return Undecided; }
    if buf[pos] != '$' { return Bad(NO_DOLLAR); }
    var line := ScanCrlf(buf, pos);
    if line.None? { return Undecided; }
    var len := ParseInt64Ascii(buf, pos + 1, line.value);
    if len.None? || len.value < -1 { return Bad(BAD_BULK); }
    pos := line.value + 2;
    if len.value == -1 { return Got("", pos); }
    if pos + len.value + 2 > |buf| { return Undecided; }
    var arg := buf[pos..pos + len.value];
    pos := pos + len.value;
    if buf[pos] != '\r' || buf[pos + 1] != '\n' { return Bad(NO_CRLF); }
    r := Got(arg, pos + 2);
  }

  /** The parser's loop over the n strings of an array. */
  method ParseBulkStrings(buf: string, start: nat, n: nat) returns (r: Parsed)
    ensures r == ParseBulks(buf, start, n, [])
  {
    var pos, args := start, [];
    for i := 0 to n
      invariant ParseBulks(buf, start, n, []) == ParseBulks(buf, pos, n - i, args)
    {
      var bulk := ParseBulkString(buf, pos);
      if bulk.Undecided? { return Incomplete; }
      if bulk.Bad? { return Error(bulk.message); }
      pos, args := bulk.next, args + [bulk.arg];
    }
    r := Ok(args, pos);
  }

  method ParseArray(buf: string) returns (r: Parsed)
    requires buf != "" && buf[0] == '*'
    ensures r == ParseMultibulk(buf)
  {
    var line := ScanCrlf(buf, 0);
    if line.None? { return Incomplete; }
    var count := ParseInt64Ascii(buf, 1, line.value);
    if count.None? || count.value < 0 { return Error(BAD_MULTIBULK); }
    r := ParseBulkStrings(buf, line.value + 2, count.value);
  }

  method ScanBlanks(buf: string, lineEnd: nat, start: nat) returns (i: nat)
    requires start <= lineEnd <= |buf|
    ensures i == SkipBlanks(buf[..lineEnd], start)
  {
    i := start;
    while i < lineEnd && (buf[i] == ' ' || buf[i] == '\t')
      invariant start <= i <= lineEnd && SkipBlanks(buf[..lineEnd], start) == SkipBlanks(buf[..lineEnd], i)
    {
      i := i + 1;
    }
  }

  method ScanWord(buf: string, lineEnd: nat, start: nat) returns (j: nat)
    requires start <= lineEnd <= |buf|
    ensures j == EndOfWord(buf[..lineEnd], start)
  {
    j := start;
    while j < lineEnd && buf[j] != ' ' && buf[j] != '\t'
      invariant start <= j <= lineEnd && EndOfWord(buf[..lineEnd], start) == EndOfWord(buf[..lineEnd], j)
    {
      j := j + 1;
    }
  }

  method SplitInline(buf: string, lineEnd: nat) returns (args: seq<string>)
    requires lineEnd <= |buf|
    ensures args == SplitWords(buf[..lineEnd], 0)
  {
    ghost var line := buf[..lineEnd];
    args := [];
    var i: nat := 0;
    while i < lineEnd
      invariant i <= lineEnd && SplitWords(line, 0) == args + SplitWords(line, i)
    {
      ghost var start := i;
      i := ScanBlanks(buf, lineEnd, i);
      if i >= lineEnd { break; }
      var j := ScanWord(buf, lineEnd, i);
      var word := buf[i..j];
      assert word == line[i..j];
      assert SplitWords(line, start) == [word] + SplitWords(line, j);
      assert args + ([word] + SplitWords(line, j)) == (args + [word]) + SplitWords(line, j);
      args, i := args + [word], j;
    }
  }

  method ParseRespCommand(buf: string) returns (r: Parsed)
    ensures r == ParseCommand(buf)
  {
    if |buf| == 0 { return Incomplete; }
    if buf[0] == '*' {
      r := ParseArray(buf);
      return;
    }
    var line := ScanCrlf(buf, 0);
    if line.None? { return Incomplete; }
    var args := SplitInline(buf, line.value);
    r := Ok(args, line.value + 2);
  }

  // ---------- progress and stability ----------

  lemma {:induction false} BulksConsumed(buf: string, pos: nat, n: nat, args: seq<string>)
    requires pos <= |buf|
    ensures var r := ParseBulks(buf, pos, n, args);
            r.Ok? ==> pos <= r.consumed <= |buf| && |r.args| == |args| + n
    decreases n
  {
    if n > 0 && ParseBulk(buf, pos).Got? {
      var b := ParseBulk(buf, pos);
      BulksConsumed(buf, b.next, n - 1, args + [b.arg]);
    }
  }

  /** A parsed command takes at least two bytes and never more than there are. */
  lemma CommandConsumed(buf: string)
    ensures var r := ParseCommand(buf); r.Ok? ==> 2 <= r.consumed <= |buf|
  {
    var e := FindCrlf(buf, 0);
    if buf != "" && buf[0] == '*' && e.Some? {
      var n := ParseInt(buf[1..e.value]);
      if n.Some? && n.value >= 0 { BulksConsumed(buf, e.value + 2, n.value, []); }
    }
  }

  lemma CrlfStable(buf: string, more: string, start: nat)
    requires FindCrlf(buf, start).Some?
    ensures FindCrlf(buf + more, start) == FindCrlf(buf, start)
    decreases |buf| - start
  {
    if !CrlfAt(buf, start) { CrlfStable(buf, more, start + 1); }
  }

  lemma BulkStable(buf: string, more: string, pos: nat)
    requires !ParseBulk(buf, pos).Undecided?
    ensures ParseBulk(buf + more, pos) == ParseBulk(buf, pos)
  {
    if buf[pos] == '$' {
      CrlfStable(buf, more, pos);
      var e := FindCrlf(buf, pos).value;
      assert (buf + more)[pos + 1..e] == buf[pos + 1..e];
      var len := ParseInt(buf[pos + 1..e]);
      if len.Some? && len.value >= 0 {
        var p := e + 2;
        assert (buf + more)[p..p + len.value] == buf[p..p + len.value];
      }
    }
  }

  lemma {:induction false} BulksStable(buf: string, more: string, pos: nat, n: nat, args: seq<string>)
    requires !ParseBulks(buf, pos, n, args).Incomplete?
    ensures ParseBulks(buf + more, pos, n, args) == ParseBulks(buf, pos, n, args)
    decreases n
  {
    if n > 0 {
      BulkStable(buf, more, pos);
      var b := ParseBulk(buf, pos);
      if b.Got? { BulksStable(buf, more, b.next, n - 1, args + [b.arg]); }
    }
  }

  /** A decided result, command or error, is unchanged by any further input. */
  lemma CommandStable(buf: string, more: string)
    requires !ParseCommand(buf).Incomplete?
    ensures ParseCommand(buf + more) == ParseCommand(buf)
  {
    CrlfStable(buf, more, 0);
    var e := FindCrlf(buf, 0).value;
    assert (buf + more)[..e] == buf[..e] && (buf + more)[0] == buf[0];
    if buf[0] == '*' {
      assert (buf + more)[1..e] == buf[1..e];
      var n := ParseInt(buf[1..e]);
      if n.Some? && n.value >= 0 { BulksStable(buf, more, e + 2, n.value, []); }
    }
  }

  // ---------- the greedy parse of a stream ----------

  /** What a stream of bytes amounts to: the commands that are complete, the
      bytes left over, and whether the parse stopped at a malformed or empty
      command. */
  datatype Stream = Stream(commands: seq<seq<string>>, rest: string, broken: bool)

  function Prepend(args: seq<string>, s: Stream): Stream {
    s.(commands := [args] + s.commands)
  }

  function Greedy(bytes: string): Stream
    decreases |bytes|
  {
    match ParseCommand(bytes)
    case Incomplete => Stream([], bytes, false)
    case Error(_) => Stream([], bytes, true)
    case Ok(args, consumed) =>
      if args == [] then Stream([], bytes, true)
      else
        CommandConsumed(bytes);
        Prepend(args, Greedy(bytes[consumed..]))
  }

  /** A QUIT, and the first byte of another command. */
  lemma QuitThenMore()
    ensures Greedy("QUIT\r\nP") == Stream([["QUIT"]], "P", false)
  {
    var buf, line := "QUIT\r\nP", "QUIT";
    assert FindCrlf(buf, 4) == Some(4);
    assert FindCrlf(buf, 2) == FindCrlf(buf, 3) == Some(4);
    assert FindCrlf(buf, 0) == FindCrlf(buf, 1) == Some(4);
    assert buf[..4] == line && buf[6..] == "P";
    assert EndOfWord(line, 4) == 4 && EndOfWord(line, 2) == EndOfWord(line, 3) == 4;
    assert EndOfWord(line, 0) == EndOfWord(line, 1) == 4;
    assert SplitWords(line, 4) == [] && line[0..4] == line;
    assert SplitWords(line, 0) == [line] + [];
    assert ParseCommand(buf) == Ok([line], 6);
    assert FindCrlf("P", 0) == None;
    assert Greedy("P") == Stream([], "P", false);
    assert Greedy(buf) == Prepend([line], Greedy(buf[6..]));
    assert [[line]] + [] == [[line]];
  }

  /** Go on after s with b: parse what was left over together with b. */
  function Resume(s: Stream, b: string): Stream {
    if s.broken then s.(rest := s.rest + b)
    else
      var t := Greedy(s.rest + b);
      Stream(s.commands + t.commands, t.rest, t.broken)
  }

  /** Taking one command off the front of what is still to be parsed. */
  lemma ResumeTakes(commands: seq<seq<string>>, bytes: string)
    requires ParseCommand(bytes).Ok? && ParseCommand(bytes).args != []
    ensures var r := ParseCommand(bytes);
            && r.consumed <= |bytes|
            && Resume(Stream(commands, "", false), bytes)
               == Resume(Stream(commands + [r.args], "", false), bytes[r.consumed..])
  {
    CommandConsumed(bytes);
    var r := ParseCommand(bytes);
    assert "" + bytes == bytes && "" + bytes[r.consumed..] == bytes[r.consumed..];
    var t := Greedy(bytes[r.consumed..]);
    assert commands + ([r.args] + t.commands) == (commands + [r.args]) + t.commands;
  }

  /** A protocol error, or a command without words, breaks the stream. */
  lemma ResumeBreaks(commands: seq<seq<string>>, bytes: string)
    requires ParseCommand(bytes).Error? || (ParseCommand(bytes).Ok? && ParseCommand(bytes).args == [])
    ensures Resume(Stream(commands, "", false), bytes) == Stream(commands, bytes, true)
  {
    assert "" + bytes == bytes;
  }

  /** Nothing more can be taken: all that is left stays. */
  lemma ResumeStops(commands: seq<seq<string>>, bytes: string)
    requires ParseCommand(bytes).Incomplete?
    ensures Resume(Stream(commands, "", false), bytes) == Stream(commands, bytes, false)
  {
    assert "" + bytes == bytes;
  }

  /** Resuming after a leftover is resuming afresh with the leftover in front. */
  lemma ResumeJoins(commands: seq<seq<string>>, rest: string, bytes: string)
    ensures Resume(Stream(commands, rest, false), bytes) == Resume(Stream(commands, "", false), rest + bytes)
  {
    assert "" + (rest + bytes) == rest + bytes;
  }

  /** The leftover of a parse is itself undecided. */
  lemma {:induction false} RestUndecided(bytes: string)
    requires !Greedy(bytes).broken
    ensures ParseCommand(Greedy(bytes).rest).Incomplete?
    decreases |bytes|
  {
    var r := ParseCommand(bytes);
    if r.Ok? {
      CommandConsumed(bytes);
      RestUndecided(bytes[r.consumed..]);
    }
  }

  /** Parsing a prefix and resuming with its leftover is parsing the whole. */
  lemma {:induction false} GreedyResumes(a: string, b: string)
    requires !Greedy(a).broken
    ensures Greedy(a + b) == Resume(Greedy(a), b)
    decreases |a|
  {
    var r := ParseCommand(a);
    if r.Ok? {
      CommandConsumed(a);
      CommandStable(a, b);
      var a' := a[r.consumed..];
      assert (a + b)[r.consumed..] == a' + b;
      GreedyResumes(a', b);
      PrependResume(r.args, Greedy(a'), b);
    } else {
      assert Resume(Greedy(a), b) == Greedy(a + b);
    }
  }

  lemma PrependResume(args: seq<string>, s: Stream, b: string)
    requires !s.broken
    ensures Resume(Prepend(args, s), b) == Prepend(args, Resume(s, b))
  {
    var t := Greedy(s.rest + b);
    assert ([args] + s.commands) + t.commands == [args] + (s.commands + t.commands);
  }

  /** Nothing after a malformed command changes what came before it. */
  lemma {:induction false} GreedyStaysBroken(a: string, b: string)
    requires Greedy(a).broken
    ensures Greedy(a + b) == Stream(Greedy(a).commands, Greedy(a).rest + b, true)
    decreases |a|
  {
    var r := ParseCommand(a);
    CommandStable(a, b);
    if r.Ok? && r.args != [] {
      CommandConsumed(a);
      assert (a + b)[r.consumed..] == a[r.consumed..] + b;
      GreedyStaysBroken(a[r.consumed..], b);
    }
  }

  /** The bytes after the commands found so far, however the stream arrived. */
  function Concat(chunks: seq<string>): string {
    if chunks == [] then "" else Concat(chunks[..|chunks| - 1]) + chunks[|chunks| - 1]
  }

  /** Reading chunk by chunk: parse what is left over together with what came. */
  function Feed(chunks: seq<string>): Stream {
    if chunks == [] then Stream([], "", false)
    else Resume(Feed(chunks[..|chunks| - 1]), chunks[|chunks| - 1])
  }

  /** However a stream is cut into chunks, the same commands come out. */
  lemma {:induction false} ChunkingIsInvisible(chunks: seq<string>)
    ensures Feed(chunks) == Greedy(Concat(chunks))
  {
    if chunks != [] {
      var init, last := chunks[..|chunks| - 1], chunks[|chunks| - 1];
      ChunkingIsInvisible(init);
      if Greedy(Concat(init)).broken {
        GreedyStaysBroken(Concat(init), last);
      } else {
        GreedyResumes(Concat(init), last);
      }
    }
  }

  // ---------- the encoder and the round trip ----------

  function EncodeBulk(part: string): string {
    "$" + Dec(|part|) + "\r\n" + part + "\r\n"
  }

  function EncodeBulks(parts: seq<string>): string {
    if parts == [] then "" else EncodeBulks(parts[..|parts| - 1]) + EncodeBulk(parts[|parts| - 1])
  }

  function Encode(parts: seq<string>): string {
    "*" + Dec(|parts|) + "\r\n" + EncodeBulks(parts)
  }

  /** resp_cmd: a list of pieces, joined. */
  method RespCmd(parts: seq<string>) returns (out: string)
    ensures out == Encode(parts)
  {
    var head := "*" + Dec(|parts|) + "\r\n";
    var pieces := Push([], head);
    for i := 0 to |parts|
      invariant Concat(pieces) == head + EncodeBulks(parts[..i])
    {
      assert parts[..i + 1][..i] == parts[..i];
      pieces := PushBulk(pieces, parts[i], head, EncodeBulks(parts[..i]));
    }
    assert parts[..|parts|] == parts;
    out := Concat(pieces);
  }

  /** The body of the loop of resp_cmd. */
  method PushBulk(pieces: seq<string>, p: string, ghost head: string, ghost done: string) returns (r: seq<string>)
    requires Concat(pieces) == head + done
    ensures Concat(r) == head + (done + EncodeBulk(p))
  {
    var size := "$" + Dec(|p|) + "\r\n";
    r := Push(pieces, size);
    r := Push(r, p);
    r := Push(r, "\r\n");
    assert head + done + size + p + "\r\n" == head + (done + (size + p + "\r\n"));
  }

  method Push(pieces: seq<string>, p: string) returns (r: seq<string>)
    ensures r == pieces + [p] && Concat(r) == Concat(pieces) + p
  {
    r := pieces + [p];
    assert r[..|r| - 1] == pieces;
  }

  /** A line that holds no CR before its end is found whole. */
  lemma CrlfAfterLine(pre: string, line: string, post: string, from: nat)
    requires |pre| <= from <= |pre| + |line|
    requires forall i :: 0 <= i < |line| ==> line[i] != '\r'
    ensures FindCrlf(pre + line + "\r\n" + post, from) == Some(|pre| + |line|)
    decreases |pre| + |line| - from
  {
    var s := pre + line + "\r\n" + post;
    if from < |pre| + |line| {
      assert s[from] == line[from - |pre|];
      CrlfAfterLine(pre, line, post, from + 1);
    } else {
      assert s[from] == '\r' && s[from + 1] == '\n';
    }
  }

  lemma LineIn(pre: string, line: string, tail: string)
    requires line != ""
    ensures var s := pre + line + "\r\n" + tail;
            var e := |pre| + |line|;
            && s[|pre|] == line[0] && s[|pre| + 1..e] == line[1..] && s[e + 2..] == tail
  {
  }

  lemma BulkLayout(pre: string, part: string, post: string)
    ensures pre + EncodeBulk(part) + post == pre + ("$" + Dec(|part|)) + "\r\n" + (part + "\r\n" + post)
    ensures |EncodeBulk(part)| == 1 + |Dec(|part|)| + 2 + |part| + 2
  {
  }

  /** What the parser needs to see of a bulk string. */
  lemma BulkSeen(s: string, pos: nat, e: nat, part: string)
    requires pos < e && e + 2 + |part| + 2 <= |s| && s[pos] == '$'
    requires FindCrlf(s, pos) == Some(e) && ParseInt(s[pos + 1..e]) == Some(|part|)
    requires s[e + 2..e + 2 + |part|] == part && CrlfAt(s, e + 2 + |part|)
    ensures ParseBulk(s, pos) == Got(part, e + 2 + |part| + 2)
  {
  }

  lemma BulkRoundTrip(pre: string, part: string, post: string)
    ensures ParseBulk(pre + EncodeBulk(part) + post, |pre|) == Got(part, |pre| + |EncodeBulk(part)|)
  {
    var s := pre + EncodeBulk(part) + post;
    var line, tail := "$" + Dec(|part|), part + "\r\n" + post;
    var e := |pre| + |line|;
    BulkLayout(pre, part, post);
    CrlfAfterLine(pre, line, tail, |pre|);
    LineIn(pre, line, tail);
    assert s[|pre| + 1..e] == Dec(|part|) by { assert line[1..] == Dec(|part|); }
    ParseOfDec(|part|);
    BulkBody(s, e + 2, part, post);
    BulkSeen(s, |pre|, e, part);
  }

  lemma BulkBody(s: string, p: nat, part: string, post: string)
    requires p <= |s| && s[p..] == part + "\r\n" + post
    ensures p + |part| + 2 <= |s| && s[p..p + |part|] == part && CrlfAt(s, p + |part|)
  {
    var tail := s[p..];
    assert tail[|part|] == '\r' && tail[|part| + 1] == '\n';
    assert tail[..|part|] == part;
  }

  lemma BulkRoundTripAt(s: string, pos: nat, part: string, post: string)
    requires pos <= |s| && s[pos..] == EncodeBulk(part) + post
    ensures ParseBulk(s, pos) == Got(part, pos + |EncodeBulk(part)|)
    ensures pos + |EncodeBulk(part)| <= |s| && s[pos + |EncodeBulk(part)|..] == post
  {
    var pre, code := s[..pos], EncodeBulk(part);
    assert s == pre + (code + post) == pre + code + post;
    BulkRoundTrip(pre, part, post);
  }

  lemma {:induction false} BulksStep(s: string, pos: nat, args: seq<string>, parts: seq<string>, next: nat, end: nat)
    requires parts != [] && ParseBulk(s, pos) == Got(parts[0], next)
    requires ParseBulks(s, next, |parts| - 1, args + [parts[0]]) == Ok(args + [parts[0]] + parts[1..], end)
    ensures ParseBulks(s, pos, |parts|, args) == Ok(args + parts, end)
  {
    assert args + [parts[0]] + parts[1..] == args + parts;
  }

  lemma {:induction false} BulksRoundTrip(s: string, pos: nat, args: seq<string>, parts: seq<string>, post: string)
    requires pos <= |s| && s[pos..] == EncodeBulks(parts) + post
    ensures ParseBulks(s, pos, |parts|, args) == Ok(args + parts, pos + |EncodeBulks(parts)|)
    decreases |parts|
  {
    if parts == [] {
      assert args + parts == args;
    } else {
      var first, rest := parts[0], parts[1..];
      var code, codes := EncodeBulk(first), EncodeBulks(rest);
      EncodeBulksFirst(parts);
      assert (code + codes) + post == code + (codes + post);
      BulkRoundTripAt(s, pos, first, codes + post);
      var next := pos + |code|;
      BulksRoundTrip(s, next, args + [first], rest, post);
      BulksStep(s, pos, args, parts, next, next + |codes|);
    }
  }

  lemma {:induction false} EncodeBulksFirst(parts: seq<string>)
    requires parts != []
    ensures EncodeBulks(parts) == EncodeBulk(parts[0]) + EncodeBulks(parts[1..])
  {
    if |parts| > 1 {
      var init, last := parts[..|parts| - 1], EncodeBulk(parts[|parts| - 1]);
      var rest := init[1..];
      assert rest == parts[1..][..|parts| - 2];
      calc {
        EncodeBulks(parts);
        EncodeBulks(init) + last;
        { EncodeBulksFirst(init); }
        EncodeBulk(parts[0]) + EncodeBulks(rest) + last;
        EncodeBulk(parts[0]) + (EncodeBulks(rest) + last);
      }
    }
  }

  lemma {:induction false} CommandLayout(parts: seq<string>, post: string)
    ensures Encode(parts) + post == "" + ("*" + Dec(|parts|)) + "\r\n" + (EncodeBulks(parts) + post)
    ensures |Encode(parts)| == |"*" + Dec(|parts|) + "\r\n"| + |EncodeBulks(parts)|
  {
    Layout("*" + Dec(|parts|), "\r\n", EncodeBulks(parts), post);
  }

  lemma Layout(line: string, crlf: string, codes: string, post: string)
    ensures line + crlf + codes + post == "" + line + crlf + (codes + post)
  {
  }

  /** Whatever bytes the arguments hold, and whatever follows. */
  lemma CommandRoundTrip(parts: seq<string>, post: string)
    ensures ParseCommand(Encode(parts) + post) == Ok(parts, |Encode(parts)|)
  {
    var line := "*" + Dec(|parts|);
    var tail := EncodeBulks(parts) + post;
    var s := Encode(parts) + post;
    CommandLayout(parts, post);
    CrlfAfterLine("", line, tail, 0);
    LineIn("", line, tail);
    assert s[1..|line|] == Dec(|parts|) by { assert line[1..] == Dec(|parts|); }
    ParseOfDec(|parts|);
    BulksRoundTrip(s, |line| + 2, [], parts, post);
    assert [] + parts == parts;
  }

  function Pipeline(commands: seq<seq<string>>): string {
    if commands == [] then "" else Encode(commands[0]) + Pipeline(commands[1..])
  }

  /** Any pipeline of non-empty commands parses back to exactly those commands,
      with no byte left over. */
  lemma {:induction false} PipelineRoundTrip(commands: seq<seq<string>>)
    requires forall i :: 0 <= i < |commands| ==> commands[i] != []
    ensures Greedy(Pipeline(commands)) == Stream(commands, "", false)
  {
    if commands != [] {
      var rest := Pipeline(commands[1..]);
      CommandRoundTrip(commands[0], rest);
      assert (Encode(commands[0]) + rest)[|Encode(commands[0])|..] == rest;
      PipelineRoundTrip(commands[1..]);
    }
  }
}
