/** Reading command lines (netstr.c, str.c, ftpcmdio.c): peek at what has arrived, look for the
    terminator, then read exactly up to it. However the client's bytes arrive, the same lines come
    out. */
module LineReader {
  import Text

  const MAX_COMMAND_LINE: nat := 4096

  /** What the client sends before it closes, and how much of it was read. */
  class Stream {
    const input: string
    var pos: nat

    constructor (input: string)
      ensures this.input == input && pos == 0
    {
      this.input, pos := input, 0;
    }

    ghost function Rest(): string
      requires pos <= |input|
      reads this
    {
      input[pos..]
    }

    /** Copy `n` waiting bytes to the buffer without consuming them. */
    method Peek(buf: array<char>, at: nat, n: nat)
      requires pos + n <= |input| && at + n <= buf.Length
      modifies buf
      ensures buf[..] == old(buf[..at]) + input[pos..pos + n] + old(buf[at + n..])
    {
      forall i | 0 <= i < n {
        buf[at + i] := input[pos + i];
      }
    }

    /** The same, and consume them. */
    method ReadLoop(buf: array<char>, at: nat, n: nat)
      requires pos + n <= |input| && at + n <= buf.Length
      modifies buf, this`pos
      ensures pos == old(pos) + n
      ensures buf[..] == old(buf[..at]) + input[old(pos)..old(pos) + n] + old(buf[at + n..])
    {
      Peek(buf, at, n);
      pos := pos + n;
    }
  }

  /** The length of the text before the first `term`. */
  function Upto(s: string, term: char): (k: nat)
    ensures k <= |s| && (k < |s| ==> s[k] == term)
    ensures forall i :: 0 <= i < k ==> s[i] != term
  {
    if s == "" || s[0] == term then 0 else 1 + Upto(s[1..], term)
  }

  /** How many bytes a peek shows: at least one of those that will come, at most the room there is. */
  function Shown(offer: nat, left: nat, coming: nat): (n: nat)
    requires left > 0 && coming > 0
    ensures 0 < n <= left && n <= coming
  {
    var n := if offer < left then offer else left;
    var n' := if n < coming then n else coming;
    if n' == 0 then 1 else n'
  }

  /** The search loop over one peeked chunk. */
  method FindIn(buf: array<char>, from: nat, n: nat, term: char) returns (i: nat)
    requires from + n <= buf.Length
    ensures i == Upto(buf[from..from + n], term)
  {
    i := 0;
    ghost var s := buf[from..from + n];
    while i < n && buf[from + i] != term
      invariant 0 <= i <= n && forall j :: 0 <= j < i ==> s[j] != term
    {
      i := i + 1;
    }
  }

  /** `str_alloc_alt_term`: the text before the terminator that the buffer is known to hold. */
  method AllocAltTerm(buf: array<char>, term: char) returns (s: string)
    requires term in buf[..]
    ensures s == buf[..][..Upto(buf[..], term)]
  {
    var len := 0;
    ghost var all := buf[..];
    while buf[len] != term
      invariant 0 <= len < buf.Length && len <= Upto(all, term)
      decreases buf.Length - len
    {
      len := len + 1;
    }
    s := buf[..len];
  }

  // ---------------------------------------------------------------------------
  // One line

  /** The search passes over text that has no terminator. */
  lemma {:induction false} UptoSkip(a: string, b: string, term: char)
    requires term !in a
    ensures Upto(a + b, term) == |a| + Upto(b, term)
  {
    if a == "" {
      assert a + b == b;
    } else {
      assert (a + b)[1..] == a[1..] + b;
      assert a[0] != term;
      UptoSkip(a[1..], b, term);
    }
  }

  /** And stops at the first terminator, whatever follows. */
  lemma {:induction false} UptoStops(a: string, b: string, term: char)
    requires Upto(a, term) < |a|
    ensures Upto(a + b, term) == Upto(a, term)
  {
    if a[0] != term {
      assert (a + b)[1..] == a[1..] + b;
      UptoStops(a[1..], b, term);
    }
  }

  lemma UptoEnd(a: string, term: char)
    requires Upto(a, term) == |a|
    ensures term !in a
  {
  }

  /** The state of the buffer and the stream between peeks: `done` was read and holds no terminator. */
  ghost predicate Reading(s: Stream, buf: array<char>, start: string, done: string, term: char)
    reads s, buf
  {
    && s.pos <= |s.input| && start == done + s.Rest()
    && |done| <= buf.Length && buf[..|done|] == done && term !in done
  }

  /** Consume a chunk without terminator. */
  method Consume(s: Stream, buf: array<char>, n: nat, ghost start: string, ghost done: string, readpos: nat, term: char)
    returns (ghost done': string)
    requires Reading(s, buf, start, done, term) && readpos == |done| && n <= |s.Rest()| && readpos + n <= buf.Length
    requires Upto(s.input[s.pos..s.pos + n], term) == n
    modifies buf, s`pos
    ensures Reading(s, buf, start, done', term) && |done'| == |done| + n
    ensures s.pos == old(s.pos) + n
  {
    ghost var chunk := s.input[s.pos..s.pos + n];
    UptoEnd(chunk, term);
    s.ReadLoop(buf, readpos, n);
    done' := done + chunk;
    assert s.input[old(s.pos)..] == chunk + s.Rest();
    assert done + (chunk + s.Rest()) == done' + s.Rest();
    Front(buf[..], done, chunk, old(buf[readpos + n..]), old(buf[..readpos]));
  }

  lemma Front(all: string, done: string, chunk: string, tail: string, head: string)
    requires all == head + chunk + tail && head == done
    ensures |done + chunk| <= |all| && all[..|done + chunk|] == done + chunk
  {
  }

  /** Consume the rest of a line with its terminator, and copy the line out of the buffer. */
  method TakeLine(s: Stream, buf: array<char>, n: nat, ghost start: string, ghost done: string, readpos: nat,
    term: char)
    returns (str: string)
    requires Reading(s, buf, start, done, term) && readpos == |done| && 0 < n <= |s.Rest()| && readpos + n <= buf.Length
    requires Upto(s.Rest(), term) == n - 1
    modifies buf, s`pos
    ensures s.pos == old(s.pos) + n
    ensures Upto(start, term) == |done| + n - 1 < |start| && str == start[..Upto(start, term)]
  {
    ghost var rest := s.Rest();
    ghost var chunk := s.input[s.pos..s.pos + n];
    assert chunk == rest[..n];
    UptoSkip(done, rest, term);
    s.ReadLoop(buf, readpos, n);
    ghost var all := buf[..];
    ghost var tail := old(buf[readpos + n..]);
    Front(all, done, chunk, tail, old(buf[..readpos]));
    assert all == done + chunk + tail;
    BufferLine(done, chunk, tail, rest, term);
    str := AllocAltTerm(buf, term);
  }

  lemma BufferLine(done: string, chunk: string, tail: string, rest: string, term: char)
    requires term !in done && chunk != "" && chunk <= rest && Upto(rest, term) == |chunk| - 1
    ensures term in done + chunk + tail
    ensures Upto(done + chunk + tail, term) == |done| + |chunk| - 1
    ensures (done + chunk + tail)[..|done| + |chunk| - 1] == (done + rest)[..|done| + |chunk| - 1]
  {
    var all := done + chunk + tail;
    assert all[|done| + |chunk| - 1] == chunk[|chunk| - 1] == rest[|chunk| - 1] == term;
    assert all == done + (chunk + tail);
    UptoSkip(done, chunk + tail, term);
    assert Upto(chunk, term) == |chunk| - 1 by {
      assert forall i :: 0 <= i < |chunk| - 1 ==> chunk[i] == rest[i];
    }
    UptoStops(chunk, tail, term);
  }

  /** Peek at a chunk: what was read stays in the buffer, and the chunk comes behind it. */
  method PeekAt(s: Stream, buf: array<char>, n: nat, ghost start: string, ghost done: string, readpos: nat, term: char)
    requires Reading(s, buf, start, done, term) && readpos == |done| && n <= |s.Rest()| && readpos + n <= buf.Length
    modifies buf
    ensures Reading(s, buf, start, done, term)
    ensures buf[readpos..readpos + n] == s.input[s.pos..s.pos + n]
  {
    s.Peek(buf, readpos, n);
    Middle(buf[..], done, s.input[s.pos..s.pos + n], old(buf[readpos + n..]));
  }

  /** Peek at a chunk and search it: the terminator is where the rest of the stream has it, or the
      chunk has none. */
  method Look(s: Stream, buf: array<char>, n: nat, ghost start: string, ghost done: string, readpos: nat, term: char)
    returns (i: nat)
    requires Reading(s, buf, start, done, term) && readpos == |done| && n <= |s.Rest()| && readpos + n <= buf.Length
    modifies buf
    ensures Reading(s, buf, start, done, term)
    ensures i <= n && (i < n ==> Upto(s.Rest(), term) == i)
    ensures i == n ==> Upto(s.input[s.pos..s.pos + n], term) == n
  {
    PeekAt(s, buf, n, start, done, readpos, term);
    i := SearchChunk(s, buf, n, readpos, term);
  }

  method SearchChunk(s: Stream, buf: array<char>, n: nat, readpos: nat, term: char) returns (i: nat)
    requires s.pos + n <= |s.input| && readpos + n <= buf.Length
    requires buf[readpos..readpos + n] == s.input[s.pos..s.pos + n]
    ensures i <= n && (i < n ==> Upto(s.Rest(), term) == i)
    ensures i == n ==> Upto(s.input[s.pos..s.pos + n], term) == n
  {
    i := FindIn(buf, readpos, n, term);
    UptoChunk(s.input, s.pos, n, term);
  }

  lemma UptoChunk(input: string, pos: nat, n: nat, term: char)
    requires pos + n <= |input|
    ensures var k := Upto(input[pos..pos + n], term); k < n ==> Upto(input[pos..], term) == k
  {
    RestSplit(input, pos, n);
    if Upto(input[pos..pos + n], term) < n {
      UptoStops(input[pos..pos + n], input[pos + n..], term);
    }
  }

  lemma RestSplit(input: string, pos: nat, n: nat)
    requires pos + n <= |input|
    ensures input[pos..] == input[pos..pos + n] + input[pos + n..]
  {
  }

  lemma Middle(all: string, head: string, chunk: string, tail: string)
    requires all == head + chunk + tail
    ensures all[..|head|] == head && all[|head|..|head| + |chunk|] == chunk
  {
  }

  /** What reading a line makes of the rest of the stream: a positive result is a line, which is
      consumed with its terminator; 0 is the end of the stream; -1 a line that is too long. */
  predicate Result(rest: string, term: char, maxlen: nat, ret: int, str: string, consumed: int) {
    var k := Upto(rest, term);
    if k >= maxlen then ret == -1 && str == "" && consumed == maxlen
    else if k == |rest| then ret == 0 && str == "" && consumed == |rest|
    else ret > 0 && str == rest[..k] && consumed == k + 1
  }

  /** `str_netfd_alloc`, for every way the bytes arrive: the k-th peek is offered `offers(k)` bytes. */
  method NetfdAlloc(s: Stream, buf: array<char>, maxlen: nat, term: char, offers: nat -> nat)
    returns (ret: int, str: string)
    requires s.pos <= |s.input| && maxlen <= buf.Length
    modifies buf, s`pos
    ensures s.pos <= |s.input|
    ensures Result(old(s.Rest()), term, maxlen, ret, str, s.pos - old(s.pos))
  {
    ghost var start := s.Rest();
    ghost var done := "";
    var readpos, k, left: nat := 0, 0, maxlen;
    while true
      invariant readpos + left == maxlen && |done| == readpos && s.pos == old(s.pos) + readpos
      invariant Reading(s, buf, start, done, term)
      decreases left
    {
      if left == 0 || s.pos == |s.input| {
        UptoSkip(done, s.Rest(), term);
        return if left == 0 then -1 else 0, "";
      }
      var n := Shown(offers(k), left, |s.input| - s.pos);
      k := k + 1;
      var i := Look(s, buf, n, start, done, readpos, term);
      if i < n {
        str := TakeLine(s, buf, i + 1, start, done, readpos, term);
        return i + 1, str;
      }
      done := Consume(s, buf, n, start, done, readpos, term);
      left := left - n;
      readpos := readpos + n;
    }
  }

  // ---------------------------------------------------------------------------
  // Commands

  /** A line without its trailing CRs. */
  function StripCr(s: string): (r: string)
    ensures r <= s && (r != "" ==> r[|r| - 1] != '\r')
    ensures forall i :: |r| <= i < |s| ==> s[i] == '\r'
  {
    if s != "" && s[|s| - 1] == '\r' then StripCr(s[..|s| - 1]) else s
  }

  /** What the server makes of a line: NUL stands for LF, and trailing CRs go. */
  function Cleaned(line: string): string {
    StripCr(Text.ReplaceChar(line, '\0', '\n'))
  }

  /** `control_getline`; a result of 0 ends the session quietly, -1 with a message. */
  method ControlGetline(s: Stream, buf: array<char>, offers: nat -> nat) returns (ret: int, line: string)
    requires s.pos <= |s.input| && MAX_COMMAND_LINE <= buf.Length
    modifies buf, s`pos
    ensures s.pos <= |s.input|
    ensures GotLine(old(s.Rest()), ret, line, s.Rest())
  {
    ret, line := NetfdAlloc(s, buf, MAX_COMMAND_LINE, '\n', offers);
    if ret <= 0 {
      return;
    }
    line := Text.ReplaceChar(line, '\0', '\n');
    ghost var full := line;
    var len := |line|;
    while len > 0 && line[len - 1] == '\r'
      invariant len == |line| && StripCr(full) == StripCr(line)
      decreases len
    {
      line := line[..len - 1];
      len := len - 1;
    }
    ret := 1;
  }

  /** The commands in what a client sends, up to a line that is too long or has no end. */
  function Commands(sent: string): seq<string>
    decreases |sent|
  {
    var k := Upto(sent, '\n');
    if k >= MAX_COMMAND_LINE || k == |sent| then [] else [Cleaned(sent[..k])] + Commands(sent[k + 1..])
  }

  /** Reading commands until there is none: the same commands for every way the bytes arrive. */
  method ReadCommands(s: Stream, buf: array<char>, offers: nat -> nat -> nat) returns (cmds: seq<string>)
    requires s.pos <= |s.input| && MAX_COMMAND_LINE <= buf.Length
    modifies buf, s`pos
    ensures cmds == Commands(old(s.Rest()))
  {
    cmds := [];
    ghost var start := s.Rest();
    ghost var rest := start;
    while true
      invariant s.pos <= |s.input| && rest == s.Rest() && cmds + Commands(rest) == Commands(start)
      decreases |s.input| - s.pos
    {
      var ret, line := ControlGetline(s, buf, offers(|cmds|));
      CommandsTurn(rest, cmds, ret, line, s.Rest());
      if ret <= 0 {
        return;
      }
      cmds, rest := cmds + [line], s.Rest();
    }
  }

  /** What one call of `control_getline` reads. */
  ghost predicate GotLine(rest: string, ret: int, line: string, tail: string) {
    var k := Upto(rest, '\n');
    if k >= MAX_COMMAND_LINE then ret == -1
    else if k == |rest| then ret == 0
    else ret == 1 && line == Cleaned(rest[..k]) && tail == rest[k + 1..]
  }

  lemma CommandsTurn(rest: string, cmds: seq<string>, ret: int, line: string, tail: string)
    requires GotLine(rest, ret, line, tail)
    ensures ret <= 0 ==> cmds + Commands(rest) == cmds
    ensures ret > 0 ==> cmds + Commands(rest) == (cmds + [line]) + Commands(tail) && |tail| < |rest|
  {
    if ret > 0 {
      CommandsStep(rest, cmds, line, tail);
    } else {
      assert Commands(rest) == [];
    }
  }

  lemma CommandsStep(rest: string, cmds: seq<string>, line: string, tail: string)
    requires GotLine(rest, 1, line, tail)
    ensures cmds + Commands(rest) == (cmds + [line]) + Commands(tail) && |tail| < |rest|
  {
    FirstCommand(rest, line, tail);
    Regroup(cmds, line, Commands(tail));
  }

  lemma FirstCommand(rest: string, line: string, tail: string)
    requires GotLine(rest, 1, line, tail)
    ensures Commands(rest) == [line] + Commands(tail) && |tail| < |rest|
  {
  }

  lemma Regroup(a: seq<string>, x: string, b: seq<string>)
    ensures a + ([x] + b) == (a + [x]) + b
  {
  }

  /** A command as a client puts it on a line: an LF in it is sent as NUL. */
  function Escaped(cmd: string): string {
    seq(|cmd|, i requires 0 <= i < |cmd| => if cmd[i] == '\n' then '\0' else cmd[i])
  }

  /** Commands as a client sends them. */
  function Sent(cmds: seq<string>): string {
    if cmds == [] then "" else Escaped(cmds[0]) + "\r\n" + Sent(cmds[1..])
  }

  /** No NUL and no CR at its end. */
  predicate Sendable(cmd: string) {
    '\0' !in cmd && (cmd != "" ==> cmd[|cmd| - 1] != '\r')
  }

  lemma CleanedSent(cmd: string)
    ensures Cleaned(Escaped(cmd) + "\r") == cmd <==> Sendable(cmd)
  {
    var line := Text.ReplaceChar(Escaped(cmd) + "\r", '\0', '\n');
    assert line[..|line| - 1] == Text.ReplaceChar(cmd, '\0', '\n');
    var t := Text.ReplaceChar(cmd, '\0', '\n');
    if '\0' in cmd {
      var i :| 0 <= i < |cmd| && cmd[i] == '\0';
      assert t[i] == '\n';
      assert i < |StripCr(t)| ==> StripCr(t)[i] == '\n';
    } else {
      assert t == cmd;
    }
  }

  lemma SentSplit(cmd: string, rest: string)
    requires '\n' !in cmd
    ensures var s := cmd + "\r\n" + rest;
      && Upto(s, '\n') == |cmd| + 1 < |s|
      && s[..|cmd| + 1] == cmd + "\r" && s[|cmd| + 2..] == rest
  {
    var line := cmd + "\r";
    assert cmd + "\r\n" + rest == line + ("\n" + rest);
    UptoSkip(line, "\n" + rest, '\n');
  }

  /** Commands that are short enough are read as they were sent if and only if none has a NUL or ends in
      CR. */
  lemma {:induction false} SentCommandsArrive(cmds: seq<string>)
    requires forall i :: 0 <= i < |cmds| ==> |cmds[i]| < 4095
    ensures Commands(Sent(cmds)) == cmds <==> forall i :: 0 <= i < |cmds| ==> Sendable(cmds[i])
  {
    if cmds != [] {
      var line, rest := Escaped(cmds[0]), cmds[1..];
      SentSplit(line, Sent(rest));
      CleanedSent(cmds[0]);
      SentCommandsArrive(rest);
      assert cmds == [cmds[0]] + rest;
      assert Commands(Sent(cmds)) == [Cleaned(line + "\r")] + Commands(Sent(rest));
      SameCons(Cleaned(line + "\r"), Commands(Sent(rest)), cmds[0], rest);
    }
  }

  lemma SameCons(a: string, x: seq<string>, b: string, y: seq<string>)
    ensures [a] + x == [b] + y <==> a == b && x == y
  {
    assert ([a] + x)[1..] == x && ([b] + y)[1..] == y;
    assert ([a] + x)[0] == a && ([b] + y)[0] == b;
  }
}
