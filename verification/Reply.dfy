/** Replies on the control connection (ftpcmdio.c) and the PWD reply (postlogin.c), with the
    client's decoding as their inverse: Appendix II of RFC 959 for quotes, RFC 854 for byte 255. */
module Reply {
  import opened Base
  import opened Text

  const IAC: char := '\U{FF}'


  // ---------------------------------------------------------------------------
  // Doubling a byte, and undoing it

  function Double(s: string, c: char): string {
    if s == "" then "" else (if s[0] == c then [c, c] else [s[0]]) + Double(s[1..], c)
  }

  /** Every doubled byte becomes one; a single one is malformed. */
  function Undouble(s: string, c: char): Option<string> {
    if s == "" then Some("")
    else if s[0] != c then Prefix(s[0], Undouble(s[1..], c))
    else if |s| > 1 && s[1] == c then Prefix(c, Undouble(s[2..], c))
    else None
  }

  function Prefix(c: char, r: Option<string>): Option<string> {
    if r.None? then None else Some([c] + r.value)
  }

  lemma {:induction false} UndoubleDouble(s: string, c: char)
    ensures Undouble(Double(s, c), c) == Some(s)
  {
    if s != "" {
      UndoubleDouble(s[1..], c);
      var d := Double(s[1..], c);
      assert ([c, c] + d)[2..] == d && ([s[0]] + d)[1..] == d;
      assert [s[0]] + s[1..] == s;
    }
  }

  lemma {:induction false} DoublePrefix(lhs: string, t: string, c: char)
    requires c !in lhs
    ensures Double(lhs + t, c) == lhs + Double(t, c)
  {
    if lhs == "" {
      assert lhs + t == t;
    } else {
      DoublePrefix(lhs[1..], t, c);
      assert (lhs + t)[1..] == lhs[1..] + t;
    }
  }

  lemma OccursByte(s: string, c: char, n: nat)
    requires n <= |s|
    ensures c in s[..n] ==> exists i :: 0 <= i < n && OccursAt(s, [c], i)
  {
    if c in s[..n] {
      var i :| 0 <= i < n && s[i] == c;
      assert s[i..i + 1] == [c];
      assert OccursAt(s, [c], i);
    }
  }

  lemma SplitAtByte(s: string, c: char, i: nat)
    requires OccursAt(s, [c], i)
    ensures s == s[..i] + ([c] + s[i + 1..]) && ([c] + s[i + 1..])[1..] == s[i + 1..]
  {
    assert s[i..i + 1] == [c];
  }

  /** `str_replace_text(p, "c", "cc")` doubles every `c`. */
  lemma {:induction false} ReplaceIsDouble(s: string, c: char)
    ensures Replace(s, [c], [c, c]) == Double(s, c)
    decreases |s|
  {
    match Locate(s, [c])
    case NotFound =>
      OccursByte(s, c, |s|);
      DoublePrefix(s, "", c);
      assert s[..|s|] == s && s + "" == s;
    case Found(i) =>
      var lhs, rhs := s[..i], s[i + 1..];
      OccursByte(s, c, i);
      DoublePrefix(lhs, [c] + rhs, c);
      ReplaceIsDouble(rhs, c);
      SplitAtByte(s, c, i);
      Behind(lhs, [c, c], Double(rhs, c));
  }

  // ---------------------------------------------------------------------------
  // The reply line

  /** What a client reads: NUL stands for LF. */
  function NulToLf(s: string): string {
    ReplaceChar(s, '\0', '\n')
  }

  /** The text of a reply line with a status of `n` bytes and one separator, as the client decodes it. */
  function DecodeReply(wire: string, n: nat): Option<string> {
    if |wire| < n + 3 || wire[|wire| - 2..] != "\r\n" then None
    else Undouble(NulToLf(wire[n + 1..|wire| - 2]), IAC)
  }

  lemma {:induction false} NulToLfDouble(s: string, c: char)
    requires c != '\0' && c != '\n'
    ensures NulToLf(Double(s, c)) == Double(NulToLf(s), c)
  {
    if s != "" {
      NulToLfDouble(s[1..], c);
      assert NulToLf(s)[1..] == NulToLf(s[1..]);
    }
  }

  /** Replacing LF by NUL is undone by the client, as far as it can be. */
  lemma NulToLfAfterMangle(s: string)
    ensures NulToLf(ReplaceChar(s, '\n', '\0')) == NulToLf(s)
  {
  }

  lemma WireParts(status: string, sep: char, line: string)
    requires '\n' !in status && sep != '\n' && '\n' !in line
    ensures var wire := status + [sep] + line + "\r\n";
      && wire[|wire| - 1] == '\n' && '\n' !in wire[..|wire| - 1]
      && wire[|wire| - 2..] == "\r\n" && wire[|status| + 1..|wire| - 2] == line && status + [sep] <= wire
  {
    var wire := status + [sep] + line + "\r\n";
    assert wire[..|wire| - 1] == status + [sep] + line + "\r";
  }

  /** `ftp_write_str_common`: whatever the text, the line has one LF, at its end, and the client
      reads the text back with its NULs as LFs. */
  method WriteReply(status: string, sep: char, text: string) returns (wire: string)
    requires '\n' !in status && sep != '\n'
    ensures |wire| > 0 && wire[|wire| - 1] == '\n' && '\n' !in wire[..|wire| - 1]
    ensures DecodeReply(wire, |status|) == Some(NulToLf(text))
    ensures status + [sep] <= wire
    ensures |wire| >= |status| + 3
    ensures wire[|status| + 1..|wire| - 2] == ReplaceChar(Double(text, 255 as char), '\n', '\0')
  {
    var mangled := ReplaceText(text, [IAC], [IAC, IAC]);
    ReplaceIsDouble(text, IAC);
    var line := ReplaceChar(mangled, '\n', '\0');
    wire := status + [sep] + line + "\r\n";
    WireParts(status, sep, line);
    NulToLfAfterMangle(mangled);
    NulToLfDouble(text, IAC);
    UndoubleDouble(NulToLf(text), IAC);
  }

  // ---------------------------------------------------------------------------
  // PWD

  const PWD_TAIL := " is the current directory"

  /** The text up to a quote that is not doubled. */
  function ReadQuoted(s: string): Option<string> {
    if s == "" then None
    else if s[0] != '"' then Prefix(s[0], ReadQuoted(s[1..]))
    else if |s| > 1 && s[1] == '"' then Prefix('"', ReadQuoted(s[2..]))
    else Some("")
  }

  /** How a client finds the directory in a PWD reply. */
  function DecodePwd(wire: string): Option<string> {
    match DecodeReply(wire, 3)
    case None => None
    case Some(text) => if text == "" || text[0] != '"' then None else ReadQuoted(text[1..])
  }

  lemma Behind(head: string, d: string, t: string)
    ensures (head + d) + t == head + (d + t) && (head + (d + t))[|head|..] == d + t
  {
  }

  lemma {:induction false} ReadQuotedDouble(s: string, tail: string)
    requires tail == "" || tail[0] != '"'
    ensures ReadQuoted(Double(s, '"') + ("\"" + tail)) == Some(s)
  {
    var t := "\"" + tail;
    if s == "" {
      assert Double(s, '"') + t == t;
    } else {
      ReadQuotedDouble(s[1..], tail);
      var d := Double(s[1..], '"');
      if s[0] == '"' {
        Behind("\"\"", d, t);
      } else {
        Behind([s[0]], d, t);
      }
      assert [s[0]] + s[1..] == s;
    }
  }

  /** `str_session_getcwd`: the working directory with every occurrence of the root's text taken out. */
  function Below(cwd: string, root: string): string {
    Replace(cwd, root, "")
  }

  /** What is shown for a directory below the root: "/" for the root itself. */
  function Shown(below: string): string {
    if below == "" then "/" else below
  }

  /** `handle_pwd`: one LF, at the end, and the client recovers the directory shown with NUL as LF. */
  method HandlePwd(cwd: string, root: string) returns (wire: string)
    ensures |wire| > 0 && wire[|wire| - 1] == '\n' && '\n' !in wire[..|wire| - 1]
    ensures DecodePwd(wire) == Some(NulToLf(Shown(Below(cwd, root)))) && "257 " <= wire
  {
    var path := ReplaceText(cwd, root, "");
    if path == "" {
      path := "/";
    }
    wire := WritePath(path);
  }

  /** The reply for a path. */
  method WritePath(path: string) returns (wire: string)
    ensures |wire| > 0 && wire[|wire| - 1] == '\n' && '\n' !in wire[..|wire| - 1]
    ensures DecodePwd(wire) == Some(NulToLf(path)) && "257 " <= wire
    ensures DecodeReply(wire, 3) == Some(NulToLf("\"" + Double(path, '"') + "\"" + PWD_TAIL))
  {
    var quoted := ReplaceText(path, "\"", "\"\"");
    ReplaceIsDouble(path, '"');
    wire := WriteReply("257", ' ', "\"" + quoted + "\"" + PWD_TAIL);
    PwdDecodes(wire, path);
  }

  lemma PwdDecodes(wire: string, path: string)
    requires DecodeReply(wire, 3) == Some(NulToLf("\"" + Double(path, '"') + "\"" + PWD_TAIL))
    ensures DecodePwd(wire) == Some(NulToLf(path))
  {
    Regroup("\"", Double(path, '"'), "\"", PWD_TAIL);
    NulToLfText(path);
    ReadQuotedText(NulToLf(path), NulToLf(PWD_TAIL));
  }

  lemma Regroup(a: string, b: string, c: string, d: string)
    ensures a + b + c + d == a + (b + (c + d))
  {
  }

  /** A client that is given the quoted text of a directory, and what follows, finds the directory. */
  lemma ReadQuotedText(dir: string, tail: string)
    requires tail == "" || tail[0] != '"'
    ensures var text := "\"" + (Double(dir, '"') + ("\"" + tail));
      text != "" && text[0] == '"' && ReadQuoted(text[1..]) == Some(dir)
  {
    var text := "\"" + (Double(dir, '"') + ("\"" + tail));
    assert text[1..] == Double(dir, '"') + ("\"" + tail);
    ReadQuotedDouble(dir, tail);
  }

  lemma NulToLfConcat(a: string, b: string)
    ensures NulToLf(a + b) == NulToLf(a) + NulToLf(b)
  {
  }

  lemma NulToLfText(path: string)
    ensures NulToLf("\"" + (Double(path, '"') + ("\"" + PWD_TAIL)))
         == "\"" + (Double(NulToLf(path), '"') + ("\"" + NulToLf(PWD_TAIL)))
  {
    NulToLfDouble(path, '"');
    NulToLfConcat("\"", Double(path, '"') + ("\"" + PWD_TAIL));
    NulToLfConcat(Double(path, '"'), "\"" + PWD_TAIL);
    NulToLfConcat("\"", PWD_TAIL);
  }

  /** In a directory below the root, the first occurrence of the root's text is the root. */
  lemma BelowStep(root: string, rest: string)
    requires root != ""
    ensures Below(root + rest, root) == Below(rest, root)
  {
    var cwd := root + rest;
    assert OccursAt(cwd, root, 0) && cwd[0..0 + |root|] == root;
    assert Locate(cwd, root) == Found(0);
    assert cwd[..0] == "" && cwd[|root|..] == rest;
  }

  /** What is taken out is the root alone, if and only if its text does not occur again. */
  lemma BelowExact(root: string, rest: string)
    requires root != ""
    ensures Below(root + rest, root) == rest <==> !Contains(rest, root)
    ensures |Below(root + rest, root)| <= |rest|
    ensures Contains(rest, root) ==> |Below(root + rest, root)| < |rest|
  {
    BelowStep(root, rest);
    ReplaceShrinks(rest, root, "");
  }

  /** The simplest failure: a directory below the root with the root's own text is shown as "/". */
  lemma RootTwiceIsShownAsRoot(root: string)
    requires root != ""
    ensures Shown(Below(root + root, root)) == "/"
  {
    BelowStep(root, root);
    BelowStep(root, "");
    assert root + "" == root;
  }

  lemma NulToLfExact(s: string)
    ensures NulToLf(s) == s <==> '\0' !in s
  {
    if '\0' in s {
      var i :| 0 <= i < |s| && s[i] == '\0';
      assert NulToLf(s)[i] == '\n';
    }
  }

  /** The client of a session in `root + rest` gets the part below the root, or "/" for the root itself, if
      and only if the root's text does not occur in that part and the part holds no NUL. */
  lemma PwdExact(root: string, rest: string)
    requires root != "" && root != "/"
    ensures NulToLf(Shown(Below(root + rest, root))) == (if rest == "" then "/" else rest) <==>
      !Contains(rest, root) && '\0' !in rest
  {
    BelowExact(root, rest);
    NulToLfExact(rest);
    if Contains(rest, root) && |rest| == 1 {
      OccursInByte(root, rest);
    }
  }

  /** A text of one byte holds no other. */
  lemma OccursInByte(root: string, rest: string)
    requires root != "" && Contains(rest, root) && |rest| == 1
    ensures rest == root
  {
    var i :| OccursAt(rest, root, i);
    assert rest[i..i + |root|] == rest;
  }
}
