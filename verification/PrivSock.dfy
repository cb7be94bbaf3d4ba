/** The lockstep protocols between the session process and its two helpers, the TLS slave (sslslave.c,
    readwrite.c and two uses in ftpdataio.c) and the privileged parent (postprivparent.c,
    twoprocess.c), over the untyped byte channels of privsock.c. A state of both processes and both
    channels moves by single items, so that every split of every write and read and every
    interleaving is a schedule. */
module PrivSock {
  import opened Base
  import Ascii
  import Transfer

  type Int32 = n: int | -0x8000_0000 <= n < 0x8000_0000

  const MAXSTR: nat := 131072

  /** What travels on a channel: a byte, or the byte that carries a descriptor. */
  datatype Item = B(b: byte) | Fd(fd: nat)

  datatype Trap =
    | BadRequest | StrayItem | TooBig | RecvTooBig | BadResult
    | StateNotClean | InvalidState | BadSize | TruncTooBig
    | ListenerActive | ListenerMissing | IllegalPort

  // ---------------------------------------------------------------------------
  // Integers and strings on the wire

  function EncodeInt(n: Int32): (r: seq<Item>)
    ensures |r| == 4
  {
    var u := if n < 0 then n + 0x1_0000_0000 else n;
    [B(u % 256), B(u / 256 % 256), B(u / 65536 % 256), B(u / 16777216 % 256)]
  }

  predicate BytesFrom(s: seq<Item>, at: nat) {
    forall i :: at <= i < |s| ==> s[i].B?
  }

  /** The unsigned reading of four bytes, least significant first. */
  function Unsigned(s: seq<Item>, at: nat): (r: nat)
    requires at + 4 <= |s| && BytesFrom(s, at)
    ensures r < 0x1_0000_0000
  {
    s[at].b + 256 * s[at + 1].b + 65536 * s[at + 2].b + 16777216 * s[at + 3].b
  }

  function Signed(u: nat): Int32
    requires u < 0x1_0000_0000
  {
    if u < 0x8000_0000 then u else u - 0x1_0000_0000
  }

  function EncodeBytes(data: seq<byte>): (r: seq<Item>)
    ensures |r| == |data|
  {
    seq(|data|, i requires 0 <= i < |data| => B(data[i]))
  }

  function EncodeStr(data: seq<byte>): seq<Item>
    requires |data| < 0x8000_0000
  {
    EncodeInt(|data|) + EncodeBytes(data)
  }

  /** What a reader makes of the items it has taken so far: it waits for more, it has a value, or it
      traps. */
  datatype Read<T> = More | Done(value: T) | Bad(trap: Trap)

  function GetInt(s: seq<Item>, at: nat): Read<Int32> {
    if !BytesFrom(s, at) then Bad(StrayItem)
    else if |s| < at + 4 then More
    else Done(Signed(Unsigned(s, at)))
  }

  /** `priv_sock_get_str` and `priv_sock_recv_buf`, which differ in their limit and its trap. */
  function GetStr(s: seq<Item>, at: nat, limit: nat, trap: Trap): Read<seq<byte>> {
    if !BytesFrom(s, at) then Bad(StrayItem)
    else if |s| < at + 4 then More
    else
      var len := Unsigned(s, at);
      if len > limit then Bad(trap)
      else if |s| < at + 4 + len then More
      else Done(seq(len, i requires 0 <= i < len => s[at + 4 + i].b))
  }

  lemma IntRoundTrip(n: Int32, s: seq<Item>, at: nat)
    requires at + 4 <= |s| && BytesFrom(s, at) && s[at..at + 4] == EncodeInt(n)
    ensures Signed(Unsigned(s, at)) == n
    ensures n >= 0 ==> Unsigned(s, at) == n
  {
    var u := if n < 0 then n + 0x1_0000_0000 else n;
    var e := s[at..at + 4];
    assert s[at] == e[0] && s[at + 1] == e[1] && s[at + 2] == e[2] && s[at + 3] == e[3];
    Digits(u);
  }

  lemma Digits(u: nat)
    requires u < 0x1_0000_0000
    ensures u % 256 + 256 * (u / 256 % 256) + 65536 * (u / 65536 % 256) + 16777216 * (u / 16777216 % 256) == u
  {
    var a, b, c := u / 256, u / 65536, u / 16777216;
    assert a / 256 == b && b / 256 == c && c < 256;
    assert u == 256 * a + u % 256 && a == 256 * b + a % 256 && b == 256 * c + b % 256;
  }

  // ---------------------------------------------------------------------------
  // Requests and responses

  datatype Request =
    | GetUserCmd | WriteUserResp(text: seq<byte>)
    | Handshake(dataFd: nat) | Close | ReadData(size: int) | WriteData(data: seq<byte>)
    | Chown(file: nat) | GetDataSock(port: int) | PasvCleanup | PasvActive | PasvListen | PasvAccept

  /** `Sock` is a good result and a descriptor, `Refused` a bad result and a reason. */
  datatype Response =
    | Code(ok: bool) | Int(n: Int32) | IntStr(ret: Int32, str: seq<byte>) | Sock(sock: nat) | Refused(why: Int32)

  /** The sizes that callers use: chunks up to the data buffer, strings up to the limit. */
  predicate Good(r: Request) {
    match r
    case WriteUserResp(text) => |text| <= MAXSTR
    case ReadData(size) => 0 < size <= DATA_BUFSIZE
    case WriteData(data) => |data| <= MAXSTR
    case GetDataSock(port) => 0 <= port < 65536
    case _ => true
  }

  function Encode(r: Request): (s: seq<Item>)
    requires Good(r)
    ensures s != []
  {
    match r
    case GetUserCmd => [B(4)]
    case WriteUserResp(text) => [B(5)] + EncodeStr(text)
    case Handshake(fd) => [B(6), Fd(fd)]
    case Close => [B(7)]
    case ReadData(size) => [B(8)] + EncodeInt(size)
    case WriteData(data) => [B(9)] + EncodeStr(data)
    case Chown(file) => [B(2), Fd(file)]
    case GetDataSock(port) => [B(3)] + EncodeInt(port)
    case PasvCleanup => [B(10)]
    case PasvActive => [B(11)]
    case PasvListen => [B(12)]
    case PasvAccept => [B(13)]
  }

  /** The answers that the helpers' operations can give. */
  predicate Fits(r: Request, a: Response) {
    match r
    case GetUserCmd => a.IntStr? && |a.str| <= MAXSTR && (a.ret < 0 ==> a.str == [])
    case Handshake(_) => a.Code?
    case Close => a.Code?
    case ReadData(size) => a.IntStr? && a.ret <= size && |a.str| == if a.ret < 0 then 0 else a.ret
    case WriteUserResp(_) => a.Int?
    case WriteData(_) => a.Int?
    case Chown(_) => a == Code(true)
    case GetDataSock(_) => a.Sock? || a == Code(false)
    case PasvCleanup => a == Code(true)
    case PasvActive => a.Int?
    case PasvListen => a.Int? && 0 <= a.n < 65536
    case PasvAccept => a.Sock? || (a.Refused? && a.why < 0)
  }

  function EncodeResponse(r: Request, a: Response): (s: seq<Item>)
    requires Good(r) && Fits(r, a)
    ensures s != []
  {
    match a
    case Code(ok) => [B(if ok then 1 else 2)]
    case Int(n) => EncodeInt(n)
    case IntStr(ret, str) =>
      if r.GetUserCmd? && ret < 0 then EncodeInt(ret) else EncodeInt(ret) + EncodeStr(str)
    case Sock(sock) => [B(1), Fd(sock)]
    case Refused(why) => [B(2)] + EncodeInt(why)
  }

  // ---------------------------------------------------------------------------
  // The readers

  /** The slave's reading of one request, with its checks in the order of the source. `alloc` is the
      size of its string buffer. */
  function SlaveRead(s: seq<Item>, fd: bool, ssl: bool, alloc: nat): Read<Request> {
    if s == [] then More
    else if s[0].Fd? then Bad(BadRequest)
    else if s[0].b == 4 then Done(GetUserCmd)
    else if s[0].b == 5 then
      match GetStr(s, 1, MAXSTR, TooBig)
      case More => More
      case Bad(t) => Bad(t)
      case Done(text) => Done(WriteUserResp(text))
    else if s[0].b == 6 then
      if fd || ssl then Bad(StateNotClean)
      else if |s| == 1 then More
      else if s[1].Fd? then Done(Handshake(s[1].fd)) else Bad(StrayItem)
    else if s[0].b == 7 then
      if fd != ssl then Bad(InvalidState) else Done(Close)
    else if s[0].b == 8 then
      match GetInt(s, 1)
      case More => More
      case Bad(t) => Bad(t)
      case Done(size) =>
        if size <= 0 || size > DATA_BUFSIZE then Bad(BadSize)
        else if !fd || !ssl then Bad(InvalidState)
        else if size >= alloc then Bad(TruncTooBig)
        else Done(ReadData(size))
    else if s[0].b == 9 then
      if !fd || !ssl then Bad(InvalidState)
      else match GetStr(s, 1, MAXSTR, TooBig)
        case More => More
        case Bad(t) => Bad(t)
        case Done(data) => Done(WriteData(data))
    else Bad(BadRequest)
  }

  /** The privileged parent's reading of one request; CHOWN is one only when uploads are to be given
      away, and a port is cut to 16 bits. */
  function ParentRead(s: seq<Item>, listening: bool, chown: bool): Read<Request> {
    if s == [] then More
    else if s[0].Fd? then Bad(BadRequest)
    else if s[0].b == 2 && chown then
      if |s| == 1 then More else if s[1].Fd? then Done(Chown(s[1].fd)) else Bad(StrayItem)
    else if s[0].b == 3 then
      match GetInt(s, 1)
      case More => More
      case Bad(t) => Bad(t)
      case Done(n) =>
        if listening then Bad(ListenerActive)
        else if n % 65536 < 1024 then Bad(IllegalPort)
        else Done(GetDataSock(n % 65536))
    else if s[0].b == 10 then Done(PasvCleanup)
    else if s[0].b == 11 then Done(PasvActive)
    else if s[0].b == 12 then if listening then Bad(ListenerActive) else Done(PasvListen)
    else if s[0].b == 13 then if listening then Done(PasvAccept) else Bad(ListenerMissing)
    else Bad(BadRequest)
  }

  /** The session process reading the answer to `r`. */
  function ConsumerRead(r: Request, s: seq<Item>): Read<Response> {
    match r
    case Handshake(_) => ReadCode(s)
    case Close => ReadCode(s)
    case GetUserCmd =>
      (match GetInt(s, 0)
      case More => More
      case Bad(t) => Bad(t)
      case Done(ret) => if ret < 0 then Done(IntStr(ret, [])) else ReadStr(ret, GetStr(s, 4, MAXSTR, TooBig)))
    case ReadData(size) =>
      (match GetInt(s, 0)
      case More => More
      case Bad(t) => Bad(t)
      case Done(ret) => ReadStr(ret, GetStr(s, 4, if size < 0 then 0 else size, RecvTooBig)))
    case Chown(_) => ReadGood(s)
    case PasvCleanup => ReadGood(s)
    case GetDataSock(_) =>
      if s == [] then More
      else if s[0] == B(2) then Done(Code(false))
      else if s[0] != B(1) then Bad(BadResult)
      else ReadSock(s)
    case PasvAccept =>
      if s == [] then More
      else if s[0] == B(2) then
        (match GetInt(s, 1)
        case More => More
        case Bad(t) => Bad(t)
        case Done(n) => Done(Refused(n)))
      else if s[0] != B(1) then Bad(BadResult)
      else ReadSock(s)
    case _ =>
      (match GetInt(s, 0)
      case More => More
      case Bad(t) => Bad(t)
      case Done(n) => Done(Int(n)))
  }

  function ReadCode(s: seq<Item>): Read<Response> {
    if s == [] then More else if s[0].Fd? then Bad(StrayItem) else Done(Code(s[0].b == 1))
  }

  function ReadGood(s: seq<Item>): Read<Response> {
    if s == [] then More else if s[0] != B(1) then Bad(BadResult) else Done(Code(true))
  }

  function ReadSock(s: seq<Item>): Read<Response> {
    if |s| < 2 then More else if s[1].Fd? then Done(Sock(s[1].fd)) else Bad(StrayItem)
  }

  function ReadStr(ret: Int32, str: Read<seq<byte>>): Read<Response> {
    match str
    case More => More
    case Bad(t) => Bad(t)
    case Done(data) => Done(IntStr(ret, data))
  }

  // ---------------------------------------------------------------------------
  // Both readers understand what the other side sends

  /** `p` is a beginning of `s`. */
  predicate Begins(p: seq<Item>, s: seq<Item>) {
    |p| <= |s| && forall i :: 0 <= i < |p| ==> p[i] == s[i]
  }

  /** A string at `at`: a reader that has a part of it waits, and one that has it all gets it. */
  lemma StrRead(p: seq<Item>, head: seq<Item>, data: seq<byte>, limit: nat, trap: Trap)
    requires |data| <= limit && |data| < 0x8000_0000
    requires Begins(p, head + EncodeStr(data))
    ensures GetStr(p, |head|, limit, trap) == if |p| < |head| + 4 + |data| then More else Done(data)
  {
    var s := head + EncodeStr(data);
    var at := |head|;
    assert forall i :: 0 <= i < 4 ==> s[at + i] == EncodeInt(|data|)[i];
    assert forall i :: 0 <= i < |data| ==> s[at + 4 + i] == B(data[i]);
    assert BytesFrom(p, at) by {
      forall i | at <= i < |p| ensures p[i].B? {
        assert p[i] == s[i];
        if i < at + 4 { assert s[at + (i - at)].B?; } else { assert s[at + 4 + (i - at - 4)].B?; }
      }
    }
    if |p| >= at + 4 {
      assert p[at..at + 4] == EncodeInt(|data|);
      IntRoundTrip(|data|, p, at);
      if |p| == |s| {
        assert forall i {:trigger data[i]} :: 0 <= i < |data| ==> p[at + 4 + i] == B(data[i]);
        assert seq(|data|, i requires 0 <= i < |data| => p[at + 4 + i].b) == data;
      }
    }
  }

  /** An integer after `head`. */
  lemma IntRead(p: seq<Item>, head: seq<Item>, n: Int32, tail: seq<Item>)
    requires BytesFrom(tail, 0) && Begins(p, head + (EncodeInt(n) + tail))
    ensures GetInt(p, |head|) == if |p| < |head| + 4 then More else Done(n)
  {
    var s := head + (EncodeInt(n) + tail);
    var at := |head|;
    assert forall i :: 0 <= i < 4 ==> s[at + i] == EncodeInt(n)[i];
    assert forall i :: 0 <= i < |tail| ==> s[at + 4 + i] == tail[i];
    assert BytesFrom(p, at) by {
      forall i | at <= i < |p| ensures p[i].B? {
        assert p[i] == s[i];
        if i < at + 4 { assert s[at + (i - at)].B?; } else { assert s[at + 4 + (i - at - 4)].B?; }
      }
    }
    if |p| >= at + 4 {
      assert p[at..at + 4] == EncodeInt(n);
      IntRoundTrip(n, p, at);
    }
  }

  datatype Role = TlsSlave | Parent

  /** What a helper remembers: its data descriptor, TLS handle and string buffer, its listener, and the
      setting `chown_uploads`. */
  datatype Memory = Memory(fd: bool, ssl: bool, alloc: nat, listening: bool, chown: bool)

  function HelperRead(role: Role, s: seq<Item>, m: Memory): Read<Request> {
    match role
    case TlsSlave => SlaveRead(s, m.fd, m.ssl, m.alloc)
    case Parent => ParentRead(s, m.listening, m.chown)
  }

  predicate For(role: Role, r: Request) {
    role.Parent? <==> r.Chown? || r.GetDataSock? || r.PasvCleanup? || r.PasvActive? || r.PasvListen? || r.PasvAccept?
  }

  /** The state of a helper in which a request finds no trap. */
  predicate Permits(m: Memory, r: Request) {
    match r
    case Handshake(_) => !m.fd && !m.ssl
    case Close => m.fd == m.ssl
    case ReadData(_) => m.fd && m.ssl
    case WriteData(_) => m.fd && m.ssl
    case Chown(_) => m.chown
    case GetDataSock(port) => !m.listening && port >= 1024
    case PasvListen => !m.listening
    case PasvAccept => m.listening
    case _ => true
  }

  lemma SlaveUnderstands(r: Request, p: seq<Item>, m: Memory)
    requires For(TlsSlave, r) && Good(r) && Permits(m, r) && m.alloc > DATA_BUFSIZE && Begins(p, Encode(r))
    ensures HelperRead(TlsSlave, p, m) == if |p| < |Encode(r)| then More else Done(r)
  {
    if p != [] {
      assert p[0] == Encode(r)[0];
      match r
      case WriteUserResp(text) => StrRead(p, [B(5)], text, MAXSTR, TooBig);
      case WriteData(data) => StrRead(p, [B(9)], data, MAXSTR, TooBig);
      case ReadData(size) =>
        assert EncodeInt(size) + [] == EncodeInt(size);
        IntRead(p, [B(8)], size, []);
      case _ =>
    }
  }

  lemma ParentUnderstands(r: Request, p: seq<Item>, m: Memory)
    requires For(Parent, r) && Good(r) && Permits(m, r) && Begins(p, Encode(r))
    ensures HelperRead(Parent, p, m) == if |p| < |Encode(r)| then More else Done(r)
  {
    if p != [] {
      assert p[0] == Encode(r)[0];
      if r.GetDataSock? {
        assert EncodeInt(r.port) + [] == EncodeInt(r.port);
        IntRead(p, [B(3)], r.port, []);
      }
    }
  }

  /** On any beginning of a request the helper waits for more; on the whole of it, it has the request. */
  lemma HelperUnderstands(role: Role, r: Request, p: seq<Item>, m: Memory)
    requires For(role, r) && Good(r) && Permits(m, r) && m.alloc > DATA_BUFSIZE && Begins(p, Encode(r))
    ensures HelperRead(role, p, m) == if |p| < |Encode(r)| then More else Done(r)
  {
    if role.Parent? {
      ParentUnderstands(r, p, m);
    } else {
      SlaveUnderstands(r, p, m);
    }
  }

  /** The requests of each helper, and the state in which they are in order. */
  predicate InStep(role: Role, m: Memory, r: Request) {
    match r
    case GetUserCmd => role.TlsSlave?
    case WriteUserResp(_) => role.TlsSlave?
    case Handshake(_) => role.TlsSlave? && !m.fd && !m.ssl
    case Close => role.TlsSlave? && m.fd == m.ssl
    case ReadData(_) => role.TlsSlave? && m.fd && m.ssl
    case WriteData(_) => role.TlsSlave? && m.fd && m.ssl
    case Chown(_) => role.Parent? && m.chown
    case GetDataSock(port) => role.Parent? && !m.listening && port >= 1024
    case PasvCleanup => role.Parent?
    case PasvActive => role.Parent?
    case PasvListen => role.Parent? && !m.listening
    case PasvAccept => role.Parent? && m.listening
  }

  /** A helper takes a request if and only if it is one of its own and finds the helper in step; to any other
      it traps: a handshake over an open connection, data without one, a listener over a listener, an accept
      without one, a data socket beside a listener or for a reserved port, a CHOWN that is not enabled. */
  lemma HelperAccepts(role: Role, r: Request, m: Memory)
    requires Good(r) && m.alloc > DATA_BUFSIZE
    ensures HelperRead(role, Encode(r), m) == Done(r) <==> InStep(role, m, r)
    ensures HelperRead(role, Encode(r), m) != Done(r) ==> HelperRead(role, Encode(r), m).Bad?
  {
    if For(role, r) && Permits(m, r) {
      HelperUnderstands(role, r, Encode(r), m);
    } else if role.TlsSlave? {
      SlaveRefuses(r, m);
    } else {
      ParentRefuses(r, m);
    }
  }

  lemma SlaveRefuses(r: Request, m: Memory)
    requires Good(r) && !(For(TlsSlave, r) && Permits(m, r))
    ensures HelperRead(TlsSlave, Encode(r), m).Bad?
  {
    if r.ReadData? {
      assert EncodeInt(r.size) + [] == EncodeInt(r.size);
      IntRead(Encode(r), [B(8)], r.size, []);
    }
  }

  lemma ParentRefuses(r: Request, m: Memory)
    requires Good(r) && !(For(Parent, r) && Permits(m, r))
    ensures HelperRead(Parent, Encode(r), m).Bad?
  {
    if r.GetDataSock? {
      assert EncodeInt(r.port) + [] == EncodeInt(r.port);
      IntRead(Encode(r), [B(3)], r.port, []);
    }
  }

  /** The slave traps to a string over the limit as soon as it has its length, and to a read of no bytes or of
      more than its buffer holds. */
  lemma SlaveLimits(data: seq<byte>, size: Int32, m: Memory)
    requires 131072 < |data| < 0x8000_0000 && (size <= 0 || size > 65536)
    ensures HelperRead(TlsSlave, [B(5)] + EncodeInt(|data|), m) == Bad(TooBig)
    ensures m.fd && m.ssl ==> HelperRead(TlsSlave, [B(9)] + EncodeInt(|data|), m) == Bad(TooBig)
    ensures HelperRead(TlsSlave, [B(8)] + EncodeInt(size), m) == Bad(BadSize)
  {
    LengthRead(5, |data|);
    LengthRead(9, |data|);
    assert EncodeInt(size) + [] == EncodeInt(size);
    IntRead([B(8)] + EncodeInt(size), [B(8)], size, []);
  }

  lemma LengthRead(cmd: byte, n: nat)
    requires n < 0x8000_0000
    ensures var p := [B(cmd)] + EncodeInt(n); |p| == 5 && BytesFrom(p, 1) && Unsigned(p, 1) == n
  {
    var p := [B(cmd)] + EncodeInt(n);
    assert p[1..1 + 4] == EncodeInt(n);
    IntRoundTrip(n, p, 1);
  }

  lemma StrBytes(data: seq<byte>)
    requires |data| < 0x8000_0000
    ensures BytesFrom(EncodeStr(data), 0)
  {
  }

  lemma AnswerWithString(p: seq<Item>, ret: Int32, str: seq<byte>, limit: nat, trap: Trap)
    requires |str| <= limit && |str| < 0x8000_0000 && Begins(p, EncodeInt(ret) + EncodeStr(str))
    ensures GetInt(p, 0) == if |p| < 4 then More else Done(ret)
    ensures GetStr(p, 4, limit, trap) == if |p| < 8 + |str| then More else Done(str)
  {
    StrBytes(str);
    assert [] + (EncodeInt(ret) + EncodeStr(str)) == EncodeInt(ret) + EncodeStr(str);
    IntRead(p, [], ret, EncodeStr(str));
    StrRead(p, EncodeInt(ret), str, limit, trap);
  }

  lemma AnswerWithInt(p: seq<Item>, n: Int32)
    requires Begins(p, EncodeInt(n))
    ensures GetInt(p, 0) == if |p| < 4 then More else Done(n)
  {
    assert [] + (EncodeInt(n) + []) == EncodeInt(n);
    IntRead(p, [], n, []);
  }

  lemma AnswerWithCode(r: Request, a: Response, p: seq<Item>)
    requires Good(r) && Fits(r, a) && Begins(p, EncodeResponse(r, a)) && (a.Code? || a.Sock? || a.Refused?)
    ensures ConsumerRead(r, p) == if |p| < |EncodeResponse(r, a)| then More else Done(a)
  {
    if p != [] {
      assert p[0] == EncodeResponse(r, a)[0];
      if a.Refused? {
        assert EncodeInt(a.why) + [] == EncodeInt(a.why);
        IntRead(p, [B(2)], a.why, []);
      }
    }
  }

  /** The same for the session process and the answer. */
  lemma ConsumerUnderstands(r: Request, a: Response, p: seq<Item>)
    requires Good(r) && Fits(r, a) && Begins(p, EncodeResponse(r, a))
    ensures ConsumerRead(r, p) == if |p| < |EncodeResponse(r, a)| then More else Done(a)
  {
    match a
    case Int(n) => AnswerWithInt(p, n);
    case IntStr(ret, str) =>
      if r.GetUserCmd? && ret < 0 {
        AnswerWithInt(p, ret);
      } else {
        var line := r.GetUserCmd?;
        AnswerWithString(p, ret, str, if line then MAXSTR else r.size, if line then TooBig else RecvTooBig);
      }
    case _ => AnswerWithCode(r, a, p);
  }

  // ---------------------------------------------------------------------------
  // Both processes and the channels between them

  /** Where the session process is with its data connection: a failed handshake is still followed by a
      close request. */
  datatype Phase = Closed | Opened | Failed

  /** What the session process believes of its helper. */
  datatype View = View(phase: Phase, listening: bool, chown: bool)

  /** The session process asks only for what fits its view. */
  predicate Allowed(v: View, r: Request) {
    match r
    case Handshake(_) => v.phase.Closed?
    case ReadData(_) => v.phase.Opened?
    case WriteData(_) => v.phase.Opened?
    case Close => !v.phase.Closed?
    case Chown(_) => v.chown
    case GetDataSock(port) => !v.listening && port >= 1024
    case PasvListen => !v.listening
    case PasvAccept => v.listening
    case _ => true
  }

  function ViewAfter(v: View, r: Request, a: Response): View {
    match r
    case Handshake(_) => v.(phase := if a == Code(true) then Opened else Failed)
    case Close => v.(phase := Closed)
    case PasvListen => v.(listening := true)
    case PasvCleanup => v.(listening := false)
    case _ => v
  }

  /** What the helper's state forces it to answer. */
  predicate Truthful(m: Memory, r: Request, a: Response) {
    match r
    case Close => !m.fd && !m.ssl ==> a == Code(true)
    case PasvActive => a == Int(if m.listening then 1 else 0)
    case _ => true
  }

  /** The helper carries out a request: `ssl_accept` leaves a handle exactly when it succeeds, and a
      descriptor whose handshake failed is closed. */
  function MemoryAfter(m: Memory, r: Request, a: Response): Memory {
    match r
    case Handshake(_) => m.(fd := a == Code(true), ssl := a == Code(true))
    case Close => m.(fd := false, ssl := false)
    case WriteData(data) => if |data| + 1 > m.alloc then m.(alloc := |data| + 1) else m
    case PasvListen => m.(listening := true)
    case PasvCleanup => m.(listening := false)
    case _ => m
  }

  datatype Consumer = Idle | Sending(request: Request, rest: seq<Item>) | Awaiting(request: Request, got: seq<Item>)
  datatype Helper = Reading(taken: seq<Item>) | Answering(left: seq<Item>)
  datatype Exchange = Exchange(request: Request, response: Response)

  /** `done` is what the helper did, `seen` what the session process believes it did. */
  datatype State = State(
    role: Role, consumer: Consumer, view: View, toHelper: seq<Item>, fromHelper: seq<Item>,
    helper: Helper, memory: Memory, done: seq<Exchange>, seen: seq<Exchange>)

  /** One move: the session process makes a request, or moves one item; the helper does, giving
      `answer` when it has a whole request. */
  datatype Move = Ask(request: Request) | ConsumerSends | ConsumerTakes | HelperTakes(answer: Response) | HelperSends

  datatype Outcome = Ok(state: State) | Trapped(trap: Trap)

  predicate Enabled(g: State, m: Move) {
    match m
    case Ask(r) => g.consumer.Idle? && For(g.role, r) && Good(r) && Allowed(g.view, r)
    case ConsumerSends => g.consumer.Sending? && g.consumer.rest != []
    case ConsumerTakes => g.consumer.Awaiting? && g.fromHelper != []
    case HelperTakes(a) =>
      g.helper.Reading? && g.toHelper != [] &&
      (match HelperRead(g.role, g.helper.taken + [g.toHelper[0]], g.memory)
        case Done(r) => Good(r) && Fits(r, a) && Truthful(g.memory, r, a)
        case _ => true)
    case HelperSends => g.helper.Answering? && g.helper.left != []
  }

  function Perform(g: State, r: Request, a: Response): State
    requires Good(r) && Fits(r, a)
  {
    g.(helper := Answering(EncodeResponse(r, a)), memory := MemoryAfter(g.memory, r, a),
      done := g.done + [Exchange(r, a)])
  }

  function Next(g: State, m: Move): Outcome
    requires Enabled(g, m)
  {
    match m
    case Ask(r) => Ok(g.(consumer := Sending(r, Encode(r))))
    case ConsumerSends =>
      var rest := g.consumer.rest[1..];
      var r := g.consumer.request;
      Ok(g.(toHelper := g.toHelper + [g.consumer.rest[0]],
        consumer := if rest == [] then Awaiting(r, []) else Sending(r, rest)))
    case HelperTakes(a) =>
      var taken := g.helper.taken + [g.toHelper[0]];
      var g' := g.(toHelper := g.toHelper[1..]);
      (match HelperRead(g.role, taken, g.memory)
        case More => Ok(g'.(helper := Reading(taken)))
        case Bad(t) => Trapped(t)
        case Done(r) => Ok(Perform(g', r, a)))
    case HelperSends =>
      var left := g.helper.left[1..];
      Ok(g.(fromHelper := g.fromHelper + [g.helper.left[0]],
        helper := if left == [] then Reading([]) else Answering(left)))
    case ConsumerTakes =>
      var got := g.consumer.got + [g.fromHelper[0]];
      var r := g.consumer.request;
      var g' := g.(fromHelper := g.fromHelper[1..]);
      (match ConsumerRead(r, got)
        case More => Ok(g'.(consumer := Awaiting(r, got)))
        case Bad(t) => Trapped(t)
        case Done(a) => Ok(g'.(consumer := Idle, view := ViewAfter(g.view, r, a), seen := g.seen + [Exchange(r, a)])))
  }

  // ---------------------------------------------------------------------------
  // The invariant

  /** The view is right: the descriptor and the TLS handle are both there or both not. */
  predicate Agree(m: Memory, v: View) {
    m.fd == m.ssl == v.phase.Opened? && m.listening == v.listening && m.chown == v.chown && m.alloc > DATA_BUFSIZE
  }

  /** No exchange is in flight. */
  predicate AtRest(g: State) {
    g.helper == Reading([]) && g.toHelper == [] && g.fromHelper == [] && g.done == g.seen && Agree(g.memory, g.view)
  }

  /** The request is on its way; what the helper took, what the channel holds and what is unsent are
      together the request. */
  predicate Asking(g: State, r: Request, unsent: seq<Item>) {
    && For(g.role, r) && Good(r) && Allowed(g.view, r) && g.helper.Reading?
    && g.helper.taken + (g.toHelper + unsent) == Encode(r) && |g.helper.taken| < |Encode(r)|
    && g.fromHelper == [] && g.done == g.seen && Agree(g.memory, g.view)
  }

  /** The answer is on its way. */
  predicate Replying(g: State, r: Request, got: seq<Item>) {
    && Good(r) && g.toHelper == []
    && |g.done| == |g.seen| + 1 && g.done == g.seen + [g.done[|g.seen|]]
    && var x := g.done[|g.seen|];
      && x.request == r && Fits(r, x.response)
      && got + (g.fromHelper + Left(g.helper)) == EncodeResponse(r, x.response)
      && |got| < |EncodeResponse(r, x.response)|
      && Agree(g.memory, ViewAfter(g.view, r, x.response))
  }

  function Left(helper: Helper): seq<Item> {
    match helper
    case Answering(left) => left
    case Reading(_) => []
  }

  predicate Inv(g: State) {
    && (g.helper.Answering? ==> g.helper.left != [])
    && match g.consumer
      case Idle => AtRest(g)
      case Sending(r, rest) => rest != [] && Asking(g, r, rest)
      case Awaiting(r, got) =>
        || (got == [] && Asking(g, r, []))
        || ((g.helper.Answering? || g.helper.taken == []) && Replying(g, r, got))
  }

  /** Both processes have read the same settings. */
  function Start(role: Role, chown: bool): State {
    var memory := Memory(false, false, DATA_BUFSIZE + 1, false, chown);
    State(role, Idle, View(Closed, false, chown), [], [], Reading([]), memory, [], [])
  }

  // ---------------------------------------------------------------------------
  // Every move keeps the invariant and none traps

  lemma TakeOne<T>(a: seq<T>, b: seq<T>, c: seq<T>)
    requires b != []
    ensures (a + [b[0]]) + (b[1..] + c) == a + (b + c)
  {
  }

  lemma SendOne<T>(b: seq<T>, c: seq<T>)
    requires c != []
    ensures (b + [c[0]]) + c[1..] == b + c
    ensures c[1..] == [] ==> b + [c[0]] == b + c
  {
  }

  lemma BeginsWhole(p: seq<Item>, q: seq<Item>)
    ensures Begins(p, p + q)
    ensures |p| == |p + q| ==> p == p + q
  {
  }

  lemma ConsumerSendsKeeps(g: State)
    requires Inv(g) && Enabled(g, ConsumerSends)
    ensures Next(g, ConsumerSends).Ok? && Inv(Next(g, ConsumerSends).state)
  {
    var r, rest := g.consumer.request, g.consumer.rest;
    SendOne(g.toHelper, rest);
    var g' := Next(g, ConsumerSends).state;
    if rest[1..] == [] {
      assert g'.toHelper + [] == g'.toHelper;
      assert Asking(g', r, []);
    } else {
      assert Asking(g', r, rest[1..]);
    }
  }

  /** The helper takes an item of a request: it waits for more or has the request that was made. */
  lemma HelperTakesOne(g: State, r: Request, unsent: seq<Item>)
    requires Asking(g, r, unsent) && g.toHelper != []
    ensures var taken := g.helper.taken + [g.toHelper[0]];
      && taken + (g.toHelper[1..] + unsent) == Encode(r)
      && HelperRead(g.role, taken, g.memory) == if |taken| < |Encode(r)| then More else Done(r)
  {
    var taken := g.helper.taken + [g.toHelper[0]];
    TakeOne(g.helper.taken, g.toHelper, unsent);
    BeginsWhole(taken, g.toHelper[1..] + unsent);
    HelperUnderstands(g.role, r, taken, g.memory);
  }

  lemma PerformKeeps(g: State, r: Request, a: Response)
    requires Good(r) && Allowed(g.view, r) && Agree(g.memory, g.view)
    requires g.toHelper == [] && g.fromHelper == [] && g.done == g.seen && g.consumer == Awaiting(r, [])
    requires Fits(r, a) && Truthful(g.memory, r, a)
    ensures Inv(Perform(g, r, a))
  {
    var g' := Perform(g, r, a);
    assert g'.done[|g.seen|] == Exchange(r, a);
    assert [] + ([] + EncodeResponse(r, a)) == EncodeResponse(r, a);
    assert g'.done == g'.seen + [g'.done[|g'.seen|]];
    assert Replying(g', r, []);
  }

  lemma HelperTakesKeeps(g: State, a: Response)
    requires Inv(g) && Enabled(g, HelperTakes(a))
    ensures Next(g, HelperTakes(a)).Ok? && Inv(Next(g, HelperTakes(a)).state)
  {
    assert !g.consumer.Idle?;
    var r := g.consumer.request;
    var unsent := if g.consumer.Sending? then g.consumer.rest else [];
    HelperTakesOne(g, r, unsent);
    var taken := g.helper.taken + [g.toHelper[0]];
    if |taken| < |Encode(r)| {
      assert Asking(Next(g, HelperTakes(a)).state, r, unsent);
    } else {
      assert g.toHelper[1..] + unsent == [];
      var g' := g.(toHelper := g.toHelper[1..]);
      PerformKeeps(g', r, a);
    }
  }

  lemma HelperSendsKeeps(g: State)
    requires Inv(g) && Enabled(g, HelperSends)
    ensures Next(g, HelperSends).Ok? && Inv(Next(g, HelperSends).state)
  {
    var r, got := g.consumer.request, g.consumer.got;
    SendOne(g.fromHelper, g.helper.left);
    var g' := Next(g, HelperSends).state;
    assert g'.fromHelper + Left(g'.helper) == g.fromHelper + Left(g.helper);
    assert Replying(g', r, got);
  }

  lemma ConsumerTakesKeeps(g: State)
    requires Inv(g) && Enabled(g, ConsumerTakes)
    ensures Next(g, ConsumerTakes).Ok? && Inv(Next(g, ConsumerTakes).state)
  {
    var r, got := g.consumer.request, g.consumer.got;
    var x := g.done[|g.seen|];
    var all := EncodeResponse(r, x.response);
    var got' := got + [g.fromHelper[0]];
    TakeOne(got, g.fromHelper, Left(g.helper));
    BeginsWhole(got', g.fromHelper[1..] + Left(g.helper));
    ConsumerUnderstands(r, x.response, got');
    var g' := Next(g, ConsumerTakes).state;
    if |got'| < |all| {
      assert Replying(g', r, got');
    } else {
      assert g.fromHelper[1..] + Left(g.helper) == [];
      assert g'.done == g'.seen;
    }
  }

  /** Every enabled move from a state of the invariant succeeds and keeps it. */
  lemma MoveKeeps(g: State, m: Move)
    requires Inv(g) && Enabled(g, m)
    ensures Next(g, m).Ok? && Inv(Next(g, m).state)
  {
    match m
    case Ask(r) =>
      var g' := Next(g, m).state;
      assert [] + ([] + Encode(r)) == Encode(r);
      assert Asking(g', r, Encode(r));
    case ConsumerSends => ConsumerSendsKeeps(g);
    case ConsumerTakes => ConsumerTakesKeeps(g);
    case HelperTakes(a) => HelperTakesKeeps(g, a);
    case HelperSends => HelperSendsKeeps(g);
  }

  /** A schedule: moves that are not enabled when their turn comes do nothing. */
  function Run(g: State, ms: seq<Move>): Outcome
    decreases |ms|
  {
    if ms == [] then Ok(g)
    else if !Enabled(g, ms[0]) then Run(g, ms[1..])
    else match Next(g, ms[0])
      case Trapped(t) => Trapped(t)
      case Ok(g') => Run(g', ms[1..])
  }

  lemma {:induction false} RunKeeps(g: State, ms: seq<Move>)
    requires Inv(g)
    ensures Run(g, ms).Ok? && Inv(Run(g, ms).state)
    decreases |ms|
  {
    if ms != [] {
      if Enabled(g, ms[0]) {
        MoveKeeps(g, ms[0]);
        RunKeeps(Next(g, ms[0]).state, ms[1..]);
      } else {
        RunKeeps(g, ms[1..]);
      }
    }
  }

  /** Over every schedule, with either helper: no trap on either side; the helper's descriptor and TLS
      handle are both set or both clear; whenever the session process is between requests both channels
      are empty, the helper is at its loop head, both agree on every exchange so far, and the session
      process is right about the helper's listener and data connection. */
  lemma EverySchedule(role: Role, chown: bool, ms: seq<Move>)
    ensures Run(Start(role, chown), ms).Ok?
    ensures var g := Run(Start(role, chown), ms).state;
      && g.memory.fd == g.memory.ssl
      && g.seen <= g.done && |g.done| <= |g.seen| + 1
      && (g.consumer.Idle? ==> g.toHelper == [] && g.fromHelper == [] && g.helper == Reading([]) && g.done == g.seen)
      && (g.consumer.Idle? ==> g.memory.fd == g.view.phase.Opened? && g.memory.listening == g.view.listening)
  {
    RunKeeps(Start(role, chown), ms);
  }

  // ---------------------------------------------------------------------------
  // What the helper holds, told by the exchanges

  /** The last listen came after the last clean-up. */
  ghost predicate ListenerOpen(done: seq<Exchange>) {
    exists i :: 0 <= i < |done| && done[i].request.PasvListen? &&
      forall j :: i < j < |done| ==> !done[j].request.PasvCleanup?
  }

  predicate Secured(x: Exchange) {
    x.request.Handshake? && x.response == Code(true)
  }

  /** The last handshake succeeded, and no close request came after it. */
  ghost predicate ConnectionOpen(done: seq<Exchange>) {
    exists i :: 0 <= i < |done| && Secured(done[i]) &&
      forall j :: i < j < |done| ==> !done[j].request.Handshake? && !done[j].request.Close?
  }

  ghost predicate Remembers(g: State) {
    && (g.memory.listening <==> ListenerOpen(g.done))
    && (g.memory.fd <==> ConnectionOpen(g.done)) && (g.memory.ssl <==> ConnectionOpen(g.done))
  }

  lemma ListenerNext(done: seq<Exchange>, x: Exchange)
    ensures ListenerOpen(done + [x]) <==> x.request.PasvListen? || (ListenerOpen(done) && !x.request.PasvCleanup?)
  {
    var now := done + [x];
    assert now[|done|] == x;
    if ListenerOpen(now) && !x.request.PasvListen? {
      var i :| 0 <= i < |now| && now[i].request.PasvListen? &&
        forall j :: i < j < |now| ==> !now[j].request.PasvCleanup?;
      assert done[i] == now[i] && forall j :: i < j < |done| ==> done[j] == now[j];
    }
    if ListenerOpen(done) && !x.request.PasvCleanup? {
      var i :| 0 <= i < |done| && done[i].request.PasvListen? &&
        forall j :: i < j < |done| ==> !done[j].request.PasvCleanup?;
      assert now[i] == done[i];
    }
  }

  lemma ConnectionNext(done: seq<Exchange>, x: Exchange)
    ensures ConnectionOpen(done + [x]) <==>
      Secured(x) || (ConnectionOpen(done) && !x.request.Handshake? && !x.request.Close?)
  {
    var now := done + [x];
    assert now[|done|] == x;
    if ConnectionOpen(now) && !Secured(x) {
      var i :| 0 <= i < |now| && Secured(now[i]) &&
        forall j :: i < j < |now| ==> !now[j].request.Handshake? && !now[j].request.Close?;
      assert done[i] == now[i] && forall j :: i < j < |done| ==> done[j] == now[j];
    }
    if ConnectionOpen(done) && !x.request.Handshake? && !x.request.Close? {
      var i :| 0 <= i < |done| && Secured(done[i]) &&
        forall j :: i < j < |done| ==> !done[j].request.Handshake? && !done[j].request.Close?;
      assert now[i] == done[i];
    }
  }

  lemma PerformRemembers(g: State, r: Request, a: Response)
    requires Good(r) && Fits(r, a) && Remembers(g)
    ensures Remembers(Perform(g, r, a))
  {
    ListenerNext(g.done, Exchange(r, a));
    ConnectionNext(g.done, Exchange(r, a));
  }

  lemma {:induction false} RunRemembers(g: State, ms: seq<Move>)
    requires Remembers(g)
    ensures Run(g, ms).Ok? ==> Remembers(Run(g, ms).state)
    decreases |ms|
  {
    if ms != [] {
      if !Enabled(g, ms[0]) {
        RunRemembers(g, ms[1..]);
      } else if Next(g, ms[0]).Ok? {
        NextRemembers(g, ms[0]);
        RunRemembers(Next(g, ms[0]).state, ms[1..]);
      }
    }
  }

  lemma NextRemembers(g: State, m: Move)
    requires Remembers(g) && Enabled(g, m) && Next(g, m).Ok?
    ensures Remembers(Next(g, m).state)
  {
    if m.HelperTakes? {
      var read := HelperRead(g.role, g.helper.taken + [g.toHelper[0]], g.memory);
      if read.Done? {
        PerformRemembers(g.(toHelper := g.toHelper[1..]), read.value, m.answer);
      }
    }
  }

  /** Over every schedule the helper has a listener exactly when its last listen came after its last
      clean-up, and a data connection with its TLS handle exactly when its last handshake succeeded and was
      not followed by a close; and between requests that is what the session process believes. */
  lemma HelperHolds(role: Role, chown: bool, ms: seq<Move>)
    ensures Run(Start(role, chown), ms).Ok?
    ensures var g := Run(Start(role, chown), ms).state;
      && (g.memory.listening <==> ListenerOpen(g.done))
      && (g.memory.fd <==> ConnectionOpen(g.done)) && (g.memory.ssl <==> ConnectionOpen(g.done))
      && (g.consumer.Idle? ==> (g.view.listening <==> ListenerOpen(g.seen)))
      && (g.consumer.Idle? ==> (g.view.phase.Opened? <==> ConnectionOpen(g.seen)))
  {
    RunRemembers(Start(role, chown), ms);
    EverySchedule(role, chown, ms);
  }

  /** The last handshake came after the last close, however it went. */
  ghost predicate Attempted(seen: seq<Exchange>) {
    exists i :: 0 <= i < |seen| && seen[i].request.Handshake? &&
      forall j :: i < j < |seen| ==> !seen[j].request.Close?
  }

  lemma AttemptedNext(seen: seq<Exchange>, x: Exchange)
    ensures Attempted(seen + [x]) <==> x.request.Handshake? || (Attempted(seen) && !x.request.Close?)
  {
    var now := seen + [x];
    assert now[|seen|] == x;
    if Attempted(now) && !x.request.Handshake? {
      var i :| 0 <= i < |now| && now[i].request.Handshake? && forall j :: i < j < |now| ==> !now[j].request.Close?;
      assert seen[i] == now[i] && forall j :: i < j < |seen| ==> seen[j] == now[j];
    }
    if Attempted(seen) && !x.request.Close? {
      var i :| 0 <= i < |seen| && seen[i].request.Handshake? && forall j :: i < j < |seen| ==> !seen[j].request.Close?;
      assert now[i] == seen[i];
    }
  }

  lemma {:induction false} RunRecalls(g: State, ms: seq<Move>)
    requires g.view.phase.Closed? <==> !Attempted(g.seen)
    ensures Run(g, ms).Ok? ==> var g' := Run(g, ms).state;
      (g'.view.phase.Closed? <==> !Attempted(g'.seen)) && g'.view.chown == g.view.chown && g'.role == g.role
    decreases |ms|
  {
    if ms != [] {
      if !Enabled(g, ms[0]) {
        RunRecalls(g, ms[1..]);
      } else if Next(g, ms[0]).Ok? {
        NextRecalls(g, ms[0]);
        RunRecalls(Next(g, ms[0]).state, ms[1..]);
      }
    }
  }

  lemma NextRecalls(g: State, m: Move)
    requires (g.view.phase.Closed? <==> !Attempted(g.seen)) && Enabled(g, m) && Next(g, m).Ok?
    ensures var g' := Next(g, m).state;
      (g'.view.phase.Closed? <==> !Attempted(g'.seen)) && g'.view.chown == g.view.chown && g'.role == g.role
  {
    if m.ConsumerTakes? {
      var read := ConsumerRead(g.consumer.request, g.consumer.got + [g.fromHelper[0]]);
      if read.Done? {
        AttemptedNext(g.seen, Exchange(g.consumer.request, read.value));
      }
    }
  }

  /** The request is in order after these exchanges. */
  ghost predicate Follows(seen: seq<Exchange>, chown: bool, r: Request) {
    match r
    case Handshake(_) => !Attempted(seen)
    case Close => Attempted(seen)
    case ReadData(_) => ConnectionOpen(seen)
    case WriteData(_) => ConnectionOpen(seen)
    case Chown(_) => chown
    case GetDataSock(port) => !ListenerOpen(seen) && port >= 1024
    case PasvListen => !ListenerOpen(seen)
    case PasvAccept => ListenerOpen(seen)
    case _ => true
  }

  /** Between requests, what the session process may ask next, told by the exchanges before. */
  lemma MayAsk(role: Role, chown: bool, ms: seq<Move>, r: Request)
    requires Run(Start(role, chown), ms).Ok? && Run(Start(role, chown), ms).state.consumer.Idle?
    ensures var g := Run(Start(role, chown), ms).state;
      Enabled(g, Ask(r)) <==> For(role, r) && Good(r) && Follows(g.seen, chown, r)
  {
    HelperHolds(role, chown, ms);
    RunRecalls(Start(role, chown), ms);
  }

  // ---------------------------------------------------------------------------
  // No deadlock

  /** An answer the helper can always give. */
  function SomeAnswer(m: Memory, r: Request): Response {
    match r
    case GetUserCmd => IntStr(-1, [])
    case WriteUserResp(_) => Int(0)
    case WriteData(_) => Int(0)
    case ReadData(_) => IntStr(0, [])
    case GetDataSock(_) => Code(false)
    case PasvActive => Int(if m.listening then 1 else 0)
    case PasvListen => Int(1024)
    case PasvAccept => Refused(-1)
    case _ => Code(true)
  }

  /** A move that is possible while an exchange is in flight. */
  function SomeMove(g: State): Move
    requires !g.consumer.Idle?
  {
    if g.consumer.Sending? then ConsumerSends
    else if g.fromHelper != [] then ConsumerTakes
    else if g.helper.Answering? then HelperSends
    else HelperTakes(SomeAnswer(g.memory, g.consumer.request))
  }

  /** While an exchange is in flight some process can move. */
  lemma NoDeadlock(g: State)
    requires Inv(g) && !g.consumer.Idle?
    ensures Enabled(g, SomeMove(g))
  {
    if g.consumer.Awaiting? && g.fromHelper == [] && g.helper.Reading? {
      var r, got := g.consumer.request, g.consumer.got;
      assert |got + (g.fromHelper + Left(g.helper))| == |got|;
      assert Asking(g, r, []);
      assert g.helper.taken + (g.toHelper + []) == Encode(r);
      assert |g.helper.taken| + |g.toHelper| == |g.helper.taken + (g.toHelper + [])|;
      HelperTakesOne(g, r, []);
    }
  }

  /** How far an exchange is: 2 while the request travels, 1 while the answer does, 0 when it is over. */
  function Stage(g: State): nat {
    if g.consumer.Idle? then 0 else if |g.done| > |g.seen| then 1 else 2
  }

  /** The items still to be moved in this stage, unsent ones counted twice. */
  function Pending(g: State): nat {
    |g.toHelper| + |g.fromHelper| + 2 * |Left(g.helper)| + if g.consumer.Sending? then 2 * |g.consumer.rest| else 0
  }

  /** Every move but a new request brings the exchange nearer to its end; with `NoDeadlock`, every
      request is answered. */
  lemma MoveProgresses(g: State, m: Move)
    requires Inv(g) && Enabled(g, m) && !m.Ask?
    ensures Next(g, m).Ok? && Nearer(Next(g, m).state, g)
  {
    MoveKeeps(g, m);
    match m
    case HelperTakes(_) =>
      HelperProgresses(g, m);
    case ConsumerTakes =>
      assert g.fromHelper != [] && |g.done| > |g.seen|;
    case ConsumerSends =>
      assert Asking(g, g.consumer.request, g.consumer.rest);
    case HelperSends =>
  }

  /** A later stage, or the same one with less to move. */
  predicate Nearer(g': State, g: State) {
    Stage(g') < Stage(g) || (Stage(g') == Stage(g) && Pending(g') < Pending(g))
  }

  lemma HelperProgresses(g: State, m: Move)
    requires Inv(g) && Enabled(g, m) && m.HelperTakes?
    ensures Next(g, m).Ok? ==> Nearer(Next(g, m).state, g)
  {
    assert !g.consumer.Idle?;
    HelperTakesOne(g, g.consumer.request, if g.consumer.Sending? then g.consumer.rest else []);
  }

  // ---------------------------------------------------------------------------
  // The sizes that the transfer loops use

  /** The reads of an upload and the writes of a download, fully expanded in ASCII mode, are within the
      limits of the protocol. */
  lemma TransferSizesFit(tunableChunk: nat, chunk: seq<byte>, prevCr: bool, data: seq<byte>)
    requires |chunk| <= Transfer.ChunkSize(tunableChunk)
    requires data == chunk || data == Ascii.ToAscii(prevCr, chunk)
    ensures Good(ReadData(Transfer.ChunkSize(tunableChunk)))
    ensures Good(WriteData(data))
  {
  }
}
