/** What commands do to a session at its loop head, told only of the fields of the session, its
    configuration and the answers of the world: when a transfer is made, what is recorded of it, how it is
    logged, how the turn ends, and what short exchanges lead to. */
module Turns {
  import opened Base
  import opened Session

  /** The head of the command loop. */
  ghost predicate Head(s: Control)
    reads s
  {
    s.AtLoopHead() && s.Armed() && s.Logged() && !s.dataTimeout
  }

  /** The fields of a session when a command comes. */
  datatype Fields = Fields(port: Option<Address>, passive: bool, useSsl: bool, isAscii: bool, restartPos: nat)

  ghost function Now(s: Control): Fields
    reads s
  {
    Fields(s.port, s.listen.Some?, s.dataUseSsl, s.isAscii, s.restartPos)
  }

  // ---------------------------------------------------------------------------
  // Reference meaning of the commands that may use a data connection

  /** PORT or PASV is active, and encryption is used where it is demanded. */
  predicate Prepared(cfg: Config, f: Fields) {
    (f.port.Some? || f.passive) && (cfg.forceDataSsl ==> f.useSsl)
  }

  /** The command asks for a data connection. */
  predicate Wants(cfg: Config, f: Fields, i: Input) {
    Prepared(cfg, f) && match i
      case Retr(allowed, found, _, _) => allowed && found && (f.isAscii ==> f.restartPos == 0)
      case Stor(allowed, file, locked, inBounds, _, _, _) =>
        allowed && file.Some? && !locked && (f.restartPos == 0 || inBounds)
      case Dir(stat, allowed, _, _) => allowed && !stat
      case _ => false
  }

  /** The peer is reached, and is the client where that is demanded. */
  predicate Reached(cfg: Config, f: Fields, c: Conn) {
    if f.passive then c.accepted.Some? && (c.samePeer || cfg.pasvPromiscuous) else c.connected
  }

  /** Encryption comes up, or is not used. */
  predicate Secured(cfg: Config, f: Fields, c: Conn) {
    !f.useSsl || (if cfg.slaveActive then c.handshakeOk else c.ssl == Accepted)
  }

  predicate Heard(cfg: Config, c: Conn) {
    cfg.asyncAbor && !cfg.controlSsl && (c.during.abor || c.closing.abor)
  }

  predicate TimedOut(c: Conn) {
    c.during.timeout || c.closing.timeout
  }

  /** The connection came up and was closed without a failure, an ABOR or a timeout. */
  predicate Sound(cfg: Config, f: Fields, c: Conn) {
    Reached(cfg, f, c) && Secured(cfg, f, c) && (f.useSsl ==> c.shutdownOk) && !Heard(cfg, c) && !TimedOut(c)
  }

  /** The record of a transfer over a connection that came up. */
  function Made(cfg: Config, f: Fields, kind: LogKind, c: Conn): Transfer
    requires Reached(cfg, f, c)
  {
    if f.passive
    then Transfer(kind, c.accepted.value, f.restartPos, InAscii(cfg, f, kind), f.useSsl, c.samePeer)
    else
      var own := f.port.Some? && f.port.value.ip == cfg.remoteIp;
      Transfer(kind, c.sock, f.restartPos, InAscii(cfg, f, kind), f.useSsl, own)
  }

  predicate InAscii(cfg: Config, f: Fields, kind: LogKind) {
    f.isAscii && ((kind.Download? && cfg.asciiDownload) || (kind.Upload? && cfg.asciiUpload))
  }

  function MadeBy(cfg: Config, f: Fields, i: Input): seq<Transfer> {
    if i.Dir? || !Wants(cfg, f, i) || !Reached(cfg, f, i.conn) || !Secured(cfg, f, i.conn) then []
    else [Made(cfg, f, if i.Retr? then Download else Upload, i.conn)]
  }

  /** The log lines of a command: one, once the first checks have passed. */
  function LoggedBy(cfg: Config, f: Fields, i: Input): seq<LogLine> {
    match i
    case Retr(_, _, c, result) =>
      if !Prepared(cfg, f) || (f.isAscii && f.restartPos > 0) then []
      else [LogLine(Download, Wants(cfg, f, i) && Sound(cfg, f, c) && result == 0)]
    case Stor(_, _, _, _, c, result, stored) =>
      if !Prepared(cfg, f) then []
      else [LogLine(Upload, Wants(cfg, f, i) && Sound(cfg, f, c) && result == 0 && stored)]
    case _ => []
  }

  /** The replies to an ABOR: one for a connection that came up and during which it was heard. */
  function AborsBy(cfg: Config, f: Fields, i: Input): nat
    requires MayTransfer(i)
  {
    if Wants(cfg, f, i) && Reached(cfg, f, i.conn) && Secured(cfg, f, i.conn) && Heard(cfg, i.conn) then 1 else 0
  }

  /** How the turn ends when a data connection is asked for. */
  function Ending(cfg: Config, f: Fields, c: Conn): End
    requires f.passive || f.port.Some?
  {
    if !f.passive && f.port.value.port < 1024 then IllegalPort
    else if !f.passive && !c.bound then BindFailed
    else if !Reached(cfg, f, c) then Go
    else if TimedOut(c) || (!Secured(cfg, f, c) && cfg.requireReuse) then Exit
    else Go
  }

  /** The PORT address or the listener is used up: by asking for a connection, and by an upload as soon as
      its local file is open. */
  predicate UsesUp(cfg: Config, f: Fields, i: Input) {
    Wants(cfg, f, i) || (i.Stor? && Prepared(cfg, f) && i.allowed && i.file.Some?)
  }

  // ---------------------------------------------------------------------------
  // The session does that

  lemma Meant(s: Control, i: Input, f: Fields)
    requires MayTransfer(i) && f == Now(s)
    ensures s.Asks(i) <==> Wants(s.cfg, f, i)
    ensures s.TransfersOf(i) == MadeBy(s.cfg, f, i)
    ensures s.LogOf(i) == LoggedBy(s.cfg, f, i)
    ensures s.Consumes(i) <==> UsesUp(s.cfg, f, i)
    ensures s.AborsOf(i) == AborsBy(s.cfg, f, i)
  {
  }

  lemma Ended(s: Control, i: Input, f: Fields)
    requires MayTransfer(i) && f == Now(s)
    ensures !Wants(s.cfg, f, i) ==> s.EndOf(i).Go? && !s.TimesOut(i)
    ensures Wants(s.cfg, f, i) ==>
      Ending(s.cfg, f, i.conn) == if s.EndOf(i).Go? && s.TimesOut(i) then Exit else s.EndOf(i)
  {
  }

  /** RETR, STOR, LIST, NLST and STAT: exactly when a transfer is made and with what record; its log line;
      its reply to an ABOR; when PORT or PASV is used up; and how the turn ends. */
  method TransferTurn(s: Control, i: Input) returns (e: End)
    requires Head(s) && MayTransfer(i) && Answered(i)
    modifies s
    ensures e == if Wants(s.cfg, old(Now(s)), i) then Ending(s.cfg, old(Now(s)), i.conn) else Go
    ensures e.Go? ==> Head(s)
    ensures e.Go? ==> s.past.transfers == old(s.past.transfers) + MadeBy(s.cfg, old(Now(s)), i)
    ensures e.Go? ==> s.past.lines == old(s.past.lines) + LoggedBy(s.cfg, old(Now(s)), i)
    ensures e.Go? ==> s.past.finals - s.past.abors == old(s.past.finals - s.past.abors) + 1
    ensures e.Go? ==> s.past.abors == old(s.past.abors) + AborsBy(s.cfg, old(Now(s)), i)
    ensures e.Go? ==> Now(s) == old(Now(s)).(port := s.port, passive := s.listen.Some?, restartPos := s.restartPos)
    ensures e.Go? ==> s.restartPos == if i.Dir? then old(s.restartPos) else 0
    ensures e.Go? ==> s.port == if UsesUp(s.cfg, old(Now(s)), i) then None else old(s.port)
    ensures e.Go? ==> (s.listen.Some? <==> !UsesUp(s.cfg, old(Now(s)), i) && old(s.listen.Some?))
    ensures s.epsvAll == old(s.epsvAll) || !e.Go?
  {
    Meant(s, i, Now(s));
    Ended(s, i, Now(s));
    e := s.Step(i);
  }

  /** Where encryption is demanded and not used, nothing is transferred, whatever the command. */
  method DemandedEncryption(s: Control, i: Input) returns (e: End)
    requires Head(s) && Answered(i) && s.cfg.forceDataSsl && !s.dataUseSsl
    modifies s
    ensures e.Go? ==> s.past.transfers == old(s.past.transfers)
    ensures MayTransfer(i) && (i.Dir? ==> !i.stat) ==>
      e.Go? && s.port == old(s.port) && s.past.lines == old(s.past.lines)
  {
    if MayTransfer(i) {
      Meant(s, i, Now(s));
      Ended(s, i, Now(s));
    }
    e := s.Step(i);
  }

  // ---------------------------------------------------------------------------
  // Settings and set-ups

  /** TYPE and REST change their setting and nothing else. */
  method SettingTurn(s: Control, i: Input) returns (e: End)
    requires Head(s) && (i.Mode? || i.Rest?)
    modifies s
    ensures e.Go? && Head(s) && s.epsvAll == old(s.epsvAll)
    ensures i.Mode? ==> Now(s) == old(Now(s)).(isAscii := i.ascii)
    ensures i.Rest? ==> Now(s) == old(Now(s)).(restartPos := i.pos)
    ensures s.past.transfers == old(s.past.transfers) && s.past.lines == old(s.past.lines)
  {
    e := s.Step(i);
  }

  /** PROT takes effect only under control TLS. */
  method ProtTurn(s: Control, secret: Option<bool>) returns (e: End)
    requires Head(s)
    modifies s
    ensures e.Go? && Head(s) && s.epsvAll == old(s.epsvAll)
    ensures s.cfg.controlSsl && secret.Some? ==> Now(s) == old(Now(s)).(useSsl := secret.value)
    ensures !s.cfg.controlSsl || secret.None? ==> Now(s) == old(Now(s))
    ensures s.past.transfers == old(s.past.transfers) && s.past.lines == old(s.past.lines)
  {
    e := s.Step(Prot(secret));
  }

  /** MKD, RMD and DELE: one log line, which tells how it went. */
  method ChangeTurn(s: Control, kind: LogKind, ok: bool) returns (e: End)
    requires Head(s) && (kind.Mkdir? || kind.Rmdir? || kind.Delete?)
    modifies s
    ensures e.Go? && Head(s) && Now(s) == old(Now(s)) && s.past.transfers == old(s.past.transfers)
    ensures s.past.lines == old(s.past.lines) + [LogLine(kind, ok)]
  {
    e := s.Step(Change(kind, ok));
  }

  /** PORT, unless EPSV ALL was given before, and EPRT: away with the listener, and the address is taken if
      it is the client's own and not reserved, or the administrator allows any. */
  method PortTurn(s: Control, eprt: bool, target: Option<Address>) returns (e: End)
    requires Head(s)
    modifies s
    ensures e.Go? && Head(s) && s.epsvAll == old(s.epsvAll)
    ensures !eprt && old(s.epsvAll) ==> Now(s) == old(Now(s))
    ensures eprt || !old(s.epsvAll) ==>
      Now(s) == old(Now(s)).(passive := false, port := s.port) && (s.port.Some? ==> s.port == target)
    ensures (eprt || !old(s.epsvAll)) && target.Some? ==>
      (s.port.Some? <==> s.cfg.promiscuous || (target.value.ip == s.cfg.remoteIp && target.value.port >= 1024))
    ensures s.past.transfers == old(s.past.transfers) && s.past.lines == old(s.past.lines)
  {
    e := s.Step(if eprt then Eprt(target) else Port(target));
  }

  /** PASV: refused after EPSV ALL; otherwise a listener on the first try that succeeds when all before it
      found their port busy, and else the process ends. */
  method PasvTurn(s: Control, tries: seq<Try>) returns (e: End)
    requires Head(s) && |tries| == 9
    modifies s
    ensures old(s.epsvAll) ==> e.Go? && Now(s) == old(Now(s))
    ensures !old(s.epsvAll) ==> (e.BindFailed? <==>
      !exists k :: 0 <= k < 9 && tries[k].bindOk && tries[k].listenOk && AllBusy(tries[..k]))
    ensures !old(s.epsvAll) && !e.BindFailed? ==> (e.Go? <==> !s.cfg.badPasvAddress)
    ensures !old(s.epsvAll) && e.Go? ==> Now(s) == old(Now(s)).(passive := true, port := None)
    ensures e.Go? ==> Head(s) && s.epsvAll == old(s.epsvAll)
    ensures e.Go? ==> s.past.transfers == old(s.past.transfers) && s.past.lines == old(s.past.lines)
  {
    CanListenExactly(tries);
    e := s.Step(Pasv(tries));
  }

  /** EPSV: ALL is remembered; a protocol number other than 1, and 2 without IPv6, is declined; otherwise as
      PASV. */
  method EpsvTurn(s: Control, arg: EpsvArg, tries: seq<Try>) returns (e: End)
    requires Head(s) && |tries| == 9
    modifies s
    ensures arg == All ==> e.Go? && s.epsvAll && Now(s) == old(Now(s))
    ensures arg != All && e.Go? ==> s.epsvAll == old(s.epsvAll)
    ensures arg.Number? && arg.n != 1 && (arg.n == 2 ==> !s.cfg.ipv6) ==> e.Go? && Now(s) == old(Now(s))
    ensures e.Go? && (arg == NoArg || arg == Number(1) || (arg == Number(2) && s.cfg.ipv6)) ==>
      Now(s) == old(Now(s)).(passive := true, port := None)
    ensures arg == NoArg || arg == Number(1) || (arg == Number(2) && s.cfg.ipv6) ==>
      var can := exists k :: 0 <= k < 9 && tries[k].bindOk && tries[k].listenOk && AllBusy(tries[..k]);
      e == if can then Go else BindFailed
    ensures e.Go? ==> Head(s) && s.past.transfers == old(s.past.transfers)
  {
    CanListenExactly(tries);
    e := s.Step(Epsv(arg, tries));
  }

  /** Other commands, an empty line and QUIT, which alone ends the session. */
  method OtherTurn(s: Control, i: Input) returns (e: End)
    requires Head(s) && (i.Other? || i.Empty? || i.Quit?)
    modifies s
    ensures e == if i.Quit? then Exit else Go
    ensures e.Go? ==> Head(s) && Now(s) == old(Now(s)) && s.epsvAll == old(s.epsvAll)
    ensures e.Go? ==> s.past.transfers == old(s.past.transfers) && s.past.lines == old(s.past.lines)
    ensures e.Go? ==> s.past.finals - s.past.abors == old(s.past.finals - s.past.abors) + if i.Empty? then 0 else 1
  {
    e := s.Step(i);
  }

  // ---------------------------------------------------------------------------
  // Exchanges

  /** TYPE, REST, PASV, RETR: a file that is found and allowed is sent to the client, in the mode and from the
      position it chose, and the line in the log says so. */
  method PassiveDownload(s: Control, ascii: bool, pos: nat, tries: seq<Try>, c: Conn) returns (e: End)
    requires Head(s) && !s.cfg.forceDataSsl && !s.dataUseSsl && !s.epsvAll && !s.cfg.badPasvAddress
    requires |tries| == 9 && tries[0].bindOk && tries[0].listenOk && (ascii ==> pos == 0)
    requires c.accepted.Some? && c.samePeer && !c.during.abor && !c.closing.abor
    requires !c.during.timeout && !c.closing.timeout
    modifies s
    ensures e.Go? && Head(s)
    ensures s.past.transfers == old(s.past.transfers) +
      [Transfer(Download, c.accepted.value, pos, ascii && s.cfg.asciiDownload, false, true)]
    ensures s.past.lines == old(s.past.lines) + [LogLine(Download, true)]
    ensures s.port == None && s.listen == None && s.restartPos == 0
  {
    e := SettingTurn(s, Mode(ascii));
    e := SettingTurn(s, Rest(pos));
    assert tries[0].bindOk && tries[0].listenOk && AllBusy(tries[..0]);
    e := PasvTurn(s, tries);
    e := TransferTurn(s, Retr(true, true, c, 0));
  }

  /** TYPE, REST, PORT, STOR: the same for an upload to the address of the client, which is encrypted as the
      data connections of the session are, and succeeds when the store takes the file. */
  method ActiveUpload(s: Control, ascii: bool, pos: nat, a: Address, file: nat, c: Conn, stored: bool) returns (e: End)
    requires Head(s) && (s.cfg.forceDataSsl ==> s.dataUseSsl) && !s.epsvAll
    requires a.ip == s.cfg.remoteIp && a.port >= 1024 && c.bound && c.connected
    requires c.ssl.Accepted? && c.handshakeOk && c.shutdownOk && !c.during.abor && !c.closing.abor
    requires !c.during.timeout && !c.closing.timeout
    modifies s
    ensures e.Go? && Head(s)
    ensures s.past.transfers == old(s.past.transfers) +
      [Transfer(Upload, c.sock, pos, ascii && s.cfg.asciiUpload, old(s.dataUseSsl), true)]
    ensures s.past.lines == old(s.past.lines) + [LogLine(Upload, stored)]
    ensures s.port == None && s.listen == None && s.restartPos == 0
  {
    e := SettingTurn(s, Mode(ascii));
    e := SettingTurn(s, Rest(pos));
    e := PortTurn(s, false, Some(a));
    e := TransferTurn(s, Stor(true, Some(file), false, true, c, 0, stored));
  }

  /** A stranger who connects to the listener gets nothing. */
  method StrangerGetsNothing(s: Control, i: Input) returns (e: End)
    requires Head(s) && MayTransfer(i) && Answered(i) && s.listen.Some?
    requires !s.cfg.pasvPromiscuous && !i.conn.samePeer
    modifies s
    ensures e.Go? && s.past.transfers == old(s.past.transfers)
  {
    e := TransferTurn(s, i);
  }
}
