/** The data-connection state of a session (postlogin.c, ftpdataio.c, privops.c, logging.c): the PORT
    address, the PASV listener, the data descriptor, the I/O handler, the data TLS handle and the
    log entry, across every command of a run. What the network, the store and the kernel answer
    comes in as parameters; the `bug` and `die` traps of the source are outcomes. */
module Session {
  import opened Base
  import PassivePort
  import PrivSock

  datatype LogKind = Download | Upload | Mkdir | Rmdir | Delete
  datatype LogLine = LogLine(kind: LogKind, ok: bool)
  datatype Address = Address(ip: seq<byte>, port: nat)

  datatype Trap =
    | NeitherActive | DataFdPresent | NoDataFd | DoubleHandler | NoHandler | LogOpen
    | ListenerActive | ListenerMissing | SslPresent | SlaveOutOfStep

  /** How a handler ends: back to the command loop, a polite exit, a `die` that the outside world
      can cause, or a trap that no client should be able to reach. */
  datatype End = Go | Exit | IllegalPort | BindFailed | BadPasvAddress | Trapped(trap: Trap)

  datatype Config = Config(promiscuous: bool, pasvPromiscuous: bool, slaveActive: bool, controlSsl: bool,
    asyncAbor: bool, chownUploads: bool, forceDataSsl: bool, requireReuse: bool, asciiDownload: bool, asciiUpload: bool,
    badPasvAddress: bool,
    ipv6: bool, remoteIp: seq<byte>, minPort: nat, maxPort: nat)

  /** Signals that arrive while a data descriptor is open: an ABOR, and the data timer. */
  datatype Signals = Signals(abor: bool, timeout: bool)

  datatype SslAccept = NoHandshake | Rejected | Accepted

  /** What the world answers while a data connection is set up, used and released. */
  datatype Conn = Conn(accepted: Option<nat>, samePeer: bool, sock: nat, bound: bool, connected: bool,
    ssl: SslAccept, handshakeOk: bool, during: Signals, closing: Signals, shutdownOk: bool)

  /** One try to bind and listen. */
  datatype Try = Try(hi: byte, lo: byte, sock: nat, bindOk: bool, listenOk: bool, busy: bool)

  datatype EpsvArg = NoArg | All | Number(n: int)

  datatype Input =
    | Pasv(tries: seq<Try>)
    | Epsv(arg: EpsvArg, tries: seq<Try>)
    | Port(target: Option<Address>)
    | Eprt(target: Option<Address>)
    | Retr(allowed: bool, found: bool, conn: Conn, result: int)
    | Stor(allowed: bool, file: Option<nat>, locked: bool, inBounds: bool, conn: Conn, result: int, stored: bool)
    | Dir(stat: bool, allowed: bool, conn: Conn, result: int)
    | Change(kind: LogKind, ok: bool)
    | Prot(secret: Option<bool>)
    | Rest(pos: nat)
    | Mode(ascii: bool)
    | Other | Empty | Quit

  /** The world answers every try, and transfers return one of the codes of the source. */
  predicate Answered(i: Input) {
    match i
    case Pasv(tries) => |tries| == 9
    case Epsv(_, tries) => |tries| == 9
    case Retr(_, _, _, r) => r == 0 || r == -1 || r == -2
    case Stor(_, _, _, _, _, r, _) => r == 0 || r == -1 || r == -2 || r == -3
    case Dir(_, _, _, r) => r == 0 || r == -1
    case Change(k, _) => k.Mkdir? || k.Rmdir? || k.Delete?
    case _ => true
  }

  predicate Reserved(port: nat) {
    port < 1024
  }

  /** A transfer that was started, with the descriptor and the start offset it was given, whether its data
      connection was encrypted, and whether it led to the address of the client. */
  datatype Transfer = Transfer(kind: LogKind, fd: nat, offset: nat, ascii: bool, encrypted: bool, own: bool)

  /** What happened in a session so far: how often the watched descriptor was opened less how often it was
      closed; log entries begun and log lines written; file transfers started; commands that set up a
      data connection and attempts to make one; final replies, those of them that answer an ABOR, and
      transfers during which an ABOR was noted. */
  datatype Past = Past(balance: int, entries: seq<LogKind>, lines: seq<LogLine>, transfers: seq<Transfer>,
    setups: nat, attempts: nat, finals: nat, abors: nat, noted: nat)

  // ---------------------------------------------------------------------------
  // The two tests that call each other

  datatype Answer = Yes | No | Bug | StillRunning

  /** `port_active`, cut off after `depth` calls. */
  function PortCall(port: bool, pasv: bool, depth: nat): Answer {
    if depth == 0 then StillRunning
    else if !port then No
    else match PasvCall(port, pasv, depth - 1)
      case Yes => Bug
      case No => Yes
      case a => a
  }

  /** `pasv_active`, cut off after `depth` calls. */
  function PasvCall(port: bool, pasv: bool, depth: nat): Answer {
    if depth == 0 then StillRunning
    else if !pasv then No
    else match PortCall(port, pasv, depth - 1)
      case Yes => Bug
      case No => Yes
      case a => a
  }

  /** With both active the calls never return: the trap they are meant to spring is not reached at any
      depth. */
  lemma {:induction false} BothActiveDiverges(depth: nat)
    ensures PortCall(true, true, depth) == StillRunning && PasvCall(true, true, depth) == StillRunning
  {
    if depth > 0 {
      BothActiveDiverges(depth - 1);
    }
  }

  lemma ActiveCallsAnswer(port: bool, pasv: bool, depth: nat)
    requires !(port && pasv) && depth >= 2
    ensures PortCall(port, pasv, depth) == (if port then Yes else No)
    ensures PasvCall(port, pasv, depth) == (if pasv then Yes else No)
  {
  }

  predicate BothReturn(port: bool, pasv: bool, depth: nat) {
    PortCall(port, pasv, depth) != StillRunning && PasvCall(port, pasv, depth) != StillRunning
  }

  /** The calls return, with the obvious answer, exactly when not both are active. */
  lemma ActiveCallsReturn(port: bool, pasv: bool)
    ensures (exists depth: nat :: BothReturn(port, pasv, depth)) <==> !(port && pasv)
  {
    if port && pasv {
      forall depth: nat ensures PortCall(port, pasv, depth) == StillRunning {
        BothActiveDiverges(depth);
      }
    } else {
      ActiveCallsAnswer(port, pasv, 2);
      assert BothReturn(port, pasv, 2);
    }
  }

  // ---------------------------------------------------------------------------
  // The session

  class Control {
    const cfg: Config
    var port: Option<Address>
    var listen: Option<nat>
    var dataFd: Option<nat>
    /** The local file of an upload in progress (a local variable of its handler). */
    var uploadFd: Option<nat>
    var ioHandler: bool
    var dataSsl: bool
    /** Where the exchange with the TLS slave is, when there is one. */
    var slave: PrivSock.Phase
    var log: Option<LogKind>
    var aborReceived: bool
    var dataTimeout: bool
    var dataUseSsl: bool
    var isAscii: bool
    var epsvAll: bool
    var restartPos: nat

    /** An arbitrary descriptor, whose openings and closings are counted. */
    ghost const watched: nat
    /** What happened so far. */
    ghost var past: Past

    /** PROT may have been given before the login. */
    constructor (cfg: Config, useSsl: bool, ghost watched: nat)
      requires useSsl ==> cfg.controlSsl
      ensures this.cfg == cfg && this.watched == watched && AtLoopHead() && Armed() && Logged()
      ensures past.finals == past.abors == past.noted == past.setups == past.attempts == 0 && past.lines == []
      ensures past.entries == [] && past.transfers == []
      ensures past.balance == 0 && port == None && listen == None && !dataTimeout && dataUseSsl == useSsl
      ensures !isAscii && !epsvAll && restartPos == 0
    {
      this.cfg := cfg;
      this.watched := watched;
      port, listen, dataFd, uploadFd, log := None, None, None, None, None;
      ioHandler, dataSsl, aborReceived, dataTimeout := false, false, false, false;
      dataUseSsl, isAscii, epsvAll := useSsl, false, false;
      restartPos := 0;
      slave := PrivSock.Closed;
      past := Past(0, [], [], [], 0, 0, 0, 0, 0);
    }

    ghost function Is(fd: Option<nat>): int {
      if fd == Some(watched) then 1 else 0
    }

    /** Every opening of the watched descriptor was followed by one closing, unless the session still
        holds it. */
    ghost predicate Books()
      reads this`listen, this`dataFd, this`uploadFd, this`past
    {
      past.balance == Is(listen) + Is(dataFd) + Is(uploadFd)
    }

    /** Every ABOR noted was answered once, unless the answer is still to come; and data connections are
        encrypted only when the control connection is. */
    ghost predicate Owed()
      reads this`past, this`aborReceived, this`dataUseSsl
    {
      past.noted == past.abors + (if aborReceived then 1 else 0) && (dataUseSsl ==> cfg.controlSsl)
    }

    /** No data connection is in progress and PORT and PASV are not both active. */
    ghost predicate NoConnection()
      reads this
    {
      && dataFd == None && !ioHandler && !dataSsl && slave.Closed?
      && !(port.Some? && listen.Some?)
      && Books() && Owed()
    }

    /** Where PORT may point: to the client's own address and to no reserved port, unless the
        administrator chose otherwise; and each set-up serves one attempt at most. */
    ghost predicate Armed()
      reads this
    {
      && (port.Some? && !cfg.promiscuous ==> port.value.ip == cfg.remoteIp && !Reserved(port.value.port))
      && past.attempts + (if port.Some? || listen.Some? then 1 else 0) <= past.setups
      && |past.transfers| <= past.attempts
    }

    /** Each entry begun has its one line, in order. */
    ghost predicate Logged()
      reads this`past
    {
      past.entries == Kinds(past.lines)
    }

    ghost predicate AtLoopHead()
      reads this
    {
      NoConnection() && uploadFd == None && log == None && !aborReceived && past.abors == past.noted
    }

    // -- The two tests -----------------------------------------------------------

    /** They end because at most one of the two is active. */
    function PortActive(): (r: bool)
      requires !(port.Some? && listen.Some?)
      reads this
      ensures r <==> port.Some?
      decreases if port.Some? then 1 else 0
    {
      if port.Some? then !PasvActive() else false
    }

    function PasvActive(): (r: bool)
      requires !(port.Some? && listen.Some?)
      reads this
      ensures r <==> listen.Some?
      decreases if listen.Some? then 1 else 0
    {
      if listen.Some? then !PortActive() else false
    }

    /** The session's view of its helper processes. */
    function HelperView(): PrivSock.View
      reads this`slave, this`listen
    {
      PrivSock.View(slave, listen.Some?, cfg.chownUploads)
    }

    // -- Small steps -------------------------------------------------------------

    method Reply()
      modifies this`past
      ensures past == old(past).(finals := past.finals)
      ensures past.finals == old(past.finals) + 1
    {
      past := past.(finals := past.finals + 1);
    }

    method PortCleanup()
      modifies this`port
      ensures port == None
    {
      port := None;
    }

    method PasvCleanup()
      modifies this`listen, this`past
      ensures past == old(past).(balance := past.balance)
      ensures listen == None && (old(Books()) ==> Books())
    {
      if listen.Some? {
        past := past.(balance := past.balance - Is(Some(listen.value)));
        listen := None;
      }
    }

    method Disarm()
      modifies this`port, this`listen, this`past
      ensures past == old(past).(balance := past.balance)
      ensures port == None && listen == None && (old(Books()) ==> Books())
    {
      PortCleanup();
      PasvCleanup();
    }

    /** `vsf_log_start_entry`. */
    method StartEntry(kind: LogKind) returns (e: End)
      modifies this`log, this`past
      ensures past == old(past).(entries := past.entries)
      ensures e == if old(log).Some? then Trapped(LogOpen) else Go
      ensures e.Go? ==> log == Some(kind) && past.entries == old(past.entries) + [kind]
    {
      if log.Some? {
        return Trapped(LogOpen);
      }
      log := Some(kind);
      past := past.(entries := past.entries + [kind]);
      return Go;
    }

    /** `vsf_log_do_log`, called only with an entry open. */
    method DoLog(ok: bool)
      requires log.Some?
      modifies this`log, this`past
      ensures past == old(past).(lines := past.lines)
      ensures log == None && past.lines == old(past.lines) + [LogLine(old(log).value, ok)]
    {
      past := past.(lines := past.lines + [LogLine(log.value, ok)]);
      log := None;
    }

    /** The signal handlers: the one for ABOR is installed only without TLS on the control connection,
        and an ABOR counts only while a data descriptor is open. */
    method Deliver(signals: Signals)
      modifies this`aborReceived, this`dataTimeout, this`past
      ensures past == old(past).(noted := past.noted)
      ensures aborReceived ==
        (old(aborReceived) || (signals.abor && cfg.asyncAbor && !cfg.controlSsl && dataFd.Some?))
      ensures dataTimeout == (old(dataTimeout) || signals.timeout)
      ensures old(Owed()) ==> Owed()
    {
      if signals.abor && Hears(cfg) && dataFd.Some? {
        past := past.(noted := past.noted + if aborReceived then 0 else 1);
        aborReceived := true;
      }
      if signals.timeout {
        dataTimeout := true;
      }
    }

    method CheckAbor()
      modifies this`aborReceived, this`past
      ensures past == old(past).(finals := past.finals, abors := past.abors)
      ensures !aborReceived
      ensures past.finals == old(past.finals) + (if old(aborReceived) then 1 else 0)
      ensures past.abors == old(past.abors) + (if old(aborReceived) then 1 else 0)
      ensures old(Owed()) ==> Owed()
    {
      if aborReceived {
        aborReceived := false;
        Reply();
        past := past.(abors := past.abors + 1);
      }
    }

    // -- Making and ending a data connection ---------------------------------------

    /** A data connection is up on `fd`. */
    ghost predicate Connected(fd: nat)
      reads this
    {
      && dataFd == Some(fd) && ioHandler && (dataSsl <==> dataUseSsl && !cfg.slaveActive)
      && slave == (if dataUseSsl && cfg.slaveActive then PrivSock.Opened else PrivSock.Closed)
      && !(port.Some? && listen.Some?)
      && Books() && Owed()
    }

    /** `vsf_privop_pasv_listen`: nine tries, each on a fresh draw; a busy port is given back. */
    method PasvListen(tries: seq<Try>) returns (e: End, thePort: nat)
      requires |tries| == 9
      modifies this`listen, this`past
      ensures past == old(past).(balance := past.balance)
      ensures e == Trapped(ListenerActive) <==> old(listen).Some?
      ensures e == Trapped(ListenerActive) || e.Go? || e.BindFailed?
      ensures e.Go? ==> PrivSock.Allowed(old(HelperView()), PrivSock.PasvListen)
      ensures e.Go? <==> old(listen).None? && CanListen(tries)
      ensures e.Go? ==>
        exists k :: 0 <= k < 9 && FirstToListen(tries, k) && listen == Some(tries[k].sock) &&
          thePort == PassivePort.Port(256 * tries[k].hi + tries[k].lo, cfg.minPort, cfg.maxPort)
      ensures e.Go? ==> PassivePort.Low(cfg.minPort) <= thePort <= PassivePort.High(cfg.minPort, cfg.maxPort)
      ensures e.Go? && old(Books()) ==> Books()
    {
      thePort := 0;
      if listen.Some? {
        return Trapped(ListenerActive), thePort;
      }
      var i := 0;
      while i < 9
        invariant 0 <= i <= 9 && listen == None && (old(Books()) ==> Books())
        invariant past == old(past).(balance := past.balance)
        invariant forall j :: 0 <= j < i ==> Busy(tries[j])
      {
        var t := tries[i];
        thePort := DrawnPort(cfg, t);
        listen := Some(t.sock);
        past := past.(balance := past.balance + Is(Some(t.sock)));
        if t.bindOk && t.listenOk {
          assert FirstToListen(tries, i) && listen == Some(tries[i].sock);
          return Go, thePort;
        }
        if !t.busy {
          NoneListens(tries, i);
          return BindFailed, thePort;
        }
        past := past.(balance := past.balance - Is(Some(t.sock)));
        listen := None;
        i := i + 1;
      }
      return BindFailed, thePort;
    }

    /** `vsf_privop_get_ftp_port_sock`. */
    method GetFtpPortSock(c: Conn) returns (e: End, fd: Option<nat>)
      requires port.Some?
      modifies this`past
      ensures past == old(past).(balance := past.balance)
      ensures e == if listen.Some? then Trapped(ListenerActive)
        else if port.value.port < 1024 then IllegalPort else if !c.bound then BindFailed else Go
      ensures e.Go? ==> PrivSock.Allowed(HelperView(), PrivSock.GetDataSock(port.value.port))
      ensures e.Go? ==> (fd == if c.connected then Some(c.sock) else None)
      ensures e.Go? && fd.None? && old(Books()) ==> Books()
      ensures e.Go? && fd.Some? ==> past.balance == old(past.balance) + Is(fd)
    {
      past := past.(balance := past.balance + Is(Some(c.sock)));
      fd := None;
      if listen.Some? {
        return Trapped(ListenerActive), fd;
      }
      if Reserved(port.value.port) {
        return IllegalPort, fd;
      }
      if !c.bound {
        return BindFailed, fd;
      }
      if !c.connected {
        past := past.(balance := past.balance - Is(Some(c.sock)));
        return Go, fd;
      }
      return Go, Some(c.sock);
    }

    /** `vsf_privop_accept_pasv`: a stranger's connection is closed again. */
    method AcceptPasv(c: Conn) returns (e: End, fd: Option<nat>)
      modifies this`past
      ensures past == old(past).(balance := past.balance)
      ensures e == if listen.None? then Trapped(ListenerMissing) else Go
      ensures e.Go? ==> PrivSock.Allowed(HelperView(), PrivSock.PasvAccept)
      ensures e.Go? ==> (fd == if c.accepted.Some? && (cfg.pasvPromiscuous || c.samePeer) then c.accepted else None)
      ensures e.Go? && fd.None? && old(Books()) ==> Books()
      ensures e.Go? && fd.Some? ==> past.balance == old(past.balance) + Is(fd)
    {
      fd := None;
      if listen.None? {
        return Trapped(ListenerMissing), fd;
      }
      if c.accepted.None? {
        return Go, fd;
      }
      past := past.(balance := past.balance + Is(Some(c.accepted.value)));
      if !cfg.pasvPromiscuous && !c.samePeer {
        past := past.(balance := past.balance - Is(Some(c.accepted.value)));
        return Go, fd;
      }
      return Go, c.accepted;
    }

    /** `init_data_sock_params`, with the install of the I/O handler. */
    method InitDataSock(fd: nat) returns (e: End)
      modifies this`dataFd, this`ioHandler
      ensures e == if old(dataFd).Some? then Trapped(DataFdPresent)
        else if old(ioHandler) then Trapped(DoubleHandler) else Go
      ensures e.Go? ==> dataFd == Some(fd) && ioHandler
    {
      if dataFd.Some? {
        return Trapped(DataFdPresent);
      }
      dataFd := Some(fd);
      if ioHandler {
        return Trapped(DoubleHandler);
      }
      ioHandler := true;
      return Go;
    }

    /** `vsf_ftpdataio_post_mark_connect`, with the effect of `ssl_accept` on the data TLS handle. */
    method PostMarkConnect(c: Conn) returns (e: End, ok: bool)
      requires dataFd.Some?
      modifies this`dataSsl, this`slave, this`past
      ensures past == old(past).(finals := past.finals)
      ensures e == if dataUseSsl && !cfg.slaveActive && old(dataSsl) then Trapped(SslPresent)
        else if dataUseSsl && cfg.slaveActive && !old(slave).Closed? then Trapped(SlaveOutOfStep)
        else if !TlsOk(cfg, dataUseSsl, c) && cfg.requireReuse then Exit else Go
      ensures e.Go? ==> ok == TlsOk(cfg, dataUseSsl, c) && past.finals == old(past.finals) + (if ok then 0 else 1)
      ensures e.Go? ==> dataSsl == (old(dataSsl) || (dataUseSsl && !cfg.slaveActive && ok))
      ensures e.Go? ==>
        slave == if dataUseSsl && cfg.slaveActive then (if ok then PrivSock.Opened else PrivSock.Failed) else old(slave)
    {
      ok := true;
      if !dataUseSsl {
        return Go, ok;
      }
      if cfg.slaveActive {
        var request := PrivSock.Handshake(dataFd.value);
        if !PrivSock.Allowed(HelperView(), request) {
          return Trapped(SlaveOutOfStep), false;
        }
        ok := c.handshakeOk;
        slave := PrivSock.ViewAfter(HelperView(), request, PrivSock.Code(ok)).phase;
      } else {
        if dataSsl {
          return Trapped(SslPresent), false;
        }
        dataSsl := !c.ssl.NoHandshake?;
        if c.ssl.Rejected? {
          dataSsl := false;
        }
        ok := c.ssl.Accepted?;
      }
      if !ok {
        Reply();
        if cfg.requireReuse {
          return Exit, ok;
        }
      }
      return Go, ok;
    }

    /** The TLS part of closing: a close request to the slave, or `ssl_data_close`. */
    method CloseTls(c: Conn) returns (e: End, ok: bool)
      modifies this`dataSsl, this`slave
      ensures e == if dataUseSsl && cfg.slaveActive && old(slave).Closed? then Trapped(SlaveOutOfStep) else Go
      ensures e.Go? ==> slave == if dataUseSsl && cfg.slaveActive then PrivSock.Closed else old(slave)
      ensures e.Go? ==> dataSsl == (old(dataSsl) && dataUseSsl && cfg.slaveActive)
      ensures e.Go? ==> (ok <==> (old(dataSsl) || (dataUseSsl && cfg.slaveActive) ==> c.shutdownOk))
    {
      e, ok := Go, true;
      if dataUseSsl && cfg.slaveActive {
        if !PrivSock.Allowed(HelperView(), PrivSock.Close) {
          return Trapped(SlaveOutOfStep), ok;
        }
        ok := c.shutdownOk;
        slave := PrivSock.ViewAfter(HelperView(), PrivSock.Close, PrivSock.Code(ok)).phase;
      } else if dataSsl {
        ok := c.shutdownOk;
        dataSsl := false;
      }
    }

    /** `vsf_ftpdataio_dispose_transfer_fd`. */
    method Dispose(c: Conn) returns (e: End, ok: bool)
      modifies this`dataFd, this`ioHandler, this`dataSsl, this`slave, this`aborReceived, this`dataTimeout, this`past
      ensures past == old(past).(balance := past.balance, noted := past.noted)
      ensures e == if old(dataFd).None? then Trapped(NoDataFd) else if !old(ioHandler) then Trapped(NoHandler)
        else if dataUseSsl && cfg.slaveActive && old(slave).Closed? then Trapped(SlaveOutOfStep) else Go
      ensures e.Go? ==> slave == if dataUseSsl && cfg.slaveActive then PrivSock.Closed else old(slave)
      ensures e.Go? ==> dataFd == None && !ioHandler && (old(Books()) ==> Books())
      ensures e.Go? ==> dataSsl == (old(dataSsl) && dataUseSsl && cfg.slaveActive)
      ensures e.Go? ==> aborReceived == (old(aborReceived) || (c.closing.abor && Hears(cfg)))
      ensures e.Go? ==> dataTimeout == (old(dataTimeout) || c.closing.timeout) && (old(Owed()) ==> Owed())
      ensures e.Go? ==>
        (ok <==> (old(dataSsl) || (dataUseSsl && cfg.slaveActive) ==> c.shutdownOk) && !aborReceived && !dataTimeout)
    {
      ok := true;
      if dataFd.None? {
        return Trapped(NoDataFd), ok;
      }
      if !ioHandler {
        return Trapped(NoHandler), ok;
      }
      ioHandler := false;
      e, ok := CloseTls(c);
      if !e.Go? {
        return;
      }
      Deliver(c.closing);
      past := past.(balance := past.balance - Is(Some(dataFd.value)));
      dataFd := None;
      if aborReceived || dataTimeout {
        ok := false;
      }
      return Go, ok;
    }

    /** `vsf_ftpdataio_get_pasv_fd` and `vsf_ftpdataio_get_port_fd`. */
    method OpenData(passive: bool, c: Conn) returns (e: End, fd: Option<nat>)
      requires passive == listen.Some? && (passive || port.Some?) && NoConnection()
      modifies this`dataFd, this`ioHandler, this`past
      ensures past == old(past).(balance := past.balance, finals := past.finals)
      ensures e == if passive then Go
        else if Reserved(port.value.port) then IllegalPort else if !c.bound then BindFailed else Go
      ensures e.Go? ==> (fd.Some? <==> Reachable(cfg, passive, c))
      ensures e.Go? && fd.None? ==> NoConnection() && past.finals == old(past.finals) + 1
      ensures e.Go? && fd.Some? ==> dataFd == fd
      ensures e.Go? && fd.Some? ==> fd.value == Peer(c)
      ensures e.Go? && fd.Some? ==> ioHandler
      ensures e.Go? && fd.Some? ==> Books()
      ensures e.Go? && fd.Some? ==> past.finals == old(past.finals)
    {
      if passive {
        e, fd := AcceptPasv(c);
      } else {
        e, fd := GetFtpPortSock(c);
      }
      if !e.Go? {
        return;
      }
      if fd.None? {
        Reply();
      } else {
        e := InitDataSock(fd.value);
      }
    }

    /** The TLS handshake on an open descriptor; when it fails the descriptor goes. No ABOR is heard then. */
    method Secure(c: Conn) returns (e: End, ok: bool)
      requires dataFd.Some? && ioHandler && !dataSsl && slave.Closed? && !(port.Some? && listen.Some?)
      requires Books() && Owed() && !aborReceived
      modifies this`dataFd, this`ioHandler, this`dataSsl, this`slave, this`aborReceived, this`dataTimeout, this`past
      ensures past == old(past).(balance := past.balance, finals := past.finals, noted := past.noted)
      ensures e == if !TlsOk(cfg, dataUseSsl, c) && cfg.requireReuse then Exit else Go
      ensures e.Go? ==> ok == TlsOk(cfg, dataUseSsl, c) && past.finals == old(past.finals) + (if ok then 0 else 1)
      ensures e.Go? && ok ==> dataFd == old(dataFd) && Connected(dataFd.value)
      ensures e.Go? && ok ==> aborReceived == (c.during.abor && Hears(cfg))
      ensures e.Go? && ok ==> dataTimeout == (old(dataTimeout) || c.during.timeout)
      ensures e.Go? && !ok ==> NoConnection() && !aborReceived && dataTimeout == (old(dataTimeout) || Late(c))
    {
      Deliver(c.during);
      e, ok := PostMarkConnect(c);
      if e.Go? && !ok {
        var closed;
        e, closed := Dispose(c);
      }
    }

    /** `get_remote_transfer_fd`. */
    method GetRemoteTransferFd(c: Conn) returns (e: End, fd: Option<nat>)
      requires NoConnection() && !aborReceived
      modifies this`dataFd, this`ioHandler, this`dataSsl, this`slave, this`aborReceived, this`dataTimeout, this`past
      ensures past == old(past).(balance := past.balance, attempts := past.attempts, finals := past.finals,
        noted := past.noted)
      ensures e == Outcome(c)
      ensures e.Go? ==> past.attempts == old(past.attempts) + 1
      ensures e.Go? ==> (fd.Some? <==> Reachable(cfg, listen.Some?, c) && TlsOk(cfg, dataUseSsl, c))
      ensures e.Go? && fd.Some? ==> Connected(fd.value) && fd.value == Peer(c) && past.finals == old(past.finals)
      ensures e.Go? && fd.Some? ==> aborReceived == (c.during.abor && Hears(cfg))
      ensures e.Go? && fd.Some? ==> dataTimeout == (old(dataTimeout) || c.during.timeout)
      ensures e.Go? && fd.None? ==> NoConnection() && !aborReceived && past.finals == old(past.finals) + 1
      ensures e.Go? && fd.None? ==> dataTimeout == (old(dataTimeout) || (Reachable(cfg, listen.Some?, c) && Late(c)))
    {
      if !PasvActive() && !PortActive() {
        return Trapped(NeitherActive), None;
      }
      past := past.(attempts := past.attempts + 1);
      aborReceived := false;
      e, fd := OpenData(PasvActive(), c);
      if e.Go? && fd.Some? {
        var ok;
        e, ok := Secure(c);
        fd := if ok then fd else None;
      }
    }

    /** The connection leads to the address of the client. */
    ghost predicate Own(c: Conn)
      reads this`port, this`listen
    {
      if listen.Some? then c.samePeer else port.Some? && port.value.ip == cfg.remoteIp
    }

    /** There is a TLS handle for the data connection, here or in the slave. */
    ghost predicate Encrypted()
      reads this`dataSsl, this`slave
    {
      dataSsl || slave.Opened?
    }

    /** The descriptor of a connection that succeeds. */
    ghost function Peer(c: Conn): nat
      reads this`listen
    {
      if listen.Some? && c.accepted.Some? then c.accepted.value else c.sock
    }

    /** How an attempt at a data connection ends. */
    ghost function Outcome(c: Conn): End
      reads this`port, this`listen, this`dataUseSsl
    {
      if port.None? && listen.None? then Trapped(NeitherActive)
      else if listen.None? && Reserved(port.value.port) then IllegalPort
      else if listen.None? && !c.bound then BindFailed
      else if Reachable(cfg, listen.Some?, c) && !TlsOk(cfg, dataUseSsl, c) && cfg.requireReuse then Exit
      else Go
    }

    // -- The handlers --------------------------------------------------------------

    /** `data_transfer_checks_ok`, without its replies. */
    ghost predicate Ready()
      reads this`port, this`listen, this`dataUseSsl
    {
      (port.Some? || listen.Some?) && (cfg.forceDataSsl ==> dataUseSsl)
    }

    method TransferChecks() returns (ok: bool)
      requires !(port.Some? && listen.Some?)
      modifies this`past
      ensures past == old(past).(finals := past.finals)
      ensures ok <==> (port.Some? || listen.Some?) && (cfg.forceDataSsl ==> dataUseSsl)
      ensures past.finals == old(past.finals) + (if ok then 0 else 1)
    {
      if !PasvActive() && !PortActive() {
        Reply();
        return false;
      }
      if cfg.forceDataSsl && !dataUseSsl {
        Reply();
        return false;
      }
      return true;
    }

    /** Away with the old set-up, and a new listener. */
    method OpenListener(tries: seq<Try>) returns (e: End)
      requires |tries| == 9 && Books()
      modifies this`port, this`listen, this`past
      ensures past == old(past).(balance := past.balance, setups := past.setups)
      ensures e == if CanListen(tries) then Go else BindFailed
      ensures e.Go? ==> port == None && listen.Some? && Books() && past.setups == old(past.setups) + 1
    {
      PasvCleanup();
      PortCleanup();
      var thePort;
      e, thePort := PasvListen(tries);
      if e.Go? {
        past := past.(setups := past.setups + 1);
      }
    }

    /** `handle_pasv`; PASV has no argument. */
    method HandlePasv(epsv: bool, arg: EpsvArg, tries: seq<Try>) returns (e: End)
      requires AtLoopHead() && Armed() && |tries| == 9
      modifies this`port, this`listen, this`epsvAll, this`past
      ensures past == old(past).(balance := past.balance, setups := past.setups, finals := past.finals)
      ensures e == if !(epsv && Declines(cfg, arg)) && !CanListen(tries) then BindFailed
        else if !epsv && cfg.badPasvAddress then BadPasvAddress else Go
      ensures e.Go? ==> AtLoopHead() && Armed() && past.finals == old(past.finals) + 1
      ensures e.Go? && epsv && Declines(cfg, arg) ==> port == old(port) && listen == old(listen)
      ensures e.Go? && !(epsv && Declines(cfg, arg)) ==> port == None && listen.Some?
      ensures epsvAll == (old(epsvAll) || (epsv && arg.All?))
    {
      if epsv && !arg.NoArg? {
        if arg.All? {
          epsvAll := true;
          Reply();
          return Go;
        }
        if arg.n < 1 || arg.n > 2 || (!cfg.ipv6 && arg.n == 2) {
          Reply();
          return Go;
        }
      }
      e := OpenListener(tries);
      if !e.Go? {
        return;
      }
      if !epsv && cfg.badPasvAddress {
        return BadPasvAddress;
      }
      Reply();
    }

    /** `handle_port` and `handle_eprt`, given what the argument parsed to. */
    method HandlePort(target: Option<Address>)
      requires AtLoopHead() && Armed()
      modifies this`port, this`listen, this`past
      ensures past == old(past).(balance := past.balance, setups := past.setups, finals := past.finals)
      ensures AtLoopHead() && Armed() && past.finals == old(past.finals) + 1 && listen == None
      ensures port == if target.Some? &&
        (cfg.promiscuous || (target.value.ip == cfg.remoteIp && target.value.port >= 1024)) then target else None
    {
      PasvCleanup();
      PortCleanup();
      if target.None? {
        Reply();
        return;
      }
      port := target;
      if !cfg.promiscuous {
        if cfg.remoteIp != target.value.ip || Reserved(target.value.port) {
          Reply();
          PortCleanup();
          return;
        }
      }
      past := past.(setups := past.setups + 1);
      Reply();
    }

    /** A download gets as far as asking for a data connection. */
    ghost predicate RetrAsks(allowed: bool, found: bool)
      reads this`port, this`listen, this`dataUseSsl, this`isAscii, this`restartPos
    {
      RetrLogs() && allowed && found
    }

    /** A download gets as far as starting a log entry. */
    ghost predicate RetrLogs()
      reads this`port, this`listen, this`dataUseSsl, this`isAscii, this`restartPos
    {
      Ready() && !(isAscii && restartPos != 0)
    }

    /** The connection comes up. */
    ghost predicate Connects(c: Conn)
      reads this`listen, this`dataUseSsl
    {
      Reachable(cfg, listen.Some?, c) && TlsOk(cfg, dataUseSsl, c)
    }

    /** The connection is closed without a failure, an ABOR or a timeout. */
    ghost predicate Clean(c: Conn)
      reads this`dataUseSsl
    {
      (dataUseSsl ==> c.shutdownOk) && !Aborted(cfg, c) && !Late(c)
    }

    /** The transfer that is made when the connection comes up. */
    ghost function OneTransfer(kind: LogKind, c: Conn, offset: nat): seq<Transfer>
      reads this`port, this`listen, this`dataUseSsl, this`isAscii
    {
      var ascii := isAscii && if kind.Download? then cfg.asciiDownload else cfg.asciiUpload;
      if Connects(c) then [Transfer(kind, Peer(c), offset, ascii, dataUseSsl, Own(c))] else []
    }

    /** The connection on `fd` is up, and `t` is the transfer it is for. */
    ghost predicate Used(t: Transfer, fd: nat, c: Conn)
      reads this
    {
      && Connected(fd) && t.fd == fd && t.encrypted == Encrypted()
      && aborReceived == (c.during.abor && Hears(cfg)) && dataTimeout == c.during.timeout
    }

    /** Use an open data connection for a file and close it. */
    method Transmit(ghost t: Transfer, fd: nat, c: Conn, result: int) returns (r: int)
      requires Used(t, fd, c)
      modifies this`dataFd, this`ioHandler, this`dataSsl, this`slave, this`aborReceived, this`dataTimeout, this`past
      ensures past == old(past).(balance := past.balance, transfers := past.transfers, noted := past.noted)
      ensures NoConnection() && past.transfers == old(past.transfers) + [t]
      ensures r == if result == 0 && !Clean(c) then -2 else result
      ensures aborReceived == Aborted(cfg, c) && dataTimeout == Late(c)
    {
      past := past.(transfers := past.transfers + [t]);
      r := Finish(c, result);
    }

    /** Close a data connection that was used. */
    method Finish(c: Conn, result: int) returns (r: int)
      requires dataFd.Some? && Connected(dataFd.value) && aborReceived == (c.during.abor && Hears(cfg))
      requires dataTimeout == c.during.timeout
      modifies this`dataFd, this`ioHandler, this`dataSsl, this`slave, this`aborReceived, this`dataTimeout, this`past
      ensures past == old(past).(balance := past.balance, noted := past.noted)
      ensures NoConnection()
      ensures r == if result == 0 && !Clean(c) then -2 else result
      ensures aborReceived == Aborted(cfg, c) && dataTimeout == Late(c)
    {
      var e, ok := Dispose(c);
      r := if !ok && result == 0 then -2 else result;
    }

    /** The replies that end a transfer: the timer answers for itself at the end of the loop. */
    method Report(r: int)
      modifies this`aborReceived, this`past
      ensures past == old(past).(finals := past.finals, abors := past.abors)
      ensures past.finals - past.abors == old(past.finals - past.abors) + (if r != -2 || !dataTimeout then 1 else 0)
      ensures past.abors == old(past.abors) + (if old(aborReceived) then 1 else 0) && !aborReceived
      ensures old(Owed()) ==> Owed()
    {
      if r != -2 || !dataTimeout {
        Reply();
      }
      CheckAbor();
    }

    /** The transfer of a download on an open connection, its log line and its replies. */
    method SendFile(ghost t: Transfer, fd: nat, c: Conn, result: int)
      requires Used(t, fd, c)
      requires log == Some(Download)
      modifies this`dataFd, this`ioHandler, this`dataSsl, this`slave, this`aborReceived, this`dataTimeout, this`log,
        this`past
      ensures past.entries == old(past.entries) && past.setups == old(past.setups)
      ensures past.attempts == old(past.attempts)
      ensures NoConnection() && !aborReceived && past.transfers == old(past.transfers) + [t]
      ensures dataTimeout || past.finals - past.abors == old(past.finals - past.abors) + 1
      ensures dataTimeout == Late(c) && past.abors == old(past.abors) + (if Aborted(cfg, c) then 1 else 0)
      ensures Clean(c) && result == 0 ==> log == None && past.lines == old(past.lines) + [LogLine(Download, true)]
      ensures !(Clean(c) && result == 0) ==> log == old(log) && past.lines == old(past.lines)
    {
      var r := Transmit(t, fd, c, result);
      if r == 0 {
        DoLog(true);
      }
      Report(r);
    }

    /** A download from the point where it asks for its connection. */
    method DownloadOver(c: Conn, offset: nat, result: int) returns (e: End)
      requires NoConnection() && Armed() && (port.Some? || listen.Some?) && !dataTimeout && !aborReceived
      requires log == Some(Download)
      modifies this`port, this`listen, this`dataFd, this`ioHandler, this`dataSsl, this`slave, this`aborReceived,
        this`dataTimeout, this`log, this`past
      ensures past.entries == old(past.entries) && past.setups == old(past.setups)
      ensures e == old(Outcome(c))
      ensures e.Go? ==> NoConnection() && !aborReceived && Armed() && port == None && listen == None
      ensures e.Go? ==> dataTimeout == (old(Reachable(cfg, listen.Some?, c)) && Late(c))
      ensures e.Go? ==> past.abors == old(past.abors) + (if old(Connects(c)) && Aborted(cfg, c) then 1 else 0)
      ensures e.Go? && !dataTimeout ==> past.finals - past.abors == old(past.finals - past.abors) + 1
      ensures e.Go? ==> past.transfers == old(past.transfers) + old(OneTransfer(Download, c, offset))
      ensures e.Go? ==> AllLines() == old(past.lines) + [LogLine(Download, old(Connects(c)) && Clean(c) && result == 0)]
    {
      var fd;
      ghost var sent := OneTransfer(Download, c, offset);
      e, fd := GetRemoteTransferFd(c);
      if !e.Go? {
        return;
      }
      if fd.Some? {
        ghost var t := Transfer(Download, fd.value, offset, cfg.asciiDownload && isAscii, Encrypted(), Own(c));
        assert sent == [t];
        SendFile(t, fd.value, c, result);
      }
      Disarm();
    }

    /** A download up to its log entry: the restart position is used up in any case. */
    method BeginRetr() returns (goes: bool, offset: nat)
      requires !(port.Some? && listen.Some?) && log == None
      modifies this`restartPos, this`log, this`past
      ensures past == old(past).(entries := past.entries, finals := past.finals)
      ensures goes == old(RetrLogs()) && offset == old(restartPos) && restartPos == 0
      ensures goes ==> log == Some(Download)
      ensures goes ==> past.entries == old(past.entries) + [Download]
      ensures goes ==> past.finals == old(past.finals)
      ensures !goes ==> log == None && past.entries == old(past.entries) && past.finals == old(past.finals) + 1
    {
      offset := restartPos;
      restartPos := 0;
      goes := TransferChecks();
      if goes && isAscii && offset != 0 {
        Reply();
        goes := false;
      }
      if goes {
        var e := StartEntry(Download);
      }
    }

    /** `handle_retr`. */
    method HandleRetr(i: Input) returns (e: End)
      requires i.Retr? && AtLoopHead() && Armed() && !dataTimeout
      modifies this`port, this`listen, this`dataFd, this`ioHandler, this`dataSsl, this`slave, this`aborReceived,
        this`restartPos, this`dataTimeout, this`log, this`past
      ensures past.setups == old(past.setups)
      ensures e == old(EndOf(i))
      ensures e.Go? ==> NoConnection() && !aborReceived && Armed() && uploadFd == None
      ensures e.Go? ==> dataTimeout == old(TimesOut(i)) && past.abors == old(past.abors) + old(AborsOf(i))
      ensures e.Go? && !dataTimeout ==> past.finals - past.abors == old(past.finals - past.abors) + 1
      ensures e.Go? ==> AllLines() == old(past.lines) + old(LogOf(i))
      ensures e.Go? ==> past.entries == old(past.entries) + Kinds(old(LogOf(i)))
      ensures e.Go? ==> past.transfers == old(past.transfers) + old(TransfersOf(i))
      ensures e.Go? ==> port == old(PortAfter(i)) && listen.Some? == old(ListenAfter(i))
      ensures e.Go? ==> restartPos == 0
    {
      var goes, offset := BeginRetr();
      if !goes {
        return Go;
      }
      if !i.allowed || !i.found {
        Reply();
        return Go;
      }
      e := DownloadOver(i.conn, offset, i.result);
    }

    /** An upload up to its log entry. */
    method BeginStor() returns (goes: bool, offset: nat)
      requires !(port.Some? && listen.Some?) && log == None
      modifies this`restartPos, this`log, this`past
      ensures past == old(past).(entries := past.entries, finals := past.finals)
      ensures goes == Ready() && offset == old(restartPos) && restartPos == 0
      ensures goes ==> log == Some(Upload)
      ensures goes ==> past.entries == old(past.entries) + [Upload]
      ensures goes ==> past.finals == old(past.finals)
      ensures !goes ==> log == None && past.entries == old(past.entries) && past.finals == old(past.finals) + 1
    {
      offset := restartPos;
      restartPos := 0;
      goes := TransferChecks();
      if goes {
        var e := StartEntry(Upload);
      }
    }

    /** The transfer of an upload on an open connection, its log line and its replies. The data goes on
        to the store only when all of it arrived, and only then is the upload a success. */
    method ReceiveFile(ghost t: Transfer, fd: nat, c: Conn, result: int, stored: bool)
      requires Used(t, fd, c)
      requires log == Some(Upload)
      modifies this`dataFd, this`ioHandler, this`dataSsl, this`slave, this`aborReceived, this`dataTimeout, this`log,
        this`port, this`past
      ensures past.entries == old(past.entries) && past.setups == old(past.setups)
      ensures past.attempts == old(past.attempts)
      ensures NoConnection() && !aborReceived && past.transfers == old(past.transfers) + [t]
      ensures (port == old(port) || port == None)
      ensures dataTimeout || past.finals - past.abors == old(past.finals - past.abors) + 1
      ensures dataTimeout == Late(c) && past.abors == old(past.abors) + (if Aborted(cfg, c) then 1 else 0)
      ensures Clean(c) && result == 0 && stored ==> log == None
      ensures Clean(c) && result == 0 && stored ==> past.lines == old(past.lines) + [LogLine(Upload, true)]
      ensures !(Clean(c) && result == 0 && stored) ==> log == old(log) && past.lines == old(past.lines)
    {
      var r := Transmit(t, fd, c, result);
      if r == 0 {
        PortCleanup();
        if stored {
          DoLog(true);
        }
      }
      Report(r);
    }

    /** The connected part of an upload: the listener goes before the transfer, and is not cleaned up
        again. */
    method UploadConnected(ghost t: Transfer, fd: nat, c: Conn, result: int, stored: bool)
      requires Used(t, fd, c)
      requires log == Some(Upload)
      modifies this`dataFd, this`ioHandler, this`dataSsl, this`slave, this`aborReceived, this`dataTimeout, this`log,
        this`port, this`listen, this`past
      ensures past.entries == old(past.entries) && past.setups == old(past.setups)
      ensures past.attempts == old(past.attempts)
      ensures NoConnection() && !aborReceived && past.transfers == old(past.transfers) + [t] && port == None
      ensures listen == None
      ensures dataTimeout || past.finals - past.abors == old(past.finals - past.abors) + 1
      ensures dataTimeout == Late(c) && past.abors == old(past.abors) + (if Aborted(cfg, c) then 1 else 0)
      ensures Clean(c) && result == 0 && stored ==> log == None
      ensures Clean(c) && result == 0 && stored ==> past.lines == old(past.lines) + [LogLine(Upload, true)]
      ensures !(Clean(c) && result == 0 && stored) ==> log == old(log) && past.lines == old(past.lines)
    {
      PasvCleanup();
      ReceiveFile(t, fd, c, result, stored);
      PortCleanup();
    }

    /** An upload from the point where it asks for its connection. */
    method UploadOver(c: Conn, offset: nat, result: int, stored: bool) returns (e: End)
      requires NoConnection() && Armed() && (port.Some? || listen.Some?) && !dataTimeout && !aborReceived
      requires log == Some(Upload)
      modifies this`port, this`listen, this`dataFd, this`ioHandler, this`dataSsl, this`slave, this`aborReceived,
        this`dataTimeout, this`log, this`past
      ensures past.entries == old(past.entries) && past.setups == old(past.setups)
      ensures e == old(Outcome(c))
      ensures e.Go? ==> NoConnection() && !aborReceived && Armed() && port == None && listen == None
      ensures e.Go? ==> dataTimeout == (old(Reachable(cfg, listen.Some?, c)) && Late(c))
      ensures e.Go? ==> past.abors == old(past.abors) + (if old(Connects(c)) && Aborted(cfg, c) then 1 else 0)
      ensures e.Go? && !dataTimeout ==> past.finals - past.abors == old(past.finals - past.abors) + 1
      ensures e.Go? ==> past.transfers == old(past.transfers) + old(OneTransfer(Upload, c, offset))
      ensures e.Go? ==>
        AllLines() == old(past.lines) + [LogLine(Upload, old(Connects(c)) && Clean(c) && result == 0 && stored)]
    {
      var fd;
      ghost var sent := OneTransfer(Upload, c, offset);
      e, fd := GetRemoteTransferFd(c);
      if !e.Go? {
        return;
      }
      if fd.Some? {
        ghost var t := Transfer(Upload, fd.value, offset, cfg.asciiUpload && isAscii, Encrypted(), Own(c));
        assert sent == [t];
        UploadConnected(t, fd.value, c, result, stored);
      } else {
        Disarm();
      }
    }

    method OpenFile(file: nat)
      requires uploadFd == None
      modifies this`uploadFd, this`past
      ensures past == old(past).(balance := past.balance)
      ensures uploadFd == Some(file) && (old(Books()) ==> Books())
    {
      uploadFd := Some(file);
      past := past.(balance := past.balance + Is(uploadFd));
    }

    method CloseFile()
      modifies this`uploadFd, this`past
      ensures past == old(past).(balance := past.balance)
      ensures uploadFd == None && (old(Books()) ==> Books())
    {
      past := past.(balance := past.balance - Is(uploadFd));
      uploadFd := None;
    }

    /** The upload with its local file open. */
    method WithFile(file: nat, locked: bool, inBounds: bool, c: Conn, offset: nat, result: int, stored: bool)
      returns (e: End)
      requires NoConnection() && Armed() && (port.Some? || listen.Some?) && !dataTimeout && !aborReceived
      requires log == Some(Upload) && uploadFd == None
      modifies this`port, this`listen, this`dataFd, this`uploadFd, this`ioHandler, this`dataSsl, this`slave,
        this`aborReceived, this`dataTimeout, this`log, this`past
      ensures past.entries == old(past.entries) && past.setups == old(past.setups)
      ensures e == if Uploadable(locked, inBounds, offset) then old(Outcome(c)) else Go
      ensures e.Go? ==> NoConnection() && !aborReceived && Armed() && port == None && listen == None && uploadFd == None
      ensures e.Go? ==>
        dataTimeout == (Uploadable(locked, inBounds, offset) && old(Reachable(cfg, listen.Some?, c)) && Late(c))
      ensures e.Go? && Uploadable(locked, inBounds, offset) && old(Connects(c)) && Aborted(cfg, c) ==>
        past.abors == old(past.abors) + 1
      ensures e.Go? && !(Uploadable(locked, inBounds, offset) && old(Connects(c)) && Aborted(cfg, c)) ==>
        past.abors == old(past.abors)
      ensures e.Go? && !dataTimeout ==> past.finals - past.abors == old(past.finals - past.abors) + 1
      ensures e.Go? ==>
        var sent := if Uploadable(locked, inBounds, offset) then old(OneTransfer(Upload, c, offset)) else [];
        past.transfers == old(past.transfers) + sent
      ensures e.Go? ==>
        var ok := Uploadable(locked, inBounds, offset) && old(Connects(c)) && Clean(c) && result == 0 && stored;
        AllLines() == old(past.lines) + [LogLine(Upload, ok)]
    {
      OpenFile(file);
      if !Uploadable(locked, inBounds, offset) {
        Reply();
        Disarm();
        e := Go;
      } else {
        e := UploadOver(c, offset, result, stored);
        if !e.Go? {
          return;
        }
      }
      CloseFile();
    }

    /** An upload after its log entry was begun. */
    method StoreAt(i: Input, offset: nat) returns (e: End)
      requires i.Stor? && NoConnection() && Armed() && Ready() && !dataTimeout && !aborReceived
      requires log == Some(Upload) && uploadFd == None
      modifies this`port, this`listen, this`dataFd, this`uploadFd, this`ioHandler, this`dataSsl, this`slave,
        this`aborReceived, this`dataTimeout, this`log, this`past
      ensures past.entries == old(past.entries) && past.setups == old(past.setups)
      ensures e == if StoreAsks(i, offset) then old(Outcome(i.conn)) else Go
      ensures e.Go? ==> NoConnection() && !aborReceived && Armed() && uploadFd == None
      ensures e.Go? ==>
        dataTimeout == (StoreAsks(i, offset) && old(Reachable(cfg, listen.Some?, i.conn)) && Late(i.conn))
      ensures e.Go? && StoreAsks(i, offset) && old(Connects(i.conn)) && Aborted(cfg, i.conn) ==>
        past.abors == old(past.abors) + 1
      ensures e.Go? && !(StoreAsks(i, offset) && old(Connects(i.conn)) && Aborted(cfg, i.conn)) ==>
        past.abors == old(past.abors)
      ensures e.Go? && !dataTimeout ==> past.finals - past.abors == old(past.finals - past.abors) + 1
      ensures e.Go? ==>
        var sent := if StoreAsks(i, offset) then old(OneTransfer(Upload, i.conn, offset)) else [];
        past.transfers == old(past.transfers) + sent
      ensures e.Go? ==>
        var ok := StoreAsks(i, offset) && old(Connects(i.conn)) && Clean(i.conn) && i.result == 0 && i.stored;
        AllLines() == old(past.lines) + [LogLine(Upload, ok)]
      ensures e.Go? ==> port == (if i.allowed && i.file.Some? then None else old(port))
      ensures e.Go? ==> listen == (if i.allowed && i.file.Some? then None else old(listen))
    {
      if !i.allowed || i.file.None? {
        Reply();
        return Go;
      }
      e := WithFile(i.file.value, i.locked, i.inBounds, i.conn, offset, i.result, i.stored);
    }

    /** `handle_upload_common`, as STOR calls it. */
    method HandleStor(i: Input) returns (e: End)
      requires i.Stor? && AtLoopHead() && Armed() && !dataTimeout
      modifies this`port, this`listen, this`dataFd, this`uploadFd, this`ioHandler, this`dataSsl, this`slave,
        this`aborReceived, this`restartPos, this`dataTimeout, this`log, this`past
      ensures past.setups == old(past.setups)
      ensures e == old(EndOf(i))
      ensures e.Go? ==> NoConnection() && !aborReceived && Armed() && uploadFd == None
      ensures e.Go? ==> dataTimeout == old(TimesOut(i)) && past.abors == old(past.abors) + old(AborsOf(i))
      ensures e.Go? && !dataTimeout ==> past.finals - past.abors == old(past.finals - past.abors) + 1
      ensures e.Go? ==> AllLines() == old(past.lines) + old(LogOf(i))
      ensures e.Go? ==> past.entries == old(past.entries) + Kinds(old(LogOf(i)))
      ensures e.Go? ==> past.transfers == old(past.transfers) + old(TransfersOf(i))
      ensures e.Go? ==> port == old(PortAfter(i)) && listen.Some? == old(ListenAfter(i))
      ensures e.Go? ==> restartPos == 0
    {
      var goes, offset := BeginStor();
      if goes {
        e := StoreAt(i, offset);
      } else {
        e := Go;
      }
    }

    /** A listing over the data connection. */
    method ListData(c: Conn, result: int) returns (e: End)
      requires NoConnection() && Armed() && (port.Some? || listen.Some?) && !dataTimeout && !aborReceived
      modifies this`port, this`listen, this`dataFd, this`ioHandler, this`dataSsl, this`slave, this`aborReceived,
        this`dataTimeout, this`past
      ensures past.entries == old(past.entries) && past.lines == old(past.lines)
      ensures past.transfers == old(past.transfers) && past.setups == old(past.setups)
      ensures e == old(Outcome(c))
      ensures e.Go? ==> NoConnection() && !aborReceived && Armed() && port == None && listen == None
      ensures e.Go? ==> dataTimeout == (old(Reachable(cfg, listen.Some?, c)) && Late(c))
      ensures e.Go? ==> past.abors == old(past.abors) + (if old(Connects(c)) && Aborted(cfg, c) then 1 else 0)
      ensures e.Go? && !dataTimeout ==> past.finals - past.abors == old(past.finals - past.abors) + 1
    {
      var fd;
      e, fd := GetRemoteTransferFd(c);
      if !e.Go? {
        return;
      }
      if fd.Some? {
        var r := Finish(c, result);
        Report(if r != 0 then -2 else r);
      }
      Disarm();
    }

    /** `handle_dir_common`: LIST and NLST use a data connection, STAT the control connection. */
    method HandleDir(i: Input) returns (e: End)
      requires i.Dir? && AtLoopHead() && Armed() && !dataTimeout
      modifies this`port, this`listen, this`dataFd, this`ioHandler, this`dataSsl, this`slave, this`aborReceived,
        this`dataTimeout, this`past
      ensures past.entries == old(past.entries) && past.lines == old(past.lines)
      ensures past.transfers == old(past.transfers) && past.setups == old(past.setups)
      ensures e == old(EndOf(i))
      ensures e.Go? ==> NoConnection() && !aborReceived && Armed() && uploadFd == None
      ensures e.Go? ==> dataTimeout == old(TimesOut(i)) && past.abors == old(past.abors) + old(AborsOf(i))
      ensures e.Go? && !dataTimeout ==> past.finals - past.abors == old(past.finals - past.abors) + 1
      ensures e.Go? ==> AllLines() == old(past.lines) + old(LogOf(i))
      ensures e.Go? ==> past.entries == old(past.entries) + Kinds(old(LogOf(i)))
      ensures e.Go? ==> past.transfers == old(past.transfers) + old(TransfersOf(i))
      ensures e.Go? ==> port == old(PortAfter(i)) && listen.Some? == old(ListenAfter(i))
    {
      if !i.stat {
        var ok := TransferChecks();
        if !ok {
          return Go;
        }
      }
      if !i.allowed {
        Reply();
        return Go;
      }
      if i.stat {
        Report(0);
        return Go;
      }
      e := ListData(i.conn, i.result);
    }

    /** MKD, RMD and DELE: a log entry that is written at once only on success. */
    method HandleChange(kind: LogKind, ok: bool) returns (e: End)
      requires log == None
      modifies this`log, this`past
      ensures past == old(past).(entries := past.entries, lines := past.lines, finals := past.finals)
      ensures e.Go? && past.finals == old(past.finals) + 1 && past.entries == old(past.entries) + [kind]
      ensures past.lines == old(past.lines) + (if ok then [LogLine(kind, true)] else [])
      ensures log == if ok then None else Some(kind)
    {
      e := StartEntry(kind);
      if ok {
        DoLog(true);
      }
      Reply();
    }

    // -- The command loop ----------------------------------------------------------

    /** The command asks for a data connection. */
    ghost predicate Asks(i: Input)
      reads this`port, this`listen, this`dataUseSsl, this`isAscii, this`restartPos
    {
      match i
      case Retr(allowed, found, _, _) => RetrAsks(allowed, found)
      case Stor(_, _, _, _, _, _, _) => Ready() && StoreAsks(i, restartPos)
      case Dir(stat, allowed, _, _) => !stat && allowed && Ready()
      case _ => false
    }

    /** The log lines of a command. */
    ghost function LogOf(i: Input): seq<LogLine>
      reads this`port, this`listen, this`dataUseSsl, this`isAscii, this`restartPos
    {
      match i
      case Retr(_, _, c, result) =>
        if RetrLogs() then [LogLine(Download, Asks(i) && Connects(c) && Clean(c) && result == 0)] else []
      case Stor(_, _, _, _, c, result, stored) =>
        if Ready() then [LogLine(Upload, Asks(i) && Connects(c) && Clean(c) && result == 0 && stored)] else []
      case Change(kind, ok) => [LogLine(kind, ok)]
      case _ => []
    }

    /** The data timer runs out. */
    ghost predicate TimesOut(i: Input)
      reads this`port, this`listen, this`dataUseSsl, this`isAscii, this`restartPos
    {
      MayTransfer(i) && Asks(i) && Reachable(cfg, listen.Some?, i.conn) && Late(i.conn)
    }

    /** The replies to an ABOR: one for a connection during which it arrived. */
    ghost function AborsOf(i: Input): nat
      reads this`port, this`listen, this`dataUseSsl, this`isAscii, this`restartPos
    {
      if MayTransfer(i) && Asks(i) && Connects(i.conn) && Aborted(cfg, i.conn) then 1 else 0
    }

    /** The file transfer of a command. */
    ghost function TransfersOf(i: Input): seq<Transfer>
      reads this`port, this`listen, this`dataUseSsl, this`isAscii, this`restartPos
    {
      if i.Retr? && Asks(i) then OneTransfer(Download, i.conn, restartPos)
      else if i.Stor? && Asks(i) then OneTransfer(Upload, i.conn, restartPos)
      else []
    }

    lemma TransfersLawful(i: Input)
      requires Armed() && Owed()
      ensures forall t :: t in TransfersOf(i) ==> Lawful(cfg, t)
    {
    }

    /** How the handler of a command ends. */
    ghost function EndOf(i: Input): End
      reads this`port, this`listen, this`dataUseSsl, this`isAscii, this`restartPos, this`epsvAll
    {
      match i
      case Pasv(tries) =>
        if epsvAll then Go
        else if !CanListen(tries) then BindFailed
        else if cfg.badPasvAddress then BadPasvAddress else Go
      case Epsv(arg, tries) => if Declines(cfg, arg) || CanListen(tries) then Go else BindFailed
      case Retr(_, _, c, _) => if Asks(i) then Outcome(c) else Go
      case Stor(_, _, _, _, c, _, _) => if Asks(i) then Outcome(c) else Go
      case Dir(_, _, c, _) => if Asks(i) then Outcome(c) else Go
      case Quit => Exit
      case _ => Go
    }

    /** The command uses up the PORT address or the PASV listener. */
    ghost predicate Consumes(i: Input)
      reads this`port, this`listen, this`dataUseSsl, this`isAscii, this`restartPos
    {
      Asks(i) || (i.Stor? && Ready() && i.allowed && i.file.Some?)
    }

    /** The PORT address after a command. */
    ghost function PortAfter(i: Input): Option<Address>
      reads this`port, this`listen, this`dataUseSsl, this`isAscii, this`restartPos, this`epsvAll
    {
      match i
      case Pasv(_) => if epsvAll then port else None
      case Epsv(arg, _) => if Declines(cfg, arg) then port else None
      case Port(target) => if epsvAll then port else Target(cfg, target)
      case Eprt(target) => Target(cfg, target)
      case _ => if Consumes(i) then None else port
    }

    /** Whether a listener is open after a command. */
    ghost predicate ListenAfter(i: Input)
      reads this`port, this`listen, this`dataUseSsl, this`isAscii, this`restartPos, this`epsvAll
    {
      match i
      case Pasv(_) => epsvAll ==> listen.Some?
      case Epsv(arg, _) => Declines(cfg, arg) ==> listen.Some?
      case Port(_) => epsvAll && listen.Some?
      case Eprt(_) => false
      case _ => !Consumes(i) && listen.Some?
    }

    ghost function Choices(): Settings
      reads this`isAscii, this`restartPos, this`dataUseSsl, this`epsvAll
    {
      Settings(isAscii, restartPos, dataUseSsl, epsvAll)
    }

    /** The lines written, and that of an open entry as the loop will write it. */
    ghost function AllLines(): seq<LogLine>
      reads this`past, this`log
    {
      past.lines + if log.Some? then [LogLine(log.value, false)] else []
    }

    method HandleProt(secret: Option<bool>)
      modifies this`dataUseSsl, this`past
      ensures past == old(past).(finals := past.finals)
      ensures past.finals == old(past.finals) + 1
      ensures dataUseSsl == if cfg.controlSsl && secret.Some? then secret.value else old(dataUseSsl)
      ensures old(Owed()) ==> Owed()
    {
      if cfg.controlSsl && secret.Some? {
        dataUseSsl := secret.value;
      }
      Reply();
    }

    /** The commands that set up a data connection. */
    method DispatchSetup(i: Input) returns (e: End)
      requires AtLoopHead() && Armed() && Answered(i) && IsSetup(i)
      modifies this`port, this`listen, this`epsvAll, this`past
      ensures past == old(past).(balance := past.balance, setups := past.setups, finals := past.finals)
      ensures e == old(EndOf(i))
      ensures e.Go? ==> AtLoopHead() && Armed()
      ensures e.Go? ==> past.finals == old(past.finals) + 1
      ensures e.Go? ==> port == old(PortAfter(i)) && listen.Some? == old(ListenAfter(i))
      ensures epsvAll == (old(epsvAll) || (i.Epsv? && i.arg.All?))
    {
      e := Go;
      match i {
        case Pasv(tries) =>
          if epsvAll {
            Reply();
          } else {
            e := HandlePasv(false, NoArg, tries);
          }
        case Epsv(arg, tries) => e := HandlePasv(true, arg, tries);
        case Port(target) =>
          if epsvAll {
            Reply();
          } else {
            HandlePort(target);
          }
        case Eprt(target) => HandlePort(target);
      }
    }

    /** The commands that have nothing to do with data connections. */
    method DispatchPlain(i: Input) returns (e: End)
      requires AtLoopHead() && !IsSetup(i) && !MayTransfer(i)
      modifies this`log, this`dataUseSsl, this`isAscii, this`restartPos, this`past
      ensures past == old(past).(entries := past.entries, lines := past.lines, finals := past.finals)
      ensures e == old(EndOf(i))
      ensures e.Go? ==> past.finals == old(past.finals) + (if i.Empty? then 0 else 1)
      ensures e.Go? ==> AllLines() == old(past.lines) + old(LogOf(i))
      ensures e.Go? ==> past.entries == old(past.entries) + Kinds(old(LogOf(i)))
      ensures e.Go? ==> Choices() == Chosen(cfg, old(Choices()), i)
      ensures Owed()
    {
      e := Go;
      match i {
        case Change(kind, ok) => e := HandleChange(kind, ok);
        case Prot(secret) => HandleProt(secret);
        case Rest(pos) =>
          restartPos := pos;
          Reply();
        case Mode(ascii) =>
          isAscii := ascii;
          Reply();
        case Other => Reply();
        case Empty =>
        case Quit =>
          Reply();
          e := Exit;
      }
    }

    /** The commands that may use one. */
    method DispatchTransfer(i: Input) returns (e: End)
      requires AtLoopHead() && Armed() && !dataTimeout && MayTransfer(i)
      modifies this`port, this`listen, this`dataFd, this`uploadFd, this`ioHandler, this`dataSsl, this`slave,
        this`aborReceived, this`restartPos, this`dataTimeout, this`log, this`past
      ensures past.setups == old(past.setups)
      ensures e == old(EndOf(i))
      ensures e.Go? ==> NoConnection() && !aborReceived && Armed() && uploadFd == None
      ensures e.Go? ==> dataTimeout == old(TimesOut(i)) && past.abors == old(past.abors) + old(AborsOf(i))
      ensures e.Go? && !dataTimeout ==> past.finals - past.abors == old(past.finals - past.abors) + 1
      ensures e.Go? ==> AllLines() == old(past.lines) + old(LogOf(i))
      ensures e.Go? ==> past.entries == old(past.entries) + Kinds(old(LogOf(i)))
      ensures e.Go? ==> past.transfers == old(past.transfers) + old(TransfersOf(i))
      ensures e.Go? ==> port == old(PortAfter(i)) && listen.Some? == old(ListenAfter(i))
      ensures e.Go? ==> restartPos == if i.Dir? then old(restartPos) else 0
    {
      match i {
        case Retr(_, _, _, _) => e := HandleRetr(i);
        case Stor(_, _, _, _, _, _, _) => e := HandleStor(i);
        case Dir(_, _, _, _) => e := HandleDir(i);
      }
    }

    /** The handler of any command. */
    method Handle(i: Input) returns (e: End)
      requires AtLoopHead() && Armed() && !dataTimeout && Answered(i)
      modifies this
      ensures e == old(EndOf(i))
      ensures e.Go? ==> NoConnection() && !aborReceived && Armed() && uploadFd == None
      ensures e.Go? ==> dataTimeout == old(TimesOut(i)) && past.abors == old(past.abors) + old(AborsOf(i))
      ensures e.Go? ==> past.transfers == old(past.transfers) + old(TransfersOf(i))
      ensures e.Go? && !dataTimeout ==>
        past.finals - past.abors == old(past.finals - past.abors) + (if i.Empty? then 0 else 1)
      ensures e.Go? ==> AllLines() == old(past.lines) + old(LogOf(i))
      ensures e.Go? ==> past.entries == old(past.entries) + Kinds(old(LogOf(i)))
      ensures e.Go? ==> port == old(PortAfter(i)) && listen.Some? == old(ListenAfter(i))
      ensures e.Go? ==> Choices() == Chosen(cfg, old(Choices()), i)
    {
      if MayTransfer(i) {
        e := DispatchTransfer(i);
      } else if IsSetup(i) {
        e := DispatchSetup(i);
      } else {
        e := DispatchPlain(i);
      }
    }

    /** One turn of the command loop: the handler, then the line of an entry it left open, then the
        data timer. No trap is reached, every command gets one final reply beside those to ABOR, and
        its log lines tell how it went. */
    method Step(i: Input) returns (e: End)
      requires AtLoopHead() && Armed() && Logged() && !dataTimeout && Answered(i)
      modifies this
      ensures !e.Trapped?
      ensures e.IllegalPort? <==> old(Asks(i) && listen.None? && Reserved(port.value.port))
      ensures e == if old(EndOf(i)).Go? && old(TimesOut(i)) then Exit else old(EndOf(i))
      ensures e.Go? ==> AtLoopHead() && Armed() && Logged() && !dataTimeout
      ensures e.Go? ==> past.finals - past.abors == old(past.finals - past.abors) + (if i.Empty? then 0 else 1)
      ensures e.Go? ==> past.abors == old(past.abors) + old(AborsOf(i))
      ensures e.Go? ==> past.transfers == old(past.transfers) + old(TransfersOf(i))
      ensures e.Go? ==> past.lines == old(past.lines) + old(LogOf(i))
      ensures e.Go? ==> port == old(PortAfter(i)) && listen.Some? == old(ListenAfter(i))
      ensures e.Go? ==> Choices() == Chosen(cfg, old(Choices()), i)
    {
      KindsConcat(past.lines, LogOf(i));
      e := Handle(i);
      if e.Go? {
        e := EndTurn();
      }
    }

    method EndTurn() returns (e: End)
      modifies this`log, this`past
      ensures past == old(past).(lines := past.lines)
      ensures e == (if dataTimeout then Exit else Go) && log == None && past.lines == old(AllLines())
    {
      if log.Some? {
        DoLog(false);
      }
      e := if dataTimeout then Exit else Go;
    }

    /** Every run of the command loop from its start. */
    method CommandLoop(inputs: seq<Input>) returns (e: End, ghost served: nat)
      requires AtLoopHead() && Armed() && Logged() && !dataTimeout
      requires forall i :: 0 <= i < |inputs| ==> Answered(inputs[i])
      modifies this
      ensures !e.Trapped? && served <= |inputs|
      ensures e.IllegalPort? ==> cfg.promiscuous
      ensures e.Go? ==> served == |inputs| && AtLoopHead() && Armed() && Logged()
      ensures e.Go? ==> past.balance == Is(listen) && |past.transfers| <= past.attempts <= past.setups
      ensures e.Go? ==> past.finals - past.abors == old(past.finals - past.abors) + Replied(inputs)
      ensures e.Go? && (forall t :: t in old(past.transfers) ==> Lawful(cfg, t)) ==>
        forall t :: t in past.transfers ==> Lawful(cfg, t)
    {
      served := 0;
      e := Go;
      var i := 0;
      while i < |inputs|
        invariant 0 <= i <= |inputs| && served == i
        invariant e.Go? && AtLoopHead() && Armed() && Logged() && !dataTimeout
        invariant past.finals - past.abors == old(past.finals - past.abors) + Replied(inputs[..i])
        invariant (forall t :: t in old(past.transfers) ==> Lawful(cfg, t)) ==>
          forall t :: t in past.transfers ==> Lawful(cfg, t)
      {
        TransfersLawful(inputs[i]);
        assert inputs[..i + 1] == inputs[..i] + [inputs[i]];
        e := Step(inputs[i]);
        if !e.Go? {
          return;
        }
        i := i + 1;
        served := i;
      }
      assert inputs[..i] == inputs;
    }
  }

  /** The one `die` a client can cause is real: with promiscuous PORT, a download to a reserved port
      ends the process. */
  method IllegalPortIsReached(cfg: Config, peer: seq<byte>, c: Conn) returns (e: End)
    requires cfg.promiscuous && !cfg.forceDataSsl
    ensures e.IllegalPort?
  {
    var s := new Control(cfg, false, 0);
    e := s.Step(Port(Some(Address(peer, 20))));
    if e.Go? {
      e := s.Step(Retr(true, true, c, 0));
    }
  }

  /** What holds of every transfer: encrypted where that is demanded, and only under control TLS; in ASCII
      only where that is enabled, and not from an offset for a download; and with the client itself, unless
      the administrator chose otherwise. */
  predicate Lawful(cfg: Config, t: Transfer) {
    && (cfg.forceDataSsl ==> t.encrypted) && (t.encrypted ==> cfg.controlSsl)
    && (t.kind.Download? || t.kind.Upload?)
    && (t.kind.Download? && t.ascii ==> cfg.asciiDownload && t.offset == 0)
    && (t.kind.Upload? && t.ascii ==> cfg.asciiUpload)
    && (!cfg.promiscuous && !cfg.pasvPromiscuous ==> t.own)
  }

  /** The number of commands that are not empty lines. */
  ghost function Replied(inputs: seq<Input>): nat {
    if inputs == [] then 0
    else Replied(inputs[..|inputs| - 1]) + if inputs[|inputs| - 1].Empty? then 0 else 1
  }

  function Kinds(lines: seq<LogLine>): seq<LogKind> {
    seq(|lines|, i requires 0 <= i < |lines| => lines[i].kind)
  }

  lemma KindsConcat(a: seq<LogLine>, b: seq<LogLine>)
    ensures Kinds(a + b) == Kinds(a) + Kinds(b)
  {
  }

  /** The local file could be locked, and reaches to the restart position. */
  predicate Uploadable(locked: bool, inBounds: bool, offset: nat) {
    !locked && (offset != 0 ==> inBounds)
  }

  /** An upload that is ready goes on to ask for a data connection. */
  predicate StoreAsks(i: Input, offset: nat)
    requires i.Stor?
  {
    i.allowed && i.file.Some? && Uploadable(i.locked, i.inBounds, offset)
  }

  predicate IsSetup(i: Input) {
    i.Pasv? || i.Epsv? || i.Port? || i.Eprt?
  }

  predicate MayTransfer(i: Input) {
    i.Retr? || i.Stor? || i.Dir?
  }

  datatype Settings = Settings(isAscii: bool, restartPos: nat, dataUseSsl: bool, epsvAll: bool)

  /** The settings after a command: a restart position lasts until the next transfer command. */
  function Chosen(cfg: Config, s: Settings, i: Input): Settings {
    match i
    case Mode(ascii) => s.(isAscii := ascii)
    case Rest(pos) => s.(restartPos := pos)
    case Retr(_, _, _, _) => s.(restartPos := 0)
    case Stor(_, _, _, _, _, _, _) => s.(restartPos := 0)
    case Prot(secret) => if cfg.controlSsl && secret.Some? then s.(dataUseSsl := secret.value) else s
    case Epsv(arg, _) => s.(epsvAll := s.epsvAll || arg.All?)
    case _ => s
  }

  /** EPSV answers without opening a listener. */
  predicate Declines(cfg: Config, arg: EpsvArg) {
    arg.All? || (arg.Number? && (arg.n < 1 || arg.n > 2 || (!cfg.ipv6 && arg.n == 2)))
  }

  /** What a PORT command leaves as the address. */
  function Target(cfg: Config, target: Option<Address>): Option<Address> {
    if target.Some? && Permitted(cfg, target.value) then target else None
  }

  /** PORT may point there. */
  predicate Permitted(cfg: Config, a: Address) {
    cfg.promiscuous || (cfg.remoteIp == a.ip && !Reserved(a.port))
  }

  /** The peer can be connected to, or connected to us and is the client. */
  predicate Reachable(cfg: Config, passive: bool, c: Conn) {
    if passive then c.accepted.Some? && (cfg.pasvPromiscuous || c.samePeer) else c.connected
  }

  /** Async ABOR is enabled, and the control connection does not use TLS. */
  predicate Hears(cfg: Config) {
    cfg.asyncAbor && !cfg.controlSsl
  }

  /** An ABOR arrives and is noted. */
  predicate Aborted(cfg: Config, c: Conn) {
    Hears(cfg) && (c.during.abor || c.closing.abor)
  }

  predicate Late(c: Conn) {
    c.during.timeout || c.closing.timeout
  }

  predicate TlsOk(cfg: Config, useSsl: bool, c: Conn) {
    useSsl ==> if cfg.slaveActive then c.handshakeOk else c.ssl.Accepted?
  }

  /** The port of one try, inside the effective range. */
  function DrawnPort(cfg: Config, t: Try): (r: nat)
    ensures r == PassivePort.Port(256 * t.hi + t.lo, cfg.minPort, cfg.maxPort)
    ensures PassivePort.Low(cfg.minPort) <= r <= PassivePort.High(cfg.minPort, cfg.maxPort)
  {
    PassivePort.PortInRange(256 * t.hi + t.lo, cfg.minPort, cfg.maxPort);
    PassivePort.Port(256 * t.hi + t.lo, cfg.minPort, cfg.maxPort)
  }

  predicate Listens(t: Try) {
    t.bindOk && t.listenOk
  }

  predicate Busy(t: Try) {
    !Listens(t) && t.busy
  }

  predicate FirstToListen(tries: seq<Try>, k: nat)
    requires k < |tries|
  {
    Listens(tries[k]) && forall j :: 0 <= j < k ==> Busy(tries[j])
  }

  /** Some try succeeds, and all before it found their port busy. */
  predicate CanListen(tries: seq<Try>) {
    exists k :: 0 <= k < |tries| && FirstToListen(tries, k)
  }

  /** When a listener can be had, told of the tries. */
  lemma CanListenExactly(tries: seq<Try>)
    ensures CanListen(tries) <==>
      exists k :: 0 <= k < |tries| && tries[k].bindOk && tries[k].listenOk && AllBusy(tries[..k])
  {
    if k :| 0 <= k < |tries| && tries[k].bindOk && tries[k].listenOk && AllBusy(tries[..k]) {
      assert forall j :: 0 <= j < k ==> tries[..k][j] == tries[j];
      assert FirstToListen(tries, k);
    }
    if k :| 0 <= k < |tries| && FirstToListen(tries, k) {
      assert AllBusy(tries[..k]);
    }
  }

  predicate AllBusy(tries: seq<Try>) {
    forall j :: 0 <= j < |tries| ==> tries[j].busy && !(tries[j].bindOk && tries[j].listenOk)
  }

  lemma NoneListens(tries: seq<Try>, i: nat)
    requires i < |tries| && !Listens(tries[i]) && !Busy(tries[i])
    requires forall j :: 0 <= j < i ==> Busy(tries[j])
    ensures forall k: nat :: k < |tries| ==> !FirstToListen(tries, k)
  {
  }
}
