/**
 The cellular link, the MQTT session and the HTTP lease as one state machine.

 Every function below is one method of GsmLink, GsmMqttClient or GsmHttpClient, written on
 values: the fields it reads and writes, the order of its effects, and what it makes the
 modem do. Whatever the modem, the broker or the clock may answer is a parameter, so a
 statement for all answers is a statement about every environment. The classes in
 GsmObjects run the same steps in place and are proved equal to these functions.
 */
module GsmProtocol {
  import opened Words

  // ------------------------------------------------------------------ data

  datatype State = Off | Settling | Init | Network | Attaching | Ready | Backoff

  /** The fields of GsmLink that its decisions depend on. */
  datatype Link = Link(
    state: State,
    since: Word32,
    nextTry: Word32,
    failures: nat,
    httpLeased: bool,
    pausedByFail: bool,
    mqttFalhas: nat,
    resetsModem: nat,
    refazerPdp: bool,
    settleMs: Word32,
    bootSettleMs: Word32,
    netCheckMs: Word32,
    ipAnterior: Word32,
    pdpSeq: Word32,
    compararIp: bool)

  /** The fields of GsmMqttClient, with PubSubClient's own session as one bit. */
  datatype Session = Session(
    configurado: bool,
    suspenso: bool,
    conectado: bool,
    estavaConectado: bool,
    falhas: nat,
    proximaTentativa: Word32,
    pdpDaTentativa: Word32,
    cipstartMs: Word32,
    libraryUp: bool)

  /** Why the modem is reset, with what it answered or how long it had. */
  datatype ResetCause =
    | Denied(creg: int) | StuckWithSignal(csq: int, waited: Word32) | NoRegistration(waited: Word32)
    | SameIp(ip: Word32) | PdpNotUp(waited: Word32) | Ladder

  /** What became of an opening, with the answer of the modem or of its library that decided it. */
  datatype Resolution =
    | Opened(returned: bool) | AlreadyOpen(socketUp: bool) | ConfirmedLate(answer: EstadoSocket)   // it is open
    | NeitherState(answer: EstadoSocket) | Expired    // given up on: not opening, or 75 s gone
    | PdpGone | LinkGone | Suspended | Ended          // what it belonged to is gone

  /** What an observer of the modem and of the two reports sees, in order. */
  datatype Action =
    | OpenIssued(at: Word32)
    | OpenResolved(why: Resolution, when: Word32)
    | MqttConnected
    | MqttClosed
    | SessionLost
    | FailureCounted
    | LinkFailed(at: Word32, wait: Word32)
    | LinkRetries(at: Word32)
    | ModemReset(cause: ResetCause, full: bool)
    | PdpTornDown
    | PdpUp(ip: Word32)
    | LeaseTaken
    | LeaseReturned

  datatype System = System(link: Link, session: Session, downloadOpen: bool, trace: seq<Action>)

  // ------------------------------------------------- constants of the source

  const FALHAS_REFAZER_PDP := 3
  const FALHAS_RESET_MODEM := 5
  const SETTLE_RESET_MS: Word32 := 3000
  const SETTLE_WINDOW_MS := 20000
  const NET_CHECK_MS := 3000
  const NET_SINAL_BOM_MS := 20000
  const NETWORK_MS := 60000
  const ATTACH_MS := 25000
  const CIPSTART_MAX_MS := 75000
  const REAVALIAR_MS := 1000

  function LinkBackoffMs(failures: nat): Word32 {
    if failures == 0 then 2000 else if failures == 1 then 5000 else if failures == 2 then 15000 else 30000
  }

  function SessionBackoffMs(falhas: nat): Word32 {
    if falhas == 0 then 3000 else if falhas == 1 then 8000 else if falhas == 2 then 15000 else 30000
  }

  // ----------------------------------------------------- answers of the world

  /** What the modem says during one GsmLink::loop, and `millis()` after a blocking dialogue. */
  datatype LinkAnswers = LinkAnswers(
    testAt: bool, registered: bool, creg: int, csq: int, pdpUp: bool, ip: Word32, after: Word32)

  datatype EstadoSocket = Conectado | Abrindo | Outro | SemResposta

  /** What the modem and the broker say during one GsmMqttClient::loop. `tOpen`, `tEval`,
      `tReport`, `tReset` and `tEnd` are the successive readings of `millis()`. */
  datatype SessionAnswers = SessionAnswers(
    alive: bool, socketUp: bool, tcpOpened: bool, status: EstadoSocket, mqttOk: bool, mqttState: int,
    tOpen: Word32, tEval: Word32, tReport: Word32, tReset: Word32, tEnd: Word32)

  /** How an HTTP exchange goes: whether it gets as far as the link, the TCP connect and the headers. */
  datatype ExchangeAnswers = ExchangeAnswers(urlOk: bool, tcpOk: bool, headersOk: bool, statusOk: bool)

  datatype Event =
    | LinkLoop(now: Word32, link: LinkAnswers)
    | SessionLoop(now: Word32, session: SessionAnswers)
    | SessionBegin
    | SessionEnd
    | HttpExchange(x: ExchangeAnswers)
    | BeginDownload(x: ExchangeAnswers)
    | EndDownload

  // --------------------------------------------------------------- the session

  function Emit(s: System, a: Action): System { s.(trace := s.trace + [a]) }

  /** Clears `_cipstart_ms`, noting what became of an opening that was still pending. */
  function Resolve(s: System, why: Resolution, when: Word32): System {
    if s.session.cipstartMs == 0 then s
    else Emit(s.(session := s.session.(cipstartMs := 0)), OpenResolved(why, when))
  }

  /** The same where an opening is certainly pending, even one that was stamped zero. */
  function Conclude(s: System, why: Resolution, when: Word32): System {
    Emit(s.(session := s.session.(cipstartMs := 0)), OpenResolved(why, when))
  }

  /** `if (_conectado) _cliente.disconnect(); _conectado = false;` */
  function Disconnect(s: System): System {
    if s.session.conectado
    then Emit(s.(session := s.session.(conectado := false, libraryUp := false)), MqttClosed)
    else s
  }

  function Suspend(s: System): System {
    if s.session.suspenso then s
    else
      var s1 := s.(session := s.session.(suspenso := true, estavaConectado := false));
      Resolve(Disconnect(s1), Suspended, 0)
  }

  function Resume(s: System): System {
    if !s.session.suspenso then s
    else s.(session := s.session.(suspenso := false, proximaTentativa := 0))
  }

  function SessionBeginStep(s: System): System {
    s.(session := s.session.(configurado := true, suspenso := false, proximaTentativa := 0, falhas := 0))
  }

  function SessionEndStep(s: System): System {
    var s1 := Resolve(Disconnect(s), Ended, 0);
    s1.(session := s1.session.(estavaConectado := false, configurado := false))
  }

  // ------------------------------------------------------------------ the link

  /** Both ways down pause the session first and drop any lease. */
  function PauseByFailure(s: System): System {
    var s1 := Suspend(s);
    s1.(link := s1.link.(pausedByFail := true, httpLeased := false))
  }

  function Fail(s: System, now: Word32): System {
    var wait := LinkBackoffMs(s.link.failures);
    var s1 := PauseByFailure(s.(link := s.link.(failures := Bump(s.link.failures, 4))));
    Emit(s1.(link := s1.link.(state := Backoff, nextTry := Later(now, wait))), LinkFailed(now, wait))
  }

  function ResetModem(s: System, cause: ResetCause, after: Word32): System {
    Restart(PauseByFailure(s), cause, after)
  }

  /** The reset command and what it makes obsolete. */
  function Restart(s: System, cause: ResetCause, after: Word32): System {
    Emit(s.(link := s.link.(
              mqttFalhas := 0, refazerPdp := false, compararIp := false,
              resetsModem := Bump(s.link.resetsModem, 255),
              settleMs := SETTLE_RESET_MS, state := Settling, since := after)),
         ModemReset(cause, s.link.resetsModem % 2 == 0))
  }

  function LinkLoopStep(s: System, now: Word32, a: LinkAnswers): System {
    match s.link.state
    case Off => s
    case Settling => SettlingStep(s, now, a)
    case Init => s.(link := s.link.(state := Network, since := now, netCheckMs := now))
    case Network => NetworkStep(s, now, a)
    case Attaching => AttachingStep(s, now, a)
    case Ready => s
    case Backoff =>
      if now < s.link.nextTry then s else Emit(s.(link := s.link.(state := Init, since := now)), LinkRetries(now))
  }

  function SettleTime(l: Link): Word32 { if l.settleMs != 0 then l.settleMs else l.bootSettleMs }

  function SettlingStep(s: System, now: Word32, a: LinkAnswers): System {
    var settle := SettleTime(s.link);
    var waited := Elapsed(now, s.link.since);
    if waited < settle then s
    else if waited > Later(settle, SETTLE_WINDOW_MS) then Fail(s, now)
    else if a.testAt then s.(link := s.link.(state := Init, since := now))
    else s
  }

  function NetworkStep(s: System, now: Word32, a: LinkAnswers): System {
    var waited := Elapsed(now, s.link.since);
    if a.registered then s.(link := s.link.(state := Attaching, since := now))
    else if Elapsed(now, s.link.netCheckMs) < NET_CHECK_MS then s
    else
      var s1 := s.(link := s.link.(netCheckMs := now));
      if a.creg == 3 then ResetModem(s1, Denied(a.creg), a.after)
      else if a.csq >= 15 && a.csq != 99 && waited >= NET_SINAL_BOM_MS then
        ResetModem(s1, StuckWithSignal(a.csq, waited), a.after)
      else if waited > NETWORK_MS then ResetModem(s1, NoRegistration(waited), a.after)
      else s1
  }

  function AttachingStep(s: System, now: Word32, a: LinkAnswers): System {
    if s.link.refazerPdp then
      Emit(s.(link := s.link.(refazerPdp := false, compararIp := true, since := a.after)), PdpTornDown)
    else if a.pdpUp then
      if s.link.compararIp && a.ip != 0 && a.ip == s.link.ipAnterior then
        ResetModem(s.(link := s.link.(compararIp := false)), SameIp(a.ip), a.after)
      else PdpReady(s, a.ip)
    else if Elapsed(now, s.link.since) > ATTACH_MS then
      ResetModem(s, PdpNotUp(Elapsed(now, s.link.since)), a.after)
    else s
  }

  function PdpReady(s: System, ip: Word32): System {
    var s1 := Emit(s.(link := s.link.(compararIp := false, ipAnterior := ip, pdpSeq := Later(s.link.pdpSeq, 1),
                                      failures := 0, state := Ready)), PdpUp(ip));
    if s1.link.pausedByFail then Resume(s1.(link := s1.link.(pausedByFail := false))) else s1
  }

  function ReportTransportFailure(s: System, now: Word32, after: Word32): System {
    if s.link.state != Ready || s.link.httpLeased then s
    else
      var n := Bump(s.link.mqttFalhas, 255);
      var s1 := Emit(s.(link := s.link.(mqttFalhas := n)), FailureCounted);
      if n >= FALHAS_RESET_MODEM then ResetModem(s1, Ladder, after)
      else if n >= FALHAS_REFAZER_PDP then Fail(s1.(link := s1.link.(refazerPdp := true)), now)
      else s1
  }

  function ReportSessionLost(s: System): System {
    if s.link.state != Ready || s.link.httpLeased then s else Emit(s, SessionLost)
  }

  function ReportConnected(s: System): System {
    Emit(s.(link := s.link.(mqttFalhas := 0, resetsModem := 0)), MqttConnected)
  }

  // ------------------------------------------------- opening the MQTT session

  datatype Tentativa = Conectou | Falhou | Aguardando

  /** An opening that the modem library gave up on may still be under way: ask the modem. */
  function AvaliarAbertura(s: System, a: SessionAnswers): (System, Tentativa) {
    var waited := Elapsed(a.tEval, s.session.cipstartMs);
    if waited < CIPSTART_MAX_MS && a.status == Conectado then
      (Conclude(s, ConfirmedLate(a.status), a.tEval), Conectou)
    else if waited < CIPSTART_MAX_MS && a.status == Abrindo then
      (s, Aguardando)
    else
      var why := if waited < CIPSTART_MAX_MS then NeitherState(a.status) else Expired;
      (ReportTransportFailure(Conclude(s, why, a.tEval), a.tReport, a.tReset), Falhou)
  }

  /** Gets the TCP socket open, or says why there is none yet. */
  function AbrirSocket(s: System, a: SessionAnswers): (System, Tentativa) {
    if a.socketUp then (Resolve(s, AlreadyOpen(a.socketUp), a.tEval), Conectou)
    else if s.session.cipstartMs != 0 then AvaliarAbertura(s, a)
    else
      var s1 := Emit(s.(session := s.session.(cipstartMs := a.tOpen)), OpenIssued(a.tOpen));
      if a.tcpOpened then (Conclude(s1, Opened(a.tcpOpened), a.tEval), Conectou) else AvaliarAbertura(s1, a)
  }

  /** A pending opening belongs to the PDP it was asked for in. */
  function NotePdp(s: System): System {
    var s1 := s.(session := s.session.(pdpDaTentativa := s.link.pdpSeq));
    if s.link.pdpSeq != s.session.pdpDaTentativa then Resolve(s1, PdpGone, 0) else s1
  }

  function Conectar(s: System, a: SessionAnswers): (System, Tentativa) {
    if s.link.state != Ready || s.link.httpLeased then (s, Falhou)
    else
      var (s1, t) := AbrirSocket(NotePdp(s), a);
      if t != Conectou then (s1, t) else OpenSession(s1, a)
  }

  /** MQTT over the open socket. Only a transport failure counts; a refusal by the broker does not. */
  function OpenSession(s: System, a: SessionAnswers): (System, Tentativa) {
    if a.mqttOk then
      var s1 := ReportConnected(s);
      (s1.(session := s1.session.(estavaConectado := true, conectado := true, libraryUp := true)), Conectou)
    else if a.mqttState < 0 then (ReportTransportFailure(s, a.tReport, a.tReset), Falhou)
    else (s, Falhou)
  }

  function SessionLoopStep(s: System, now: Word32, a: SessionAnswers): System {
    if !s.session.configurado || s.session.suspenso then s
    else
      var up := s.session.libraryUp && a.alive;
      var s1 := s.(session := s.session.(conectado := up, libraryUp := up));
      if up then s1.(session := s1.session.(falhas := 0, estavaConectado := true))
      else if s1.session.estavaConectado then
        ReportSessionLost(s1.(session := s1.session.(estavaConectado := false, falhas := 0, proximaTentativa := now)))
      else if s1.link.state != Ready || s1.link.httpLeased then Resolve(s1, LinkGone, now)
      else if now < s1.session.proximaTentativa then s1
      else Retry(Conectar(s1, a), a)
  }

  /** What the loop does with the outcome of an attempt. */
  function Retry(r: (System, Tentativa), a: SessionAnswers): System {
    var s := r.0;
    match r.1
    case Conectou => s.(session := s.session.(falhas := 0))
    case Aguardando => s.(session := s.session.(proximaTentativa := Later(a.tEnd, REAVALIAR_MS)))
    case Falhou =>
      s.(session := s.session.(falhas := Bump(s.session.falhas, 4),
                               proximaTentativa := Later(a.tEnd, SessionBackoffMs(s.session.falhas))))
  }

  // -------------------------------------------------------------- the HTTP lease

  function Acquire(s: System): (System, bool) {
    if s.link.state != Ready || s.link.httpLeased then (s, false)
    else
      var s1 := Suspend(s);
      (Emit(s1.(link := s1.link.(httpLeased := true)), LeaseTaken), true)
  }

  function Release(s: System): System {
    if !s.link.httpLeased then s
    else Resume(Emit(s.(link := s.link.(httpLeased := false)), LeaseReturned))
  }

  /** GsmHttpClient::abrir: the lease is kept only when the TCP connection opened. */
  function Abrir(s: System, tcpOk: bool): (System, bool) {
    var (s1, ok) := Acquire(s);
    if !ok then (s1, false) else if tcpOk then (s1, true) else (Release(s1), false)
  }

  /** get, postJson and postStream: whatever happens after `abrir`, the lease goes back. */
  function HttpExchangeStep(s: System, x: ExchangeAnswers): System {
    if !x.urlOk then s
    else
      var (s1, ok) := Abrir(s, x.tcpOk);
      if ok then Release(s1) else s1
  }

  function EndDownloadStep(s: System): System {
    if !s.downloadOpen then s else Release(s.(downloadOpen := false))
  }

  function BeginDownloadStep(s: System, x: ExchangeAnswers): System {
    var s0 := EndDownloadStep(s);
    if !x.urlOk then s0
    else
      var (s1, ok) := Abrir(s0, x.tcpOk);
      if !ok then s1
      else if !x.headersOk || !x.statusOk then Release(s1)
      else s1.(downloadOpen := true)
  }

  // -------------------------------------------------------------------- runs

  function Step(s: System, e: Event): System {
    match e
    case LinkLoop(now, a) => LinkLoopStep(s, now, a)
    case SessionLoop(now, a) => SessionLoopStep(s, now, a)
    case SessionBegin => SessionBeginStep(s)
    case SessionEnd => SessionEndStep(s)
    case HttpExchange(x) => HttpExchangeStep(s, x)
    case BeginDownload(x) => BeginDownloadStep(s, x)
    case EndDownload => EndDownloadStep(s)
  }

  function Run(s: System, events: seq<Event>): System {
    if events == [] then s else Step(Run(s, events[..|events| - 1]), events[|events| - 1])
  }

  /** Just after GsmLink::begin, with both gates bound and no session configured yet. */
  function Initial(boot: Word32, now: Word32): System {
    System(Link(Settling, now, 0, 0, false, false, 0, 0, false, 0, boot, 0, 0, 0, false),
           Session(false, false, false, false, 0, 0, 0, 0, false), false, [])
  }
}
