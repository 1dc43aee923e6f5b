/**
 GsmLink, GsmMqttClient and the lease handling of GsmHttpClient as objects that update
 their fields in place and call each other. Each method is proved to take the whole
 composed state where GsmProtocol says, so every theorem about runs holds of the objects.
 */
module GsmObjects {
  import opened Words
  import opened GsmProtocol
  import opened GsmSafety

  class GsmLink {
    var state: State
    var since: Word32
    var nextTry: Word32
    var failures: nat
    var httpLeased: bool
    var pausedByFail: bool
    var mqttFalhas: nat
    var resetsModem: nat
    var refazerPdp: bool
    var settleMs: Word32
    var bootSettleMs: Word32
    var netCheckMs: Word32
    var ipAnterior: Word32
    var pdpSeq: Word32
    var compararIp: bool
    var gate: GsmMqttClient?      // both gates, bound once before the first step
    ghost var log: seq<Action>    // what the modem and the reports have shown so far

    constructor (boot: Word32, now: Word32)
      ensures state == Settling && since == now && bootSettleMs == boot && log == [] && gate == null
      ensures FieldValues() == Initial(boot, now).link
    {
      state, since, nextTry, failures := Settling, now, 0, 0;
      httpLeased, pausedByFail, mqttFalhas, resetsModem, refazerPdp := false, false, 0, 0, false;
      settleMs, bootSettleMs, netCheckMs, ipAnterior, pdpSeq, compararIp := 0, boot, 0, 0, 0, false;
      gate, log := null, [];
    }

    ghost function FieldValues(): Link
      reads this
    {
      Link(state, since, nextTry, failures, httpLeased, pausedByFail, mqttFalhas, resetsModem, refazerPdp,
           settleMs, bootSettleMs, netCheckMs, ipAnterior, pdpSeq, compararIp)
    }

    ghost predicate Wired()
      reads this, gate
    {
      gate != null && gate.link == this
    }

    /** The composed state; `open` is the HTTP client's own flag. */
    ghost function View(open: bool): System
      requires Wired()
      reads this, gate
    {
      System(FieldValues(), gate.FieldValues(), open, log)
    }

    method SetMqttGate(session: GsmMqttClient)
      requires session.link == this
      modifies this`gate
      ensures Wired() && gate == session
    {
      gate := session;
    }

    method PauseByFailure(ghost open: bool)
      requires Wired()
      modifies `pausedByFail, `httpLeased, `log, gate
      ensures Wired()
      ensures View(open) == GsmProtocol.PauseByFailure(old(View(open)))
    {
      gate.Suspend(open);
      pausedByFail := true;
      httpLeased := false;
    }

    method Fail(now: Word32, ghost open: bool)
      requires Wired()
      modifies this, gate
      ensures Wired() && gate == old(gate)
      ensures View(open) == GsmProtocol.Fail(old(View(open)), now)
    {
      var wait := LinkBackoffMs(failures);
      CountDown(open);
      PauseByFailure(open);
      EnterBackoff(now, wait, open);
    }

    method CountDown(ghost open: bool)
      requires Wired()
      modifies `failures
      ensures Wired() && View(open) == old(View(open).(link := FieldValues().(failures := Bump(failures, 4))))
    {
      if failures < 4 { failures := failures + 1; }
    }

    method EnterBackoff(now: Word32, wait: Word32, ghost open: bool)
      requires Wired()
      modifies `log, `state, `nextTry
      ensures Wired() && View(open) ==
        old(Emit(View(open).(link := FieldValues().(state := Backoff, nextTry := Later(now, wait))),
                 LinkFailed(now, wait)))
    {
      state := Backoff;
      nextTry := Later(now, wait);
      log := log + [LinkFailed(now, wait)];
    }

    method ResetModem(cause: ResetCause, after: Word32, ghost open: bool)
      requires Wired()
      modifies this, gate
      ensures Wired() && gate == old(gate)
      ensures View(open) == GsmProtocol.ResetModem(old(View(open)), cause, after)
    {
      PauseByFailure(open);
      Restart(cause, after);
    }

    method Restart(cause: ResetCause, after: Word32)
      modifies `log, `mqttFalhas, `refazerPdp, `compararIp, `resetsModem, `settleMs, `state, `since
      ensures log == old(log) + [ModemReset(cause, old(resetsModem) % 2 == 0)]
      ensures mqttFalhas == 0 && !refazerPdp && !compararIp && resetsModem == Bump(old(resetsModem), 255)
      ensures settleMs == SETTLE_RESET_MS && state == Settling && since == after
    {
      log := log + [ModemReset(cause, resetsModem % 2 == 0)];
      mqttFalhas := 0;
      refazerPdp := false;
      compararIp := false;
      if resetsModem < 255 { resetsModem := resetsModem + 1; }
      settleMs := SETTLE_RESET_MS;
      state := Settling;
      since := after;
    }

    method Loop(now: Word32, a: LinkAnswers, ghost open: bool)
      requires Wired()
      modifies this, gate
      ensures Wired() && gate == old(gate)
      ensures View(open) == LinkLoopStep(old(View(open)), now, a)
    {
      match state {
        case Off =>
        case Settling =>
          var settle := if settleMs != 0 then settleMs else bootSettleMs;
          if Elapsed(now, since) < settle { return; }
          if Elapsed(now, since) > Later(settle, SETTLE_WINDOW_MS) { Fail(now, open); return; }
          if a.testAt { state := Init; since := now; }
        case Init =>
          state := Network;
          since := now;
          netCheckMs := now;
        case Network => NetworkPass(now, a, open);
        case Attaching => AttachingPass(now, a, open);
        case Ready =>
        case Backoff =>
          if now < nextTry { return; }
          state := Init;
          since := now;
          log := log + [LinkRetries(now)];
      }
    }

    method NetworkPass(now: Word32, a: LinkAnswers, ghost open: bool)
      requires Wired()
      modifies this, gate
      ensures Wired() && gate == old(gate)
      ensures View(open) == NetworkStep(old(View(open)), now, a)
    {
      if a.registered { state := Attaching; since := now; return; }
      if Elapsed(now, netCheckMs) < NET_CHECK_MS { return; }
      netCheckMs := now;
      var waited := Elapsed(now, since);
      if a.creg == 3 { ResetModem(Denied(a.creg), a.after, open); return; }
      var sinalBom := a.csq >= 15 && a.csq != 99;
      if sinalBom && waited >= NET_SINAL_BOM_MS {
        ResetModem(StuckWithSignal(a.csq, waited), a.after, open);
        return;
      }
      if waited > NETWORK_MS { ResetModem(NoRegistration(waited), a.after, open); return; }
    }

    method AttachingPass(now: Word32, a: LinkAnswers, ghost open: bool)
      requires Wired()
      modifies this, gate
      ensures Wired() && gate == old(gate)
      ensures View(open) == AttachingStep(old(View(open)), now, a)
    {
      if refazerPdp {
        refazerPdp, compararIp, log, since := false, true, log + [PdpTornDown], a.after;
        return;
      }
      if a.pdpUp {
        if compararIp && a.ip != 0 && a.ip == ipAnterior {
          compararIp := false;
          ResetModem(SameIp(a.ip), a.after, open);
          return;
        }
        PdpReady(a.ip, open);
        return;
      }
      var waited := Elapsed(now, since);
      if waited > ATTACH_MS { ResetModem(PdpNotUp(waited), a.after, open); }
    }

    method PdpReady(ip: Word32, ghost open: bool)
      requires Wired()
      modifies this, gate
      ensures Wired() && gate == old(gate)
      ensures View(open) == GsmProtocol.PdpReady(old(View(open)), ip)
    {
      EnterReady(ip);
      if pausedByFail {
        pausedByFail := false;
        gate.Resume(open);
      }
    }

    method EnterReady(ip: Word32)
      modifies `log, `compararIp, `ipAnterior, `pdpSeq, `failures, `state
      ensures log == old(log) + [PdpUp(ip)] && !compararIp && ipAnterior == ip
      ensures pdpSeq == Later(old(pdpSeq), 1) && failures == 0 && state == Ready
    {
      compararIp := false;
      ipAnterior := ip;
      pdpSeq := Later(pdpSeq, 1);
      failures := 0;
      state := Ready;
      log := log + [PdpUp(ip)];
    }

    method AcquireForHttp(ghost open: bool) returns (ok: bool)
      requires Wired()
      modifies this, gate
      ensures Wired() && gate == old(gate)
      ensures (View(open), ok) == Acquire(old(View(open)))
    {
      if state != Ready || httpLeased { return false; }
      gate.Suspend(open);
      httpLeased := true;
      log := log + [LeaseTaken];
      return true;
    }

    method ReleaseHttp(ghost open: bool)
      requires Wired()
      modifies this, gate
      ensures Wired() && gate == old(gate)
      ensures View(open) == Release(old(View(open)))
    {
      if !httpLeased { return; }
      httpLeased := false;
      log := log + [LeaseReturned];
      gate.Resume(open);
    }

    method ReportMqttTransportFailure(now: Word32, after: Word32, ghost open: bool)
      requires Wired()
      modifies this, gate
      ensures Wired() && gate == old(gate)
      ensures View(open) == ReportTransportFailure(old(View(open)), now, after)
    {
      if state != Ready || httpLeased { return; }
      CountFailure(open);
      if mqttFalhas >= FALHAS_RESET_MODEM { ResetModem(Ladder, after, open); return; }
      if mqttFalhas >= FALHAS_REFAZER_PDP {
        refazerPdp := true;
        Fail(now, open);
      }
    }

    method CountFailure(ghost open: bool)
      requires Wired()
      modifies `mqttFalhas, `log
      ensures Wired() && View(open) ==
        old(Emit(View(open).(link := FieldValues().(mqttFalhas := Bump(mqttFalhas, 255))), FailureCounted))
    {
      if mqttFalhas < 255 { mqttFalhas := mqttFalhas + 1; }
      log := log + [FailureCounted];
    }

    method ReportMqttSessionLost(ghost open: bool)
      requires Wired()
      modifies this
      ensures Wired() && gate == old(gate)
      ensures View(open) == ReportSessionLost(old(View(open)))
    {
      if state != Ready || httpLeased { return; }
      log := log + [SessionLost];
    }

    method ReportMqttConnected(ghost open: bool)
      requires Wired()
      modifies this
      ensures Wired() && gate == old(gate)
      ensures View(open) == ReportConnected(old(View(open)))
    {
      mqttFalhas := 0;
      resetsModem := 0;
      log := log + [MqttConnected];
    }
  }

  class GsmMqttClient {
    const link: GsmLink
    var configurado: bool
    var suspenso: bool
    var conectado: bool
    var estavaConectado: bool
    var falhas: nat
    var proximaTentativa: Word32
    var pdpDaTentativa: Word32
    var cipstartMs: Word32
    var libraryUp: bool    // PubSubClient's own idea of the session

    constructor (link: GsmLink)
      ensures this.link == link && FieldValues() == Initial(0, 0).session
    {
      this.link := link;
      configurado, suspenso, conectado, estavaConectado := false, false, false, false;
      falhas, proximaTentativa, pdpDaTentativa, cipstartMs, libraryUp := 0, 0, 0, 0, false;
    }

    ghost function FieldValues(): Session
      reads this
    {
      Session(configurado, suspenso, conectado, estavaConectado, falhas, proximaTentativa, pdpDaTentativa,
              cipstartMs, libraryUp)
    }

    /** This session is the one its link's gates lead to. */
    ghost predicate Bound()
      reads this, link, link.gate
    {
      link.gate == this && link.Wired()
    }

    method ClearOpening(why: Resolution, when: Word32, ghost open: bool)
      requires Bound()
      modifies this`cipstartMs, link`log
      ensures Bound() && link.View(open) == Resolve(old(link.View(open)), why, when)
    {
      if cipstartMs != 0 { link.log := link.log + [OpenResolved(why, when)]; }
      cipstartMs := 0;
    }

    method ConcludeOpening(why: Resolution, when: Word32, ghost open: bool)
      requires Bound()
      modifies this`cipstartMs, link`log
      ensures Bound() && link.View(open) == Conclude(old(link.View(open)), why, when)
    {
      link.log := link.log + [OpenResolved(why, when)];
      cipstartMs := 0;
    }

    method CloseSession(ghost open: bool)
      requires Bound()
      modifies this, link`log
      ensures Bound() && link.View(open) == Disconnect(old(link.View(open)))
    {
      if conectado {
        libraryUp := false;
        link.log := link.log + [MqttClosed];
      }
      conectado := false;
    }

    method Suspend(ghost open: bool)
      requires Bound()
      modifies this, link`log
      ensures Bound() && link.View(open) == GsmProtocol.Suspend(old(link.View(open)))
    {
      if suspenso { return; }
      suspenso := true;
      estavaConectado := false;
      CloseSession(open);
      ClearOpening(Suspended, 0, open);
    }

    method Resume(ghost open: bool)
      requires Bound()
      modifies this
      ensures Bound() && link.View(open) == GsmProtocol.Resume(old(link.View(open)))
    {
      if !suspenso { return; }
      suspenso := false;
      proximaTentativa := 0;
    }

    method Begin(ghost open: bool)
      requires Bound()
      modifies this
      ensures Bound() && link.View(open) == SessionBeginStep(old(link.View(open)))
    {
      configurado, suspenso, proximaTentativa, falhas := true, false, 0, 0;
    }

    method End(ghost open: bool)
      requires Bound()
      modifies this, link`log
      ensures Bound() && link.View(open) == SessionEndStep(old(link.View(open)))
    {
      CloseSession(open);
      ClearOpening(Ended, 0, open);
      estavaConectado := false;
      configurado := false;
    }

    method AvaliarAbertura(a: SessionAnswers, ghost open: bool) returns (t: Tentativa)
      requires Bound()
      modifies this, link
      ensures Bound() && (link.View(open), t) == GsmProtocol.AvaliarAbertura(old(link.View(open)), a)
    {
      var waited := Elapsed(a.tEval, cipstartMs);
      var why := Expired;
      if waited < CIPSTART_MAX_MS {
        match a.status {
          case Conectado =>
            ConcludeOpening(ConfirmedLate(a.status), a.tEval, open);
            return Conectou;
          case Abrindo =>
            return Aguardando;
          case _ =>
            why := NeitherState(a.status);
        }
      }
      ConcludeOpening(why, a.tEval, open);
      link.ReportMqttTransportFailure(a.tReport, a.tReset, open);
      return Falhou;
    }

    method AbrirSocket(a: SessionAnswers, ghost open: bool) returns (t: Tentativa)
      requires Bound()
      modifies this, link
      ensures Bound() && (link.View(open), t) == GsmProtocol.AbrirSocket(old(link.View(open)), a)
    {
      t := Conectou;
      if a.socketUp {
        ClearOpening(AlreadyOpen(a.socketUp), a.tEval, open);
      } else if cipstartMs != 0 {
        t := AvaliarAbertura(a, open);
      } else {
        cipstartMs := a.tOpen;
        link.log := link.log + [OpenIssued(a.tOpen)];
        if a.tcpOpened {
          ConcludeOpening(Opened(a.tcpOpened), a.tEval, open);
        } else {
          t := AvaliarAbertura(a, open);
        }
      }
    }

    method Conectar(a: SessionAnswers, ghost open: bool) returns (t: Tentativa)
      requires Bound()
      modifies this, link
      ensures Bound() && (link.View(open), t) == GsmProtocol.Conectar(old(link.View(open)), a)
    {
      if link.state != Ready || link.httpLeased { return Falhou; }
      NotePdp(open);
      t := AbrirSocket(a, open);
      if t != Conectou { return; }
      t := OpenSession(a, open);
    }

    method NotePdp(ghost open: bool)
      requires Bound()
      modifies `pdpDaTentativa, `cipstartMs, link`log
      ensures Bound() && link.View(open) == GsmProtocol.NotePdp(old(link.View(open)))
    {
      var pdpNovo := link.pdpSeq != pdpDaTentativa;
      pdpDaTentativa := link.pdpSeq;
      if pdpNovo { ClearOpening(PdpGone, 0, open); }
    }

    method OpenSession(a: SessionAnswers, ghost open: bool) returns (t: Tentativa)
      requires Bound()
      modifies this, link
      ensures Bound() && (link.View(open), t) == GsmProtocol.OpenSession(old(link.View(open)), a)
    {
      if !a.mqttOk {
        if a.mqttState < 0 { link.ReportMqttTransportFailure(a.tReport, a.tReset, open); }
        return Falhou;
      }
      link.ReportMqttConnected(open);
      estavaConectado, conectado, libraryUp := true, true, true;
      return Conectou;
    }

    method Loop(now: Word32, a: SessionAnswers, ghost open: bool)
      requires Bound()
      modifies this, link
      ensures Bound() && link.View(open) == SessionLoopStep(old(link.View(open)), now, a)
    {
      if !configurado || suspenso { return; }
      libraryUp, conectado := libraryUp && a.alive, libraryUp && a.alive;
      if conectado {
        falhas := 0;
        estavaConectado := true;
        return;
      }
      if estavaConectado {
        estavaConectado, falhas, proximaTentativa := false, 0, now;
        link.ReportMqttSessionLost(open);
        return;
      }
      if link.state != Ready || link.httpLeased {
        ClearOpening(LinkGone, now, open);
        return;
      }
      if now < proximaTentativa { return; }
      Tentar(a, open);
    }

    /** One attempt, and what its outcome does to the retry fields. */
    method Tentar(a: SessionAnswers, ghost open: bool)
      requires Bound()
      modifies this, link
      ensures Bound() && link.View(open) == Retry(GsmProtocol.Conectar(old(link.View(open)), a), a)
    {
      var t := Conectar(a, open);
      match t {
        case Conectou =>
          falhas := 0;
        case Aguardando =>
          proximaTentativa := Later(a.tEnd, REAVALIAR_MS);
        case Falhou =>
          falhas, proximaTentativa := Bump(falhas, 4), Later(a.tEnd, SessionBackoffMs(falhas));
      }
    }
  }

  /** The part of GsmHttpClient that takes and gives back the lease. */
  class HttpLease {
    const link: GsmLink
    var open: bool

    constructor (link: GsmLink)
      ensures this.link == link && !open
    {
      this.link := link;
      open := false;
    }

    method Abrir(tcpOk: bool) returns (ok: bool)
      requires link.Wired()
      modifies link, link.gate
      ensures link.Wired() && link.gate == old(link.gate)
      ensures (link.View(open), ok) == GsmProtocol.Abrir(old(link.View(open)), tcpOk)
    {
      ok := link.AcquireForHttp(open);
      if !ok { return; }
      if !tcpOk {
        link.ReleaseHttp(open);
        ok := false;
      }
    }

    /** get, postJson and postStream differ only in what they write before the headers. */
    method Exchange(x: ExchangeAnswers)
      requires link.Wired()
      modifies link, link.gate
      ensures link.Wired() && link.gate == old(link.gate)
      ensures link.View(open) == HttpExchangeStep(old(link.View(open)), x)
    {
      if !x.urlOk { return; }
      var ok := Abrir(x.tcpOk);
      if !ok { return; }
      link.ReleaseHttp(open);
    }

    method EndDownload()
      requires link.Wired()
      modifies this, link, link.gate
      ensures link.Wired() && link.gate == old(link.gate)
      ensures link.View(open) == EndDownloadStep(old(link.View(open)))
    {
      if !open { return; }
      open := false;
      link.ReleaseHttp(open);
    }

    method BeginDownload(x: ExchangeAnswers)
      requires link.Wired()
      modifies this, link, link.gate
      ensures link.Wired() && link.gate == old(link.gate)
      ensures link.View(open) == BeginDownloadStep(old(link.View(open)), x)
    {
      EndDownload();
      if !x.urlOk { return; }
      var ok := Abrir(x.tcpOk);
      if !ok { return; }
      if !x.headersOk || !x.statusOk {
        link.ReleaseHttp(open);
        return;
      }
      open := true;
    }
  }

  method Dispatch(link: GsmLink, session: GsmMqttClient, http: HttpLease, e: Event)
    requires link.Wired() && link.gate == session && http.link == link
    modifies link, session, http
    ensures link.Wired() && link.gate == session
    ensures link.View(http.open) == Step(old(link.View(http.open)), e)
  {
    match e {
      case LinkLoop(now, a) => link.Loop(now, a, http.open);
      case SessionLoop(now, a) => session.Loop(now, a, http.open);
      case SessionBegin => session.Begin(http.open);
      case SessionEnd => session.End(http.open);
      case HttpExchange(x) => http.Exchange(x);
      case BeginDownload(x) => http.BeginDownload(x);
      case EndDownload => http.EndDownload();
    }
  }

  /** The device's loop: any events, in any order. The three objects, wired as the firmware
      wires them, are at every moment where the run of GsmProtocol is. */
  method Device(boot: Word32, start: Word32, events: seq<Event>) returns (link: GsmLink, http: HttpLease)
    ensures link.Wired() && http.link == link
    ensures link.View(http.open) == Run(Initial(boot, start), events)
    ensures Inv(link.View(http.open))
  {
    link := new GsmLink(boot, start);
    var session := new GsmMqttClient(link);
    link.SetMqttGate(session);
    http := new HttpLease(link);
    for i := 0 to |events|
      invariant link.Wired() && session == link.gate && session.Bound() && http.link == link
      invariant fresh(link) && fresh(session) && fresh(http)
      invariant link.View(http.open) == Run(Initial(boot, start), events[..i])
    {
      assert events[..i + 1][..i] == events[..i];
      Dispatch(link, session, http, events[i]);
    }
    assert events[..|events|] == events;
    EveryRunIsLawful(boot, start, events);
  }
}
