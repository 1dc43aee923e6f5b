/**
 One call at a time: where each call of the link's loop takes it, what a pass leaves of a session
 that is up, and what a download comes to, in the numbers and answers themselves.
 */
module GsmDecisions {
  import opened Words
  import opened GsmProtocol
  import opened GsmSafety
  import opened GsmAttempts
  import opened GsmRetries

  // ------------------------------------------------------------------- the link's loop

  /** How long the link has been in its state. */
  function Waited(l: Link, now: Word32): Word32 { Elapsed(now, l.since) }

  /** The time given to the modem before it is first asked: three seconds after a reset, and what the
      board needs after power-on. */
  function Settle(l: Link): Word32 { if l.settleMs == 0 then l.bootSettleMs else l.settleMs }

  /** Settling: once its time is over the modem is asked, for 20 s more; then the link gives up. The sum
      of both is one of 32 bits. */
  lemma SettlingGoes(s: System, now: Word32, a: LinkAnswers)
    requires s.link.state == Settling
    ensures var waited, settle := Waited(s.link, now), Settle(s.link);
      var r, limit := Step(s, LinkLoop(now, a)), (settle + 20000) % 0x1_0000_0000;
      && (r.link.state == Init <==> settle <= waited <= limit && a.testAt)
      && (r.link.state == Backoff <==> waited >= settle && waited > limit)
      && (r.link.state == Init ==> r == s.(link := s.link.(state := Init, since := now)))
      && (r.link.state != Init && r.link.state != Backoff ==> r == s)
  {
    SettlingGoesBy(s, now, a, Later(Settle(s.link), 20000));
    ClockArithmetic(Settle(s.link), 20000);
  }

  lemma SettlingGoesBy(s: System, now: Word32, a: LinkAnswers, limit: Word32)
    requires s.link.state == Settling && limit == Later(Settle(s.link), 20000)
    ensures var waited, settle, r := Waited(s.link, now), Settle(s.link), SettlingStep(s, now, a);
      && (r.link.state == Init <==> settle <= waited <= limit && a.testAt)
      && (r.link.state == Backoff <==> waited >= settle && waited > limit)
      && (r.link.state == Init ==> r == s.(link := s.link.(state := Init, since := now)))
      && (r.link.state != Init && r.link.state != Backoff ==> r == s)
  {}

  /** Init and Backoff. */
  lemma InitAndBackoffGo(s: System, now: Word32, a: LinkAnswers)
    ensures var r := Step(s, LinkLoop(now, a));
      && (s.link.state == Init ==> r == s.(link := s.link.(state := Network, since := now, netCheckMs := now)))
      && (s.link.state == Backoff && now < s.link.nextTry ==> r == s)
      && (s.link.state == Backoff && now >= s.link.nextTry ==>
           r == s.(link := s.link.(state := Init, since := now), trace := s.trace + [LinkRetries(now)]))
      && (s.link.state == Ready || s.link.state == Off ==> r == s)
  {}

  /** When Network calls for a reset: registration denied; or stuck for 20 s with a signal; or a minute
      without registration. It looks every three seconds. */
  predicate NetworkFails(l: Link, now: Word32, a: LinkAnswers) {
    && !a.registered && Elapsed(now, l.netCheckMs) >= 3000
    && (a.creg == 3 || (a.csq >= 15 && a.csq != 99 && Waited(l, now) >= 20000) || Waited(l, now) > 60000)
  }

  lemma NetworkGoes(s: System, now: Word32, a: LinkAnswers)
    requires s.link.state == Network
    ensures var r := Step(s, LinkLoop(now, a));
      && (r.link.state == Attaching <==> a.registered)
      && (r.link.state == Settling <==> NetworkFails(s.link, now, a))
      && (r.link.state == Attaching ==> r == s.(link := s.link.(state := Attaching, since := now)))
      && (r.link.state != Attaching && r.link.state != Settling ==>
           var looked := Elapsed(now, s.link.netCheckMs) >= 3000;
           r == s.(link := s.link.(netCheckMs := if looked then now else s.link.netCheckMs)))
  {
    NetworkResets(s, now, a);
  }

  lemma NetworkResets(s: System, now: Word32, a: LinkAnswers)
    requires s.link.state == Network
    ensures NetworkFails(s.link, now, a) ==> NetworkStep(s, now, a).link.state == Settling
  {
    var waited, s1 := Waited(s.link, now), s.(link := s.link.(netCheckMs := now));
    ResetClearsTheCount(s1, Denied(a.creg), a.after);
    ResetClearsTheCount(s1, StuckWithSignal(a.csq, waited), a.after);
    ResetClearsTheCount(s1, NoRegistration(waited), a.after);
  }

  /** The address that a PDP may not come back with, once torn down on purpose. */
  predicate SameAddress(l: Link, a: LinkAnswers) { l.compararIp && a.ip != 0 && a.ip == l.ipAnterior }

  /** A PDP is taken into use exactly when the modem says that it is up, with an acceptable address; the
      modem is reset exactly when the address is the old one, or none has come up for 25 s. */
  lemma AttachingGoes(s: System, now: Word32, a: LinkAnswers)
    requires s.link.state == Attaching && !s.link.refazerPdp
    ensures var r := Step(s, LinkLoop(now, a));
      && (r.link.state == Ready <==> a.pdpUp && !SameAddress(s.link, a))
      && (r.link.state == Settling <==> if a.pdpUp then SameAddress(s.link, a) else Waited(s.link, now) > 25000)
      && (r.link.state != Ready && r.link.state != Settling ==> r == s)
  {
    ResetClearsTheCount(s.(link := s.link.(compararIp := false)), SameIp(a.ip), a.after);
    ResetClearsTheCount(s, PdpNotUp(Waited(s.link, now)), a.after);
  }

  /** What an attempt at the socket comes to: it opens when TinyGSM has it open, when a new opening
      succeeds, or when the modem says CONNECTED within 75 s of the request; it goes on opening when the
      modem says CONNECTING within 75 s; and otherwise it has failed. */
  lemma OpeningGoes(s: System, a: SessionAnswers)
    requires Lendable(s.link) && s.link.mqttFalhas <= 4
    ensures var t := AbrirSocket(s, a).1;
      var since := if s.session.cipstartMs == 0 then a.tOpen else s.session.cipstartMs;
      var connected := a.socketUp || (s.session.cipstartMs == 0 && a.tcpOpened);
      var inTime := Elapsed(a.tEval, since) < 75000;
      && (t == Conectou <==> connected || (a.status == Conectado && inTime))
      && (t == Aguardando <==> !connected && a.status == Abrindo && inTime)
  {
    SocketOutcome(s, a);
  }

  /** The waits of the link and of the session, after failures, after a reset, and between two looks at
      an opening. */
  lemma WaitsAre(n: nat)
    ensures LinkBackoffMs(n) == [2000, 5000, 15000, 30000][Min(n, 3)]
    ensures SessionBackoffMs(n) == [3000, 8000, 15000, 30000][Min(n, 3)]
    ensures SETTLE_RESET_MS == 3000 && REAVALIAR_MS == 1000
  {}

  // ------------------------------------------------------------------ a session that is up

  /** A pass of a connected session asks once whether it is alive: if so nothing changes but the retry
      counter, and if not it is dropped, noted once, and due again at once. */
  lemma LiveSessionStays(s: System, now: Word32, a: SessionAnswers)
    requires Core(s) && s.session.conectado
    ensures var r, m := Step(s, SessionLoop(now, a)), s.session;
      if a.alive then r == s.(session := m.(falhas := 0))
      else r == s.(session := m.(conectado := false, libraryUp := false, estavaConectado := false, falhas := 0,
                                 proximaTentativa := now),
                   trace := s.trace + [SessionLost])
  {
    var m := s.session;
    assert s.(session := m.(falhas := 0)).session == m.(falhas := 0, estavaConectado := true);
  }

  /** Nothing that could end a session: no pass finds it dead, nobody ends it, HTTP does not ask. */
  predicate LeavesSessionsAlone(e: Event) {
    match e
    case SessionLoop(_, a) => a.alive
    case SessionEnd => false
    case HttpExchange(x) => !x.urlOk
    case BeginDownload(x) => !x.urlOk
    case _ => true
  }

  /** Over any such events a connected session stays connected, the link stays as it is, and nothing
      at all happens on the modem: no SessionLost, no second socket. */
  lemma {:induction false} SessionStaysUp(s: System, events: seq<Event>)
    requires Inv(s) && s.session.conectado
    requires forall i :: 0 <= i < |events| ==> LeavesSessionsAlone(events[i])
    ensures var r := Run(s, events); Inv(r) && r.session.conectado && r.link == s.link && r.trace == s.trace
  {
    if events != [] {
      var most, e := events[..|events| - 1], events[|events| - 1];
      SessionStaysUp(s, most);
      StepKeeps(Run(s, most), e);
      SessionOutlives(Run(s, most), e);
    }
  }

  lemma SessionOutlives(s: System, e: Event)
    requires Inv(s) && s.session.conectado && LeavesSessionsAlone(e)
    ensures var r := Step(s, e); r.session.conectado && r.link == s.link && r.trace == s.trace
  {
    if e.SessionLoop? { LiveSessionStays(s, e.now, e.session); }
  }

  /** Configuring makes the session due at once; ending it closes it and leaves nothing pending. */
  lemma BeginAndEnd(s: System)
    requires Core(s)
    ensures Step(s, SessionBegin) ==
      s.(session := s.session.(configurado := true, suspenso := false, proximaTentativa := 0, falhas := 0))
    ensures var r, m := Step(s, SessionEnd), s.session;
      && r.link == s.link && r.downloadOpen == s.downloadOpen
      && r.session == m.(configurado := false, conectado := false, estavaConectado := false, libraryUp := false,
                         cipstartMs := 0)
      && (!m.conectado && m.cipstartMs == 0 ==> r.trace == s.trace)
  {}

  /** A session that is not configured, or suspended, is left alone. */
  lemma IdleSessionStays(s: System, now: Word32, a: SessionAnswers)
    requires !s.session.configurado || s.session.suspenso
    ensures Step(s, SessionLoop(now, a)) == s
  {}

  /** An opening belongs to the PDP and to the link it was asked for in: with another PDP it is not
      looked at again, and without the link it is forgotten. (No run gets there: what ends a PDP
      suspends the session, and that drops the opening first.) */
  lemma PendingDiesWithItsPdp(s: System, now: Word32, a: SessionAnswers)
    requires s.session.configurado && !s.session.suspenso && !s.session.libraryUp && !s.session.estavaConectado
    requires s.session.cipstartMs != 0
    ensures s.session.pdpDaTentativa != s.link.pdpSeq ==> NotePdp(s).session.cipstartMs == 0
    ensures !Lendable(s.link) ==>
      Step(s, SessionLoop(now, a)).session == s.session.(conectado := false, cipstartMs := 0)
  {}

  // --------------------------------------------------------------------------- HTTP

  predicate Lendable(l: Link) { l.state == Ready && !l.httpLeased }

  /** The link is lent exactly when it is up and not lent yet, with the session closed first. */
  lemma LentExactlyWhen(s: System)
    requires Core(s)
    ensures var (r, ok) := Acquire(s);
      && (ok <==> Lendable(s.link)) && (!ok ==> r == s)
      && (ok ==> r.link == s.link.(httpLeased := true) && r.session.suspenso && !r.session.conectado)
  {
    if Lendable(s.link) { AcquireFields(s); }
  }

  lemma OpenedExactlyWhen(s: System, tcpOk: bool)
    requires Core(s)
    ensures var (r, ok) := Abrir(s, tcpOk);
      && (ok <==> Lendable(s.link) && tcpOk) && r.downloadOpen == s.downloadOpen
      && (r.link.httpLeased <==> ok || s.link.httpLeased) && r.link.state == s.link.state
  {
    LentExactlyWhen(s);
    AbrirHttpKeeps(s, tcpOk);
    ReleaseFields(Acquire(s).0);
  }

  /** A download is open exactly when the URL was good, the link could be lent once an earlier download
      had given it back, the TCP connection opened, and headers and status were good; and then the
      link is lent. */
  lemma DownloadOpensExactlyWhen(s: System, x: ExchangeAnswers)
    requires Inv(s)
    ensures var r := Step(s, BeginDownload(x));
      && (r.downloadOpen <==> x.urlOk && s.link.state == Ready && x.tcpOk && x.headersOk && x.statusOk)
      && (r.link.httpLeased <==> r.downloadOpen) && r.link.state == s.link.state
  {
    BeginDownloadKeeps(s, x);
    EndDownloadKeeps(s);
    var s0 := EndDownloadStep(s);
    ReleaseFields(s.(downloadOpen := false));
    OpenedExactlyWhen(s0, x.tcpOk);
    AbrirHttpKeeps(s0, x.tcpOk);
    ReleaseKeeps(Abrir(s0, x.tcpOk).0);
    ReleaseFields(Abrir(s0, x.tcpOk).0);
  }

  /** A request leaves the lease as it found it, and closes the session exactly when it got the link. */
  lemma ExchangeLeavesNothing(s: System, x: ExchangeAnswers)
    requires Inv(s)
    ensures var r := Step(s, HttpExchange(x));
      && r.link == s.link && r.downloadOpen == s.downloadOpen
      && (x.urlOk && Lendable(s.link) ==> !r.session.conectado && r.session.cipstartMs == 0 && !r.session.suspenso)
      && (!x.urlOk || !Lendable(s.link) ==> r == s)
  {
    if x.urlOk && Lendable(s.link) {
      AcquireFields(s);
      ReleaseFields(Acquire(s).0);
      ReleaseFields(Abrir(s, x.tcpOk).0);
    }
  }
}
