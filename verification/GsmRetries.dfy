/**
 Retries over whole runs: what the retry counter counts, and when the next attempt is due at once.
 */
module GsmRetries {
  import opened Words
  import opened GsmProtocol
  import opened GsmSafety
  import opened GsmAttempts

  // ------------------------------------------------- what starts the retries over

  /** A new configuration, a pass that finds a session, alive or just dropped, and a connection. */
  predicate StartsOver(s: System, e: Event) {
    e.SessionBegin? || (e.SessionLoop? && s.session.conectado) || Connects(s, e)
  }

  predicate AttemptFails(s: System, e: Event) {
    e.SessionLoop? && Attempts(s, e.now, e.session) && !SocketWaits(s, e.session) && !Connects(s, e)
  }

  /** Failed attempts since the retries last started over. */
  function FailedInARow(s: System, events: seq<Event>): nat {
    if events == [] then 0
    else
      var most, e := events[..|events| - 1], events[|events| - 1];
      if StartsOver(Run(s, most), e) then 0
      else FailedInARow(s, most) + if AttemptFails(Run(s, most), e) then 1 else 0
  }

  /** Over any run the retry counter is the number of attempts that failed in a row, capped at four:
      one session, be it short, and the table starts from its 3 s again. */
  lemma {:induction false} RetriesStartOver(boot: Word32, start: Word32, events: seq<Event>)
    ensures var s := Initial(boot, start); Run(s, events).session.falhas == Min(FailedInARow(s, events), 4)
  {
    if events != [] {
      var s, most := Initial(boot, start), events[..|events| - 1];
      RetriesStartOver(boot, start, most);
      EveryRunIsLawful(boot, start, most);
      CounterThroughStep(Run(s, most), events[|events| - 1]);
    }
  }

  lemma CounterThroughStep(s: System, e: Event)
    requires Inv(s)
    ensures Step(s, e).session.falhas ==
      if StartsOver(s, e) then 0 else if AttemptFails(s, e) then Bump(s.session.falhas, 4) else s.session.falhas
  {
    match e
    case LinkLoop(now, a) => LinkKeepsCounter(s, now, a);
    case SessionLoop(now, a) => CounterThroughPass(s, now, a);
    case HttpExchange(x) =>
      LeaseKeepsCounter(s, x.tcpOk);
      LeaseKeepsCounter(Abrir(s, x.tcpOk).0, true);
    case BeginDownload(x) =>
      var s0 := EndDownloadStep(s);
      LeaseKeepsCounter(s.(downloadOpen := false), true);
      LeaseKeepsCounter(s0, x.tcpOk);
      LeaseKeepsCounter(Abrir(s0, x.tcpOk).0, true);
    case EndDownload => LeaseKeepsCounter(s.(downloadOpen := false), true);
    case _ =>
  }

  lemma ReleaseFields(s: System)
    ensures var r, m := Release(s), s.session;
      && r.link == s.link.(httpLeased := false)
      && r.session == if s.link.httpLeased && m.suspenso then m.(suspenso := false, proximaTentativa := 0) else m
  {}

  lemma AcquireKeepsCounter(s: System)
    ensures Acquire(s).0.session.falhas == s.session.falhas
  {}

  lemma LeaseKeepsCounter(s: System, tcpOk: bool)
    ensures Abrir(s, tcpOk).0.session.falhas == Release(s).session.falhas == s.session.falhas
  {
    ReleaseFields(s);
    AcquireKeepsCounter(s);
    ReleaseFields(Acquire(s).0);
  }

  lemma ResetKeepsCounter(s: System, cause: ResetCause, after: Word32)
    ensures ResetModem(s, cause, after).session.falhas == s.session.falhas
  {}

  lemma LinkKeepsCounter(s: System, now: Word32, a: LinkAnswers)
    ensures LinkLoopStep(s, now, a).session.falhas == s.session.falhas
  {
    match s.link.state
    case Settling => DownKeepsCounter(s, now, a.after);
    case Network => NetworkKeepsCounter(s, now, a);
    case Attaching => AttachingKeepsCounter(s, now, a);
    case _ =>
  }

  lemma NetworkKeepsCounter(s: System, now: Word32, a: LinkAnswers)
    ensures NetworkStep(s, now, a).session.falhas == s.session.falhas
  {
    var waited := Elapsed(now, s.link.since);
    var s1 := s.(link := s.link.(netCheckMs := now));
    ResetKeepsCounter(s1, Denied(a.creg), a.after);
    ResetKeepsCounter(s1, StuckWithSignal(a.csq, waited), a.after);
    ResetKeepsCounter(s1, NoRegistration(waited), a.after);
  }

  lemma AttachingKeepsCounter(s: System, now: Word32, a: LinkAnswers)
    ensures AttachingStep(s, now, a).session.falhas == s.session.falhas
  {
    ResetKeepsCounter(s.(link := s.link.(compararIp := false)), SameIp(a.ip), a.after);
    ResetKeepsCounter(s, PdpNotUp(Elapsed(now, s.link.since)), a.after);
  }

  lemma CounterThroughPass(s: System, now: Word32, a: SessionAnswers)
    requires Core(s)
    ensures var e, n := SessionLoop(now, a), s.session.falhas;
      SessionLoopStep(s, now, a).session.falhas ==
        if s.session.conectado || Connects(s, e) then 0 else if AttemptFails(s, e) then Bump(n, 4) else n
  {
    if Attempts(s, now, a) {
      if SocketWaits(s, a) {
        WaitingCostsNothing(s, now, a);
      } else if Connects(s, SessionLoop(now, a)) {
        PassIsAttempt(s, now, a);
        SocketOutcome(NotePdp(s), a);
      } else {
        FailedAttemptIsPutOff(s, now, a);
      }
    }
  }

  // ------------------------------------------------------ what lets it try at once

  /** While the link is down or lent, a session is suspended or due. */
  predicate Prompt(s: System) {
    (s.link.httpLeased || s.link.state != Ready) && !s.session.suspenso ==> s.session.proximaTentativa == 0
  }

  /** The link is down or lent, or an HTTP client borrows it for the length of this very call. */
  predicate Interrupted(s: System, e: Event) {
    s.link.httpLeased || s.link.state != Ready || (e.HttpExchange? && e.x.urlOk) || (e.BeginDownload? && e.x.urlOk)
  }

  lemma AcquireFields(s: System)
    requires Core(s) && s.link.state == Ready && !s.link.httpLeased
    ensures var r, m := Acquire(s).0, s.session;
      && r.link == s.link.(httpLeased := true)
      && r.session ==
         m.(suspenso := true, estavaConectado := false, conectado := false, libraryUp := false, cipstartMs := 0)
  {
    SuspendKeeps(s);
  }

  /** Closed, not suspended and not put off. */
  predicate Due(m: Session) {
    !m.suspenso && !m.estavaConectado && !m.libraryUp && m.proximaTentativa == 0
  }

  lemma LeaseEndsPrompt(s: System)
    requires Core(s) && Prompt(s)
    ensures var r := Release(s); Prompt(r) && (s.link.httpLeased ==> r.link.state == Ready && Due(r.session))
  {
    ReleaseFields(s);
  }

  /** Borrowing the link and giving it back, or not. */
  lemma AbrirIsPrompt(s: System, tcpOk: bool)
    requires Core(s) && Prompt(s)
    ensures var (r, ok) := Abrir(s, tcpOk);
      && Core(r) && Prompt(r) && (ok ==> r.link.httpLeased)
      && (!ok && r.link.state == Ready && !r.link.httpLeased ==> Due(r.session))
  {
    AbrirHttpKeeps(s, tcpOk);
    if s.link.state == Ready && !s.link.httpLeased {
      AcquireFields(s);
      AcquireKeeps(s);
      LeaseEndsPrompt(Acquire(s).0);
    }
  }

  lemma ExchangeIsPrompt(s: System, x: ExchangeAnswers)
    requires Core(s) && Prompt(s)
    ensures var r := HttpExchangeStep(s, x);
      Prompt(r) && (x.urlOk && r.link.state == Ready && !r.link.httpLeased ==> Due(r.session))
  {
    AbrirIsPrompt(s, x.tcpOk);
    LeaseEndsPrompt(Abrir(s, x.tcpOk).0);
  }

  lemma EndDownloadIsPrompt(s: System)
    requires Core(s) && Prompt(s)
    ensures var r := EndDownloadStep(s);
      Core(r) && Prompt(r) && (s.link.httpLeased && !r.link.httpLeased ==> r.link.state == Ready && Due(r.session))
  {
    var s0 := s.(downloadOpen := false);
    ReleaseKeeps(s0);
    LeaseEndsPrompt(s0);
  }

  lemma BeginDownloadIsPrompt(s: System, x: ExchangeAnswers)
    requires Core(s) && Prompt(s)
    ensures var r := BeginDownloadStep(s, x);
      && Prompt(r)
      && ((s.link.httpLeased || x.urlOk) && r.link.state == Ready && !r.link.httpLeased ==> Due(r.session))
  {
    EndDownloadIsPrompt(s);
    var s0 := EndDownloadStep(s);
    AbrirIsPrompt(s0, x.tcpOk);
    LeaseEndsPrompt(Abrir(s0, x.tcpOk).0);
  }

  /** Both ways down leave the session suspended. */
  lemma DownSuspends(s: System, now: Word32, cause: ResetCause, after: Word32)
    ensures Fail(s, now).session.suspenso && ResetModem(s, cause, after).session.suspenso
    ensures Fail(s, now).link.state != Ready && ResetModem(s, cause, after).link.state != Ready
    ensures !Fail(s, now).link.httpLeased && !ResetModem(s, cause, after).link.httpLeased
  {}

  lemma LinkIsPrompt(s: System, now: Word32, a: LinkAnswers)
    requires Core(s) && Prompt(s)
    ensures var r := LinkLoopStep(s, now, a);
      Prompt(r) && (s.link.state != Ready && r.link.state == Ready ==> Due(r.session))
  {
    match s.link.state
    case Settling => DownSuspends(s, now, Ladder, a.after);
    case Network => NetworkIsPrompt(s, now, a);
    case Attaching => AttachingIsPrompt(s, now, a);
    case _ =>
  }

  lemma NetworkIsPrompt(s: System, now: Word32, a: LinkAnswers)
    requires Prompt(s) && s.link.state == Network
    ensures Prompt(NetworkStep(s, now, a)) && NetworkStep(s, now, a).link.state != Ready
  {
    var waited := Elapsed(now, s.link.since);
    var s1 := s.(link := s.link.(netCheckMs := now));
    DownSuspends(s1, now, Denied(a.creg), a.after);
    DownSuspends(s1, now, StuckWithSignal(a.csq, waited), a.after);
    DownSuspends(s1, now, NoRegistration(waited), a.after);
  }

  lemma AttachingIsPrompt(s: System, now: Word32, a: LinkAnswers)
    requires Core(s) && Prompt(s) && s.link.state == Attaching
    ensures var r := AttachingStep(s, now, a); Prompt(r) && (r.link.state == Ready ==> Due(r.session))
  {
    DownSuspends(s.(link := s.link.(compararIp := false)), now, SameIp(a.ip), a.after);
    DownSuspends(s, now, PdpNotUp(Elapsed(now, s.link.since)), a.after);
    PdpReadyFields(s, a.ip);
  }

  predicate DownIsSuspended(s: System) { !s.link.httpLeased && (s.link.state == Ready || s.session.suspenso) }

  lemma ReportSuspends(s: System, now: Word32, after: Word32)
    requires s.link.state == Ready && !s.link.httpLeased
    ensures DownIsSuspended(ReportTransportFailure(s, now, after))
  {
    var s1 := Emit(s.(link := s.link.(mqttFalhas := Bump(s.link.mqttFalhas, 255))), FailureCounted);
    DownSuspends(s1, now, Ladder, after);
    DownSuspends(s1.(link := s1.link.(refazerPdp := true)), now, Ladder, after);
  }

  lemma SocketSuspends(s: System, a: SessionAnswers)
    requires s.link.state == Ready && !s.link.httpLeased
    ensures var (r, t) := AbrirSocket(s, a); DownIsSuspended(r) && (t != Falhou ==> r.link == s.link)
  {
    var z := if s.session.cipstartMs != 0 then s
             else Emit(s.(session := s.session.(cipstartMs := a.tOpen)), OpenIssued(a.tOpen));
    var late := Elapsed(a.tEval, z.session.cipstartMs) >= CIPSTART_MAX_MS;
    ReportSuspends(Conclude(z, if late then Expired else NeitherState(a.status), a.tEval), a.tReport, a.tReset);
  }

  lemma AttemptSuspends(s: System, a: SessionAnswers)
    requires s.link.state == Ready && !s.link.httpLeased
    ensures DownIsSuspended(Conectar(s, a).0)
  {
    var s2 := NotePdp(s);
    assert s2.link == s.link;
    SocketSuspends(s2, a);
    var (r, t) := AbrirSocket(s2, a);
    if t == Conectou { ReportSuspends(r, a.tReport, a.tReset); }
  }

  /** A pass of the session does nothing to a link that is down or lent, and when it takes the link
      down itself, it is suspended for it. */
  lemma PassIsPrompt(s: System, now: Word32, a: SessionAnswers)
    requires Core(s) && Prompt(s)
    ensures var r := SessionLoopStep(s, now, a);
      Prompt(r) && (s.link.httpLeased || s.link.state != Ready ==> r.link == s.link)
  {
    if s.link.state == Ready && !s.link.httpLeased {
      var up := s.session.libraryUp && a.alive;
      AttemptSuspends(s.(session := s.session.(conectado := up, libraryUp := up)), a);
    }
  }

  lemma StepIsPrompt(s: System, e: Event)
    requires Inv(s) && Prompt(s)
    ensures var r := Step(s, e);
      Prompt(r) && (Interrupted(s, e) && r.link.state == Ready && !r.link.httpLeased ==> Due(r.session))
  {
    match e
    case LinkLoop(now, a) => LinkIsPrompt(s, now, a);
    case SessionLoop(now, a) => PassIsPrompt(s, now, a);
    case SessionBegin =>
    case SessionEnd =>
    case HttpExchange(x) => ExchangeIsPrompt(s, x);
    case BeginDownload(x) => BeginDownloadIsPrompt(s, x);
    case EndDownload => EndDownloadIsPrompt(s);
  }

  lemma {:induction false} AlwaysPrompt(boot: Word32, start: Word32, events: seq<Event>)
    ensures Prompt(Run(Initial(boot, start), events))
  {
    if events != [] {
      var most := events[..|events| - 1];
      EveryRunIsLawful(boot, start, most);
      AlwaysPrompt(boot, start, most);
      StepIsPrompt(Run(Initial(boot, start), most), events[|events| - 1]);
    }
  }

  /** In every run: once a PDP has come up, or HTTP has given the link back, the next pass of a
      configured session goes for the socket, whatever its clock reads and however long the wait was
      that the interruption cut off. */
  lemma InterruptionsEndAtOnce(boot: Word32, start: Word32, events: seq<Event>, e: Event, now: Word32,
                               a: SessionAnswers)
    ensures var s := Run(Initial(boot, start), events); var r := Step(s, e);
      Interrupted(s, e) && r.link.state == Ready && !r.link.httpLeased && r.session.configurado ==> Attempts(r, now, a)
  {
    EveryRunIsLawful(boot, start, events);
    AlwaysPrompt(boot, start, events);
    StepIsPrompt(Run(Initial(boot, start), events), e);
  }
}
