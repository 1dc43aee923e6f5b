/**
 One event at a time: what an attempt to connect comes to, in terms of the answers of modem and
 broker alone, and exactly which events end a pending opening or move the recovery ladder.
 */
module GsmAttempts {
  import opened Words
  import opened GsmProtocol
  import opened GsmSafety

  /** The socket neither opens nor is still opening, or MQTT over it fails in its transport. A
      refusal by the broker is neither. */
  predicate TransportFails(s: System, e: Event) {
    e.SessionLoop? && Attempts(s, e.now, e.session)
    && (if SocketOpens(s, e.session) then !e.session.mqttOk && e.session.mqttState < 0 else !SocketWaits(s, e.session))
  }

  predicate Connects(s: System, e: Event) {
    e.SessionLoop? && Attempts(s, e.now, e.session) && SocketOpens(s, e.session) && e.session.mqttOk
  }

  // ---------------------------------------------------------------- the attempt

  /** Where one counted failure takes the link. */
  predicate OneRungUp(l: Link, r: Link) {
    if l.mqttFalhas >= 4 then r.state == Settling && r.mqttFalhas == 0
    else r.mqttFalhas == l.mqttFalhas + 1 && r.state == (if l.mqttFalhas >= 2 then Backoff else Ready)
  }

  lemma ReportClimbs(s: System, now: Word32, after: Word32)
    requires s.link.state == Ready && !s.link.httpLeased && s.link.mqttFalhas <= 4
    ensures OneRungUp(s.link, ReportTransportFailure(s, now, after).link)
  {}

  /** What opening the socket comes to. Only a failure touches the link, by its report. */
  lemma SocketOutcome(s: System, a: SessionAnswers)
    requires s.link.state == Ready && !s.link.httpLeased && s.link.mqttFalhas <= 4
    ensures var (r, t) := AbrirSocket(s, a);
      && (t == Conectou <==> SocketOpens(s, a)) && (t == Aguardando <==> SocketWaits(s, a))
      && (if t == Falhou then OneRungUp(s.link, r.link) else r.link == s.link)
      && (t == Aguardando ==> r.session == s.session.(cipstartMs := Since(s, a)))
  {
    if !SocketOpens(s, a) && !SocketWaits(s, a) {
      var z := if s.session.cipstartMs != 0 then s
               else Emit(s.(session := s.session.(cipstartMs := a.tOpen)), OpenIssued(a.tOpen));
      var why := if Elapsed(a.tEval, Since(s, a)) < CIPSTART_MAX_MS then NeitherState(a.status) else Expired;
      ReportClimbs(Conclude(z, why, a.tEval), a.tReport, a.tReset);
      assert AbrirSocket(s, a).0 == ReportTransportFailure(Conclude(z, why, a.tEval), a.tReport, a.tReset);
    }
  }

  /** The pass of the session that gets as far as the socket. */
  lemma PassIsAttempt(s: System, now: Word32, a: SessionAnswers)
    requires Core(s) && Attempts(s, now, a)
    ensures SessionLoopStep(s, now, a) == Retry(Conectar(s, a), a)
    ensures var s2 := s.(session := s.session.(pdpDaTentativa := s.link.pdpSeq));
      && NotePdp(s) == s2 && SocketOpens(s2, a) == SocketOpens(s, a) && SocketWaits(s2, a) == SocketWaits(s, a)
  {
    NotePdpKeeps(s);
    assert s.(session := s.session.(conectado := false, libraryUp := false)) == s;
  }

  /** An opening still reported CONNECTING within its 75 s costs nothing and is not given up:
      neither link nor retry counter moves, and all that happens is the request itself, if it was
      made just now. */
  lemma WaitingCostsNothing(s: System, now: Word32, a: SessionAnswers)
    requires Core(s) && Attempts(s, now, a) && SocketWaits(s, a)
    ensures var r := SessionLoopStep(s, now, a);
      && r.link == s.link && r.session.falhas == s.session.falhas && r.session.cipstartMs == Since(s, a)
      && r.session.proximaTentativa == Later(a.tEnd, REAVALIAR_MS)
      && r.trace == s.trace + if s.session.cipstartMs == 0 then [OpenIssued(a.tOpen)] else []
  {
    PassIsAttempt(s, now, a);
    SocketOutcome(NotePdp(s), a);
  }

  /** The stamp marks a pending opening exactly when it is not zero. */
  lemma StampMarksTheOpening(s: System, a: SessionAnswers)
    requires s.session.cipstartMs == 0 && Conectar(s, a).1 == Aguardando
    ensures Conectar(s, a).0.session.cipstartMs != 0 <==> a.tOpen != 0
  {}

  /** A failed attempt, be it the transport's or the broker's, puts off the next one by 3, 8, 15 or
      30 s after its end. */
  lemma FailedAttemptIsPutOff(s: System, now: Word32, a: SessionAnswers)
    requires Core(s) && Attempts(s, now, a) && !SocketWaits(s, a) && !Connects(s, SessionLoop(now, a))
    ensures var r := SessionLoopStep(s, now, a).session;
      && r.falhas == Bump(s.session.falhas, 4)
      && r.proximaTentativa == Later(a.tEnd, SessionBackoffMs(s.session.falhas))
  {
    PassIsAttempt(s, now, a);
    var s2 := NotePdp(s);
    SocketOutcome(s2, a);
    SocketKeepsCounter(s2, a);
    ReportKeepsCounter(AbrirSocket(s2, a).0, a.tReport, a.tReset);
  }

  lemma DownKeepsCounter(s: System, now: Word32, after: Word32)
    ensures Fail(s, now).session.falhas == ResetModem(s, Ladder, after).session.falhas == s.session.falhas
  {}

  lemma ReportKeepsCounter(s: System, now: Word32, after: Word32)
    ensures ReportTransportFailure(s, now, after).session.falhas == s.session.falhas
  {
    var l := s.link.(mqttFalhas := Bump(s.link.mqttFalhas, 255));
    var s1 := Emit(s.(link := l), FailureCounted);
    DownKeepsCounter(s1, now, after);
    DownKeepsCounter(s1.(link := l.(refazerPdp := true)), now, after);
  }

  lemma SocketKeepsCounter(s: System, a: SessionAnswers)
    ensures AbrirSocket(s, a).0.session.falhas == s.session.falhas
  {
    if !SocketOpens(s, a) && !SocketWaits(s, a) {
      var z := if s.session.cipstartMs != 0 then s
               else Emit(s.(session := s.session.(cipstartMs := a.tOpen)), OpenIssued(a.tOpen));
      var why := if Elapsed(a.tEval, Since(s, a)) < CIPSTART_MAX_MS then NeitherState(a.status) else Expired;
      ReportKeepsCounter(Conclude(z, why, a.tEval), a.tReport, a.tReset);
      assert AbrirSocket(s, a).0 == ReportTransportFailure(Conclude(z, why, a.tEval), a.tReport, a.tReset);
    }
  }

  /** And put off it is: while the link stays up and to itself, passes before that time do nothing,
      to nothing. */
  lemma {:induction false} NoAttemptEarly(s: System, events: seq<Event>)
    requires Inv(s) && s.link.state == Ready && !s.link.httpLeased && !s.session.conectado
    requires forall i :: 0 <= i < |events| ==> Idle(s, events[i])
    ensures Run(s, events) == s
  {
    if events != [] { NoAttemptEarly(s, events[..|events| - 1]); }
  }

  predicate Idle(s: System, e: Event) {
    e.LinkLoop? || e.EndDownload? || (e.SessionLoop? && e.now < s.session.proximaTentativa)
  }

  // -------------------------------------------------------- what ends an opening

  predicate PendingSurvives(s: System, e: Event) {
    match e
    case LinkLoop(_, _) => true
    case SessionLoop(now, a) => !Attempts(s, now, a) || SocketWaits(s, a)
    case SessionBegin => true
    case SessionEnd => false
    case HttpExchange(x) => !x.urlOk
    case BeginDownload(x) => !x.urlOk
    case EndDownload => true
  }

  /** A pending opening is dropped exactly when its owner ends the session, HTTP takes the link, or
      an attempt finds that it is open, neither open nor opening, or 75 s old. */
  lemma PendingEndsExactlyWhen(s: System, e: Event)
    requires Inv(s) && s.session.cipstartMs != 0
    ensures Step(s, e).session.cipstartMs == (if PendingSurvives(s, e) then s.session.cipstartMs else 0)
  {
    match e
    case SessionLoop(now, a) => PendingThroughPass(s, now, a);
    case LinkLoop(_, _) =>
    case SessionBegin =>
    case SessionEnd =>
    case HttpExchange(_) =>
    case BeginDownload(_) =>
    case EndDownload =>
  }

  lemma PendingThroughPass(s: System, now: Word32, a: SessionAnswers)
    requires Core(s) && s.session.cipstartMs != 0
    ensures SessionLoopStep(s, now, a).session.cipstartMs ==
      if Attempts(s, now, a) && !SocketWaits(s, a) then 0 else s.session.cipstartMs
  {
    if Attempts(s, now, a) {
      PassIsAttempt(s, now, a);
      var s2 := NotePdp(s);
      SocketOutcome(s2, a);
      assert Opening(s2) by { NotePdpKeeps(s); }
      if !SocketWaits(s, a) { SettledStaysSettled(s2, a); }
    }
  }

  lemma ReportLeavesNothingPending(s: System, now: Word32, after: Word32)
    requires s.session.cipstartMs == 0
    ensures ReportTransportFailure(s, now, after).session.cipstartMs == 0
  {}

  lemma SettledStaysSettled(s: System, a: SessionAnswers)
    requires s.link.state == Ready && !s.link.httpLeased && s.session.cipstartMs != 0 && !SocketWaits(s, a)
    ensures var (r, t) := AbrirSocket(s, a);
      r.session.cipstartMs == 0 && (t == Conectou ==> OpenSession(r, a).0.session.cipstartMs == 0)
  {
    if SocketOpens(s, a) {
      ReportLeavesNothingPending(AbrirSocket(s, a).0, a.tReport, a.tReset);
    } else {
      var why := if Elapsed(a.tEval, s.session.cipstartMs) < CIPSTART_MAX_MS then NeitherState(a.status) else Expired;
      ReportLeavesNothingPending(Conclude(s, why, a.tEval), a.tReport, a.tReset);
    }
  }

  // ------------------------------------------------------ what moves the ladder

  /** A pass of the session moves the link exactly when the transport fails, one rung up, and when
      MQTT connects, back to the foot of the ladder. A refusal by the broker, a wait and a session
      that dropped leave it as it was. */
  lemma LadderMovesExactlyWhen(s: System, now: Word32, a: SessionAnswers)
    requires Core(s)
    ensures var e, r := SessionLoop(now, a), SessionLoopStep(s, now, a).link;
      && (TransportFails(s, e) ==> OneRungUp(s.link, r))
      && (Connects(s, e) ==> r == s.link.(mqttFalhas := 0, resetsModem := 0))
      && (!TransportFails(s, e) && !Connects(s, e) ==> r == s.link)
  {
    if Attempts(s, now, a) {
      PassIsAttempt(s, now, a);
      AttemptMovesLadder(NotePdp(s), a);
    }
  }

  lemma AttemptMovesLadder(s: System, a: SessionAnswers)
    requires s.link.state == Ready && !s.link.httpLeased && s.link.mqttFalhas <= 4
    ensures var (r, t) := AbrirSocket(s, a); var l := if t == Conectou then OpenSession(r, a).0.link else r.link;
      if SocketOpens(s, a) then
        if a.mqttOk then l == s.link.(mqttFalhas := 0, resetsModem := 0)
        else if a.mqttState < 0 then OneRungUp(s.link, l) else l == s.link
      else if SocketWaits(s, a) then l == s.link
      else OneRungUp(s.link, l)
  {
    SocketOutcome(s, a);
    var (r, t) := AbrirSocket(s, a);
    if t == Conectou { ReportClimbs(r, a.tReport, a.tReset); }
  }

  predicate CountKept(l: Link, r: Link) {
    r.mqttFalhas == l.mqttFalhas || (r.mqttFalhas == 0 && r.state == Settling)
  }

  lemma FailKeepsTheCount(s: System, now: Word32)
    ensures CountKept(s.link, Fail(s, now).link)
  {}

  lemma ResetClearsTheCount(s: System, cause: ResetCause, after: Word32)
    ensures ResetModem(s, cause, after).link.mqttFalhas == 0 && ResetModem(s, cause, after).link.state == Settling
  {}

  lemma LinkDoesNotClimb(s: System, now: Word32, a: LinkAnswers)
    ensures CountKept(s.link, LinkLoopStep(s, now, a).link)
  {
    match s.link.state
    case Settling => FailKeepsTheCount(s, now);
    case Network => NetworkDoesNotClimb(s, now, a);
    case Attaching => AttachingDoesNotClimb(s, now, a);
    case _ =>
  }

  lemma NetworkDoesNotClimb(s: System, now: Word32, a: LinkAnswers)
    ensures CountKept(s.link, NetworkStep(s, now, a).link)
  {
    var waited := Elapsed(now, s.link.since);
    var s1 := s.(link := s.link.(netCheckMs := now));
    ResetClearsTheCount(s1, Denied(a.creg), a.after);
    ResetClearsTheCount(s1, StuckWithSignal(a.csq, waited), a.after);
    ResetClearsTheCount(s1, NoRegistration(waited), a.after);
  }

  lemma AttachingDoesNotClimb(s: System, now: Word32, a: LinkAnswers)
    ensures CountKept(s.link, AttachingStep(s, now, a).link)
  {
    ResetClearsTheCount(s.(link := s.link.(compararIp := false)), SameIp(a.ip), a.after);
    ResetClearsTheCount(s, PdpNotUp(Elapsed(now, s.link.since)), a.after);
  }

  lemma LeaseDoesNotClimb(s: System, tcpOk: bool)
    ensures Abrir(s, tcpOk).0.link.mqttFalhas == Release(s).link.mqttFalhas == s.link.mqttFalhas
  {}

  /** Nothing else counts: other events leave the count alone, except that a reset clears it. */
  lemma OthersDoNotClimb(s: System, e: Event)
    requires !e.SessionLoop?
    ensures if e.LinkLoop? then CountKept(s.link, Step(s, e).link) else Step(s, e).link.mqttFalhas == s.link.mqttFalhas
  {
    match e
    case LinkLoop(now, a) => LinkDoesNotClimb(s, now, a);
    case HttpExchange(x) =>
      LeaseDoesNotClimb(s, x.tcpOk);
      LeaseDoesNotClimb(Abrir(s, x.tcpOk).0, true);
    case BeginDownload(x) =>
      var s0 := EndDownloadStep(s);
      LeaseDoesNotClimb(s.(downloadOpen := false), true);
      LeaseDoesNotClimb(s0, x.tcpOk);
      LeaseDoesNotClimb(Abrir(s0, x.tcpOk).0, true);
    case EndDownload => LeaseDoesNotClimb(s.(downloadOpen := false), true);
    case _ =>
  }

  /** A session that drops is noted, and that is all the link learns of it. */
  lemma DropIsOnlyNoted(s: System, now: Word32, a: SessionAnswers)
    requires Core(s) && s.session.conectado && !a.alive
    ensures var r := SessionLoopStep(s, now, a);
      && r.link == s.link && r.trace == s.trace + [SessionLost]
      && !r.session.conectado && r.session.falhas == 0 && r.session.proximaTentativa == now
  {}
}
