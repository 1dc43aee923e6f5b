/**
 Safety of the link, the session and the lease over every run.

 `Observer` is a reference automaton that sees only the actions, never the fields of the
 objects. It says which action is lawful when. The invariant ties its state to the fields,
 and the main theorem is that every run of the firmware is lawful.
 */
module GsmSafety {
  import opened Words
  import opened GsmProtocol

  // --------------------------------------------------------- reference automaton

  datatype Observer = Observer(
    up: bool,                   // a PDP context is in use
    leased: bool,               // HTTP has the link
    connected: bool,            // an MQTT session is open
    pending: Option<Word32>,    // a socket opening with no outcome yet, and when it was asked for
    failures: nat,              // counted transport failures since the last connection or reset
    mustRedo: bool,             // the PDP has to be torn down before it may be used again
    tornDown: bool,             // torn down since the last time one came up, with no reset between
    lastIp: Word32,             // address of the last PDP that came up
    resets: nat,                // modem resets since the last connection
    downs: nat,                 // times the link gave up since a PDP last came up
    retryAt: Option<Word32>,    // the link has given up and waits until then
    overlooked: bool)           // something needed an opening to be over that had no outcome yet

  const START := Observer(false, false, false, None, 0, false, false, 0, 0, 0, None, false)

  /** What is lawful only with no opening under way finds one all the same. */
  predicate Overlooks(o: Observer) { o.overlooked || o.pending.Some? }

  function Observe(o: Observer, a: Action): Observer {
    match a
    case OpenIssued(t) => o.(pending := Some(t), overlooked := Overlooks(o))
    case OpenResolved(_, _) => o.(pending := None)
    case MqttConnected => o.(connected := true, failures := 0, resets := 0, overlooked := Overlooks(o))
    case MqttClosed => o.(connected := false)
    case SessionLost => o.(connected := false)
    case FailureCounted =>
      o.(failures := o.failures + 1, mustRedo := o.mustRedo || 3 <= o.failures + 1 <= 4, overlooked := Overlooks(o))
    case LinkFailed(at, wait) =>
      o.(up := false, downs := o.downs + 1, retryAt := Some(Later(at, wait)), overlooked := Overlooks(o))
    case LinkRetries(_) => o.(retryAt := None)
    case ModemReset(_, _) =>
      o.(up := false, failures := 0, mustRedo := false, tornDown := false, resets := o.resets + 1,
         overlooked := Overlooks(o))
    case PdpTornDown => o.(mustRedo := false, tornDown := true)
    case PdpUp(ip) => o.(up := true, tornDown := false, lastIp := ip, downs := 0)
    case LeaseTaken => o.(leased := true, overlooked := Overlooks(o))
    case LeaseReturned => o.(leased := false, overlooked := Overlooks(o))
  }

  /** When an opening asked for at `since` may be taken as over: TinyGSM or the modem says that it
      is open, the modem says that it is neither open nor opening, 75 s have gone, or HTTP or the
      session's owner takes the socket away. It never outlives its PDP or its link. */
  predicate Settles(why: Resolution, when: Word32, since: Word32) {
    match why
    case Opened(returned) => returned
    case AlreadyOpen(socketUp) => socketUp
    case ConfirmedLate(answer) => answer == Conectado && Elapsed(when, since) < CIPSTART_MAX_MS
    case NeitherState(answer) => answer != Conectado && answer != Abrindo && Elapsed(when, since) < CIPSTART_MAX_MS
    case Expired => Elapsed(when, since) >= CIPSTART_MAX_MS
    case PdpGone => false
    case LinkGone => false
    case Suspended => true
    case Ended => true
  }

  /** What a reset needs: registration denied, 20 s stuck with a good signal, a minute without
      registration, a PDP redone in vain, 25 s without one, or the ladder. */
  predicate Grounds(o: Observer, cause: ResetCause) {
    match cause
    case Denied(creg) => creg == 3
    case StuckWithSignal(csq, waited) => 15 <= csq && csq != 99 && waited >= NET_SINAL_BOM_MS
    case NoRegistration(waited) => waited > NETWORK_MS
    case SameIp(ip) => o.tornDown && ip != 0 && ip == o.lastIp
    case PdpNotUp(waited) => waited > ATTACH_MS
    case Ladder => o.failures == 5
  }

  /** Nothing is pending but, at most, an opening stamped 0: that stamp marks nothing in the source. */
  predicate Free(o: Observer) { o.pending.None? || o.pending == Some(0) }

  /** The rules. The fifth counted failure must be answered by the ladder's reset at once, and a link
      that has given up does nothing at all before the wait it announced is over. */
  predicate Allowed(o: Observer, a: Action) {
    && (o.failures == 5 <==> a.ModemReset? && a.cause == Ladder)
    && (o.retryAt.Some? <==> a.LinkRetries?)
    && match a
       case OpenIssued(_) => o.up && !o.leased && !o.connected && Free(o)
       case OpenResolved(why, when) => o.pending.Some? && Settles(why, when, o.pending.value)
       case MqttConnected => o.up && !o.leased && !o.connected && Free(o)
       case MqttClosed => o.connected
       case SessionLost => o.connected && o.up && !o.leased
       case FailureCounted => o.up && !o.leased && !o.connected && Free(o)
       case LinkFailed(_, wait) => !o.leased && !o.connected && Free(o) && wait == LinkBackoffMs(o.downs)
       case LinkRetries(at) => !o.up && !o.leased && o.retryAt.Some? && at >= o.retryAt.value
       case ModemReset(cause, full) =>
         && Grounds(o, cause) && !o.leased && !o.connected && Free(o)
         && (full <==> o.resets < 255 && o.resets % 2 == 0)
       case PdpTornDown => o.failures >= 3 && o.mustRedo && !o.up && !o.leased && !o.connected
       case PdpUp(ip) =>
         && !o.up && !o.leased && !o.connected && !o.mustRedo
         && !(o.tornDown && ip != 0 && ip == o.lastIp)
       case LeaseTaken => o.up && !o.leased && !o.connected && Free(o)
       case LeaseReturned => o.up && o.leased && !o.connected && Free(o)
  }

  ghost function Watch(t: seq<Action>): Observer {
    if t == [] then START else Observe(Watch(t[..|t| - 1]), t[|t| - 1])
  }

  ghost predicate Lawful(t: seq<Action>) {
    t == [] || (Lawful(t[..|t| - 1]) && Allowed(Watch(t[..|t| - 1]), t[|t| - 1]))
  }

  // ------------------------------------------------------------------- invariant

  /** What the fields say about each other, between two steps and inside them. */
  predicate FieldsAgree(s: System) {
    var l, m := s.link, s.session;
    && l.state != Off
    && (l.httpLeased ==> l.state == Ready && !m.conectado && m.cipstartMs == 0)
    && (m.conectado ==> l.state == Ready && !l.httpLeased && !m.suspenso && m.configurado)
    && (m.suspenso ==> (l.httpLeased || l.pausedByFail) && m.cipstartMs == 0)
    && (m.cipstartMs != 0 ==> l.state == Ready && !l.httpLeased && !m.conectado && m.pdpDaTentativa == l.pdpSeq)
    && (l.pausedByFail ==> l.state != Ready)
    && (l.refazerPdp ==> l.state != Settling && l.state != Ready && l.mqttFalhas >= 3)
    && (l.compararIp ==> l.state == Attaching)
    && m.conectado == m.estavaConectado == m.libraryUp
    && l.mqttFalhas <= 4
    && l.failures <= 4 && l.resetsModem <= 255
  }

  /** What the fields record of the automaton's state; the numbers of resets and of downs are capped
      in them, and a pending opening is marked by its stamp. */
  function Shadow(l: Link, m: Session, o: Observer): Observer {
    o.(up := l.state == Ready, leased := l.httpLeased, connected := m.conectado,
       failures := l.mqttFalhas, mustRedo := l.refazerPdp, tornDown := l.compararIp, lastIp := l.ipAnterior,
       retryAt := if l.state == Backoff then Some(l.nextTry) else None)
  }

  /** A stamp that is not zero is that of the pending opening; with no stamp, nothing is pending but
      what the stamp cannot tell. */
  predicate Marked(o: Observer, m: Session) {
    if m.cipstartMs == 0 then Free(o) else o.pending == Some(m.cipstartMs)
  }

  /** The automaton, having watched the actions, knows what the fields record. */
  ghost predicate Coupled(s: System) {
    var o := Watch(s.trace);
    && o == Shadow(s.link, s.session, o) && Marked(o, s.session)
    && s.link.resetsModem == Min(o.resets, 255) && s.link.failures == Min(o.downs, 4)
  }

  ghost predicate Core(s: System) { FieldsAgree(s) && Coupled(s) && Lawful(s.trace) }

  /** Between steps the lease is held exactly while a download is open. */
  ghost predicate Inv(s: System) { Core(s) && s.link.httpLeased == s.downloadOpen }

  /** No opening is lost sight of, now or before: what is pending is exactly what the stamp marks. */
  ghost predicate Tracked(s: System) { Watch(s.trace).pending != Some(0) && !Watch(s.trace).overlooked }

  ghost predicate Exact(s: System) { Inv(s) && Tracked(s) }

  // ------------------------------------------- what decides an attempt to connect

  /** The session's pass gets as far as the socket. */
  predicate Attempts(s: System, now: Word32, a: SessionAnswers) {
    var l, m := s.link, s.session;
    && m.configurado && !m.suspenso && !m.estavaConectado && !(m.libraryUp && a.alive)
    && l.state == Ready && !l.httpLeased && now >= m.proximaTentativa
  }

  /** When the opening that this attempt looks at was asked for. */
  function Since(s: System, a: SessionAnswers): Word32 {
    if s.session.cipstartMs != 0 then s.session.cipstartMs else a.tOpen
  }

  predicate SocketOpens(s: System, a: SessionAnswers) {
    a.socketUp || (s.session.cipstartMs == 0 && a.tcpOpened)
    || (a.status == Conectado && Elapsed(a.tEval, Since(s, a)) < CIPSTART_MAX_MS)
  }

  predicate SocketWaits(s: System, a: SessionAnswers) {
    !a.socketUp && !(s.session.cipstartMs == 0 && a.tcpOpened)
    && a.status == Abrindo && Elapsed(a.tEval, Since(s, a)) < CIPSTART_MAX_MS
  }

  /** An opening is asked for at a clock reading of zero, which is also the source's mark for
      "nothing pending", and its outcome is still open. */
  predicate LeavesNoMark(s: System, a: SessionAnswers) { SocketWaits(s, a) && Since(s, a) == 0 }

  predicate Forgets(s: System, e: Event) {
    e.SessionLoop? && Attempts(s, e.now, e.session) && LeavesNoMark(s, e.session)
  }

  /** No event of the run forgets an opening. */
  predicate Remembered(s: System, events: seq<Event>) {
    events == []
    || (Remembered(s, events[..|events| - 1]) && !Forgets(Run(s, events[..|events| - 1]), events[|events| - 1]))
  }

  predicate SameLease(s: System, r: System) {
    r.link.httpLeased == s.link.httpLeased && r.downloadOpen == s.downloadOpen
  }

  /** Nor is an opening lost sight of on the way, or one found again. */
  ghost predicate StaysTracked(s: System, r: System) { Tracked(s) <==> Tracked(r) }

  // ---------------------------------------------------------- what each step keeps

  lemma Emitted(s: System, a: Action)
    requires Lawful(s.trace) && Allowed(Watch(s.trace), a)
    ensures Lawful(Emit(s, a).trace) && Watch(Emit(s, a).trace) == Observe(Watch(s.trace), a)
  {
    var t := s.trace + [a];
    assert t[..|t| - 1] == s.trace;
  }

  lemma DisconnectIsWatched(s: System)
    requires Lawful(s.trace) && Watch(s.trace).connected == s.session.conectado
    requires s.session.conectado ==> Watch(s.trace).failures != 5 && Watch(s.trace).retryAt.None?
    ensures var r, m := Disconnect(s), s.session;
      && Lawful(r.trace) && Watch(r.trace) == Watch(s.trace).(connected := false) && StaysTracked(s, r)
      && r == s.(session := m.(conectado := false, libraryUp := m.libraryUp && !m.conectado), trace := r.trace)
  {
    if s.session.conectado {
      Emitted(s.(session := s.session.(conectado := false, libraryUp := false)), MqttClosed);
    }
  }

  lemma ResolveIsWatched(s: System, why: Resolution, when: Word32)
    requires Lawful(s.trace) && Marked(Watch(s.trace), s.session)
    requires s.session.cipstartMs != 0 ==>
      Watch(s.trace).failures != 5 && Watch(s.trace).retryAt.None? && Settles(why, when, s.session.cipstartMs)
    ensures var r := Resolve(s, why, when);
      && Lawful(r.trace) && r == s.(session := s.session.(cipstartMs := 0), trace := r.trace)
      && (if s.session.cipstartMs == 0 then r.trace == s.trace
          else Watch(r.trace) == Watch(s.trace).(pending := None))
      && StaysTracked(s, r)
  {
    if s.session.cipstartMs != 0 {
      Emitted(s.(session := s.session.(cipstartMs := 0)), OpenResolved(why, when));
    }
  }

  lemma ResolveKeeps(s: System, why: Resolution, when: Word32)
    requires Core(s) && (s.session.cipstartMs != 0 ==> Settles(why, when, s.session.cipstartMs))
    ensures var r := Resolve(s, why, when); Core(r) && r.session.cipstartMs == 0 && StaysTracked(s, r)
  {
    ResolveIsWatched(s, why, when);
  }

  /** Suspending leaves the session closed, with nothing marked as pending, whoever asked for it. */
  lemma SuspendKeeps(s: System)
    requires var o := Watch(s.trace);
      && Lawful(s.trace) && o.failures != 5 && o.retryAt.None? && o.connected == s.session.conectado
      && Marked(o, s.session)
    requires s.session.conectado == s.session.estavaConectado == s.session.libraryUp
    requires s.session.suspenso ==> s.session.cipstartMs == 0 && !s.session.conectado
    ensures var r, o := Suspend(s), Watch(s.trace);
      && Lawful(r.trace) && Free(Watch(r.trace)) && StaysTracked(s, r)
      && Watch(r.trace) == o.(connected := false, pending := Watch(r.trace).pending)
      && r == s.(session := r.session, trace := r.trace)
      && r.session.suspenso && r.session.cipstartMs == 0
      && !r.session.conectado && !r.session.estavaConectado && !r.session.libraryUp
  {
    if !s.session.suspenso {
      var s1 := s.(session := s.session.(suspenso := true, estavaConectado := false));
      DisconnectIsWatched(s1);
      ResolveIsWatched(Disconnect(s1), Suspended, 0);
    }
  }

  /** What going down leaves in the fields. */
  lemma FailFields(s: System, now: Word32)
    ensures var r := Fail(s, now);
      && r.link == s.link.(failures := Bump(s.link.failures, 4), pausedByFail := true, httpLeased := false,
                           state := Backoff, nextTry := Later(now, LinkBackoffMs(s.link.failures)))
      && r.downloadOpen == s.downloadOpen
      && (s.session.suspenso ==> r.session == s.session)
      && (!s.session.suspenso ==> r.session == s.session.(suspenso := true, estavaConectado := false,
            conectado := false, libraryUp := s.session.libraryUp && !s.session.conectado, cipstartMs := 0))
      && r.trace == Suspend(s).trace + [LinkFailed(now, LinkBackoffMs(s.link.failures))]
  {}

  /** The link may go down when it is not lent and the ladder is not at its last rung. */
  lemma FailKeeps(s: System, now: Word32)
    requires Coupled(s) && Lawful(s.trace) && !s.link.httpLeased
    requires FieldsAgree(s.(link := s.link.(refazerPdp := false)))
    requires s.link.state == Settling || s.link.state == Ready
    requires s.link.refazerPdp ==> s.link.mqttFalhas >= 3
    ensures var r := Fail(s, now); Core(r) && SameLease(s, r) && StaysTracked(s, r)
  {
    FailFields(s, now);
    FailIsWatched(s, now, LinkBackoffMs(s.link.failures));
  }

  /** What going down looks like from outside. */
  lemma FailIsWatched(s: System, now: Word32, wait: Word32)
    requires var o := Watch(s.trace);
      && Lawful(s.trace) && o.failures != 5 && o.connected == s.session.conectado && !o.leased
      && Marked(o, s.session) && wait == LinkBackoffMs(o.downs) && o.retryAt.None?
    requires s.session.conectado == s.session.estavaConectado == s.session.libraryUp
    requires s.session.suspenso ==> s.session.cipstartMs == 0 && !s.session.conectado
    ensures var o, t := Watch(s.trace), Suspend(s).trace + [LinkFailed(now, wait)];
      && Lawful(t) && Free(Watch(t)) && StaysTracked(s, s.(trace := t))
      && Watch(t) == o.(connected := false, pending := Watch(t).pending, up := false, downs := o.downs + 1,
                        retryAt := Some(Later(now, wait)), overlooked := Watch(t).overlooked)
  {
    SuspendKeeps(s);
    Emitted(Suspend(s), LinkFailed(now, wait));
  }

  /** What a modem reset leaves in the fields. */
  lemma ResetFields(s: System, cause: ResetCause, after: Word32)
    requires !s.session.conectado && s.session.cipstartMs == 0
    ensures var r := ResetModem(s, cause, after);
      && r.link == s.link.(pausedByFail := true, httpLeased := false, mqttFalhas := 0, refazerPdp := false,
                           compararIp := false, resetsModem := Bump(s.link.resetsModem, 255),
                           settleMs := SETTLE_RESET_MS, state := Settling, since := after)
      && r.downloadOpen == s.downloadOpen
      && r.session == s.session.(suspenso := true, estavaConectado := s.session.estavaConectado && s.session.suspenso)
      && r.trace == s.trace + [ModemReset(cause, s.link.resetsModem % 2 == 0)]
  {}

  lemma ResetKeeps(s: System, cause: ResetCause, after: Word32)
    requires var o := Watch(s.trace);
      && Lawful(s.trace) && o.leased == o.connected == false && Free(o) && o.retryAt.None?
      && o.lastIp == s.link.ipAnterior && s.link.resetsModem == Min(o.resets, 255) && s.link.failures == Min(o.downs, 4)
      && (o.failures == 5 <==> cause == Ladder) && Grounds(o, cause)
    requires !s.link.httpLeased
    requires !s.session.conectado && !s.session.estavaConectado && !s.session.libraryUp && s.session.cipstartMs == 0
    ensures var r := ResetModem(s, cause, after); Core(r) && SameLease(s, r) && StaysTracked(s, r)
  {
    ResetFields(s, cause, after);
    CappedParity(Watch(s.trace).resets);
    Emitted(s, ModemReset(cause, s.link.resetsModem % 2 == 0));
  }

  lemma CappedParity(n: nat)
    ensures Min(n, 255) % 2 == 0 <==> n < 255 && n % 2 == 0
    ensures Bump(Min(n, 255), 255) == Min(n + 1, 255)
  {}

  lemma LinkLoopKeeps(s: System, now: Word32, a: LinkAnswers)
    requires Core(s)
    ensures var r := LinkLoopStep(s, now, a); Core(r) && SameLease(s, r) && StaysTracked(s, r)
  {
    match s.link.state
    case Settling => SettlingKeeps(s, now, a);
    case Network => NetworkKeeps(s, now, a);
    case Attaching => AttachingKeeps(s, now, a);
    case Backoff =>
      if now >= s.link.nextTry { Emitted(s.(link := s.link.(state := Init, since := now)), LinkRetries(now)); }
    case _ =>
  }

  lemma SettlingKeeps(s: System, now: Word32, a: LinkAnswers)
    requires Core(s) && s.link.state == Settling
    ensures var r := SettlingStep(s, now, a); Core(r) && SameLease(s, r) && StaysTracked(s, r)
  {
    if Elapsed(now, s.link.since) > Later(SettleTime(s.link), SETTLE_WINDOW_MS) { FailKeeps(s, now); }
  }

  lemma NetworkKeeps(s: System, now: Word32, a: LinkAnswers)
    requires Core(s) && s.link.state == Network
    ensures var r := NetworkStep(s, now, a); Core(r) && SameLease(s, r) && StaysTracked(s, r)
  {
    var waited := Elapsed(now, s.link.since);
    var s1 := s.(link := s.link.(netCheckMs := now));
    if !a.registered && Elapsed(now, s.link.netCheckMs) >= NET_CHECK_MS {
      if a.creg == 3 {
        ResetKeeps(s1, Denied(a.creg), a.after);
      } else if a.csq >= 15 && a.csq != 99 && waited >= NET_SINAL_BOM_MS {
        ResetKeeps(s1, StuckWithSignal(a.csq, waited), a.after);
      } else if waited > NETWORK_MS {
        ResetKeeps(s1, NoRegistration(waited), a.after);
      }
    }
  }

  lemma AttachingKeeps(s: System, now: Word32, a: LinkAnswers)
    requires Core(s) && s.link.state == Attaching
    ensures var r := AttachingStep(s, now, a); Core(r) && SameLease(s, r) && StaysTracked(s, r)
  {
    if s.link.refazerPdp {
      Emitted(s.(link := s.link.(refazerPdp := false, compararIp := true, since := a.after)), PdpTornDown);
    } else if a.pdpUp {
      if s.link.compararIp && a.ip != 0 && a.ip == s.link.ipAnterior {
        ResetKeeps(s.(link := s.link.(compararIp := false)), SameIp(a.ip), a.after);
      } else {
        PdpReadyKeeps(s, a.ip);
      }
    } else if Elapsed(now, s.link.since) > ATTACH_MS {
      ResetKeeps(s, PdpNotUp(Elapsed(now, s.link.since)), a.after);
    }
  }

  /** What a PDP that comes up leaves in the fields. */
  lemma PdpReadyFields(s: System, ip: Word32)
    ensures var r, m := PdpReady(s, ip), s.session;
      && r.link == s.link.(compararIp := false, ipAnterior := ip, pdpSeq := Later(s.link.pdpSeq, 1), failures := 0,
                           state := Ready, pausedByFail := false)
      && r.session == (if s.link.pausedByFail && m.suspenso then m.(suspenso := false, proximaTentativa := 0) else m)
      && r.downloadOpen == s.downloadOpen && r.trace == s.trace + [PdpUp(ip)]
  {}

  lemma PdpReadyKeeps(s: System, ip: Word32)
    requires Core(s) && s.link.state == Attaching && !s.link.refazerPdp
    requires !(s.link.compararIp && ip != 0 && ip == s.link.ipAnterior)
    ensures var r := PdpReady(s, ip); Core(r) && SameLease(s, r) && StaysTracked(s, r)
  {
    PdpReadyFields(s, ip);
    Emitted(s, PdpUp(ip));
  }

  /** One more transport failure, before the ladder answers it. */
  function OneMore(s: System): System {
    Emit(s.(link := s.link.(mqttFalhas := s.link.mqttFalhas + 1)), FailureCounted)
  }

  /** Where a failure counts: on a link in use, lent to nobody, with no session and no opening. */
  ghost predicate MayFail(s: System) {
    Core(s) && s.link.state == Ready && !s.link.httpLeased && !s.session.conectado && s.session.cipstartMs == 0
  }

  lemma CountKeeps(s: System)
    requires MayFail(s)
    ensures var r, n := OneMore(s), s.link.mqttFalhas + 1;
      && Lawful(r.trace) && StaysTracked(s, r)
      && Watch(r.trace) ==
         Watch(s.trace).(failures := n, mustRedo := 3 <= n <= 4, overlooked := Overlooks(Watch(s.trace)))
  {
    Emitted(s.(link := s.link.(mqttFalhas := s.link.mqttFalhas + 1)), FailureCounted);
  }

  /** The third and the fourth failure ask for another PDP and take the link down. */
  lemma RedoKeeps(s: System, now: Word32)
    requires MayFail(s) && 2 <= s.link.mqttFalhas <= 3
    ensures var c := OneMore(s); var r := Fail(c.(link := c.link.(refazerPdp := true)), now);
      Core(r) && SameLease(s, r) && StaysTracked(s, r)
  {
    CountKeeps(s);
    FailKeeps(OneMore(s).(link := OneMore(s).link.(refazerPdp := true)), now);
  }

  /** The fifth resets the modem. */
  lemma LastRungKeeps(s: System, after: Word32)
    requires MayFail(s) && s.link.mqttFalhas == 4
    ensures var r := ResetModem(OneMore(s), Ladder, after); Core(r) && SameLease(s, r) && StaysTracked(s, r)
  {
    CountKeeps(s);
    ResetKeeps(OneMore(s), Ladder, after);
  }

  lemma ReportFailureKeeps(s: System, now: Word32, after: Word32)
    requires Core(s) && !s.session.conectado && s.session.cipstartMs == 0
    ensures var r := ReportTransportFailure(s, now, after); Core(r) && SameLease(s, r) && StaysTracked(s, r)
  {
    if s.link.state == Ready && !s.link.httpLeased {
      if s.link.mqttFalhas == 4 {
        LastRungKeeps(s, after);
      } else if s.link.mqttFalhas >= 2 {
        RedoKeeps(s, now);
      } else {
        CountKeeps(s);
      }
    }
  }

  /** In the middle of an attempt, with an opening under way, whatever its stamp. */
  ghost predicate Opening(s: System) {
    && Core(s) && s.link.state == Ready && !s.link.httpLeased
    && !s.session.conectado && !s.session.suspenso && s.session.pdpDaTentativa == s.link.pdpSeq
    && Watch(s.trace).pending == Some(s.session.cipstartMs)
  }

  lemma ConcludeKeeps(s: System, why: Resolution, when: Word32)
    requires Opening(s) && Settles(why, when, s.session.cipstartMs)
    ensures var r := Conclude(s, why, when); Core(r) && (Tracked(r) <==> !Watch(s.trace).overlooked)
  {
    Emitted(s.(session := s.session.(cipstartMs := 0)), OpenResolved(why, when));
  }

  lemma AvaliarKeeps(s: System, a: SessionAnswers)
    requires Opening(s)
    ensures var (r, t) := AvaliarAbertura(s, a);
      && Core(r) && SameLease(s, r)
      && (t == Aguardando <==> a.status == Abrindo && Elapsed(a.tEval, s.session.cipstartMs) < CIPSTART_MAX_MS)
      && (if t == Aguardando then r == s else Tracked(r) <==> !Watch(s.trace).overlooked)
      && (t == Conectou ==> r.session == s.session.(cipstartMs := 0) && r.link == s.link)
  {
    var waited := Elapsed(a.tEval, s.session.cipstartMs);
    if waited < CIPSTART_MAX_MS && a.status == Conectado {
      ConcludeKeeps(s, ConfirmedLate(a.status), a.tEval);
    } else if !(waited < CIPSTART_MAX_MS && a.status == Abrindo) {
      var why := if waited < CIPSTART_MAX_MS then NeitherState(a.status) else Expired;
      ConcludeKeeps(s, why, a.tEval);
      ReportFailureKeeps(Conclude(s, why, a.tEval), a.tReport, a.tReset);
    }
  }

  lemma IssueOpens(s: System, at: Word32)
    requires Core(s) && s.link.state == Ready && !s.link.httpLeased && !s.session.conectado && s.session.cipstartMs == 0
    requires !s.session.suspenso && s.session.pdpDaTentativa == s.link.pdpSeq
    ensures var r := Emit(s.(session := s.session.(cipstartMs := at)), OpenIssued(at));
      Opening(r) && (Tracked(s) <==> !Watch(r.trace).overlooked)
  {
    Emitted(s.(session := s.session.(cipstartMs := at)), OpenIssued(at));
  }

  lemma AbrirKeeps(s: System, a: SessionAnswers)
    requires Core(s) && s.link.state == Ready && !s.link.httpLeased && !s.session.conectado
    requires !s.session.suspenso && s.session.pdpDaTentativa == s.link.pdpSeq
    ensures var (r, t) := AbrirSocket(s, a);
      && Core(r) && SameLease(s, r) && (Tracked(r) <==> Tracked(s) && !LeavesNoMark(s, a))
      && (t == Conectou ==> r.session == s.session.(cipstartMs := 0) && r.link == s.link)
  {
    if a.socketUp {
      ResolveKeeps(s, AlreadyOpen(true), a.tEval);
    } else if s.session.cipstartMs != 0 {
      AvaliarKeeps(s, a);
    } else {
      FirstLookKeeps(s, a);
    }
  }

  lemma FirstLookKeeps(s: System, a: SessionAnswers)
    requires Core(s) && s.link.state == Ready && !s.link.httpLeased && !s.session.conectado && s.session.cipstartMs == 0
    requires !s.session.suspenso && s.session.pdpDaTentativa == s.link.pdpSeq && !a.socketUp
    ensures var (r, t) := AbrirSocket(s, a);
      && Core(r) && SameLease(s, r) && (Tracked(r) <==> Tracked(s) && !LeavesNoMark(s, a))
      && (t == Conectou ==> r.session == s.session.(cipstartMs := 0) && r.link == s.link)
  {
    IssueOpens(s, a.tOpen);
    var s1 := Emit(s.(session := s.session.(cipstartMs := a.tOpen)), OpenIssued(a.tOpen));
    if a.tcpOpened { ConcludeKeeps(s1, Opened(true), a.tEval); } else { AvaliarKeeps(s1, a); }
  }

  lemma ConnectedKeeps(s: System)
    requires Core(s) && s.link.state == Ready && !s.link.httpLeased && s.session.configurado && !s.session.suspenso
    requires !s.session.conectado && s.session.cipstartMs == 0
    ensures var c := ReportConnected(s);
      var r := c.(session := c.session.(estavaConectado := true, conectado := true, libraryUp := true));
      Core(r) && StaysTracked(s, r)
  {
    Emitted(s.(link := s.link.(mqttFalhas := 0, resetsModem := 0)), MqttConnected);
  }

  lemma NotePdpKeeps(s: System)
    requires Core(s)
    ensures NotePdp(s) == s.(session := s.session.(pdpDaTentativa := s.link.pdpSeq)) && Core(NotePdp(s))
  {}

  lemma OpenSessionKeeps(s: System, a: SessionAnswers)
    requires Core(s) && s.link.state == Ready && !s.link.httpLeased && s.session.configurado && !s.session.suspenso
    requires !s.session.conectado && s.session.cipstartMs == 0
    ensures var r := OpenSession(s, a).0; Core(r) && SameLease(s, r) && StaysTracked(s, r)
  {
    ConnectedKeeps(s);
    ReportFailureKeeps(s, a.tReport, a.tReset);
  }

  lemma ConectarKeeps(s: System, a: SessionAnswers)
    requires Core(s) && !s.session.conectado && !s.session.suspenso && s.session.configurado
    ensures var r := Conectar(s, a).0;
      && Core(r) && SameLease(s, r)
      && (Tracked(r) <==> Tracked(s) && !(s.link.state == Ready && !s.link.httpLeased && LeavesNoMark(s, a)))
  {
    if s.link.state == Ready && !s.link.httpLeased {
      NotePdpKeeps(s);
      var s2 := NotePdp(s);
      AbrirKeeps(s2, a);
      var (s3, t) := AbrirSocket(s2, a);
      if t == Conectou { OpenSessionKeeps(s3, a); }
    }
  }

  lemma DropKeeps(s: System, m: Session)
    requires Core(s) && s.session.conectado
    requires !m.conectado && !m.libraryUp && !m.estavaConectado && m.cipstartMs == 0
    requires m.suspenso == s.session.suspenso && m.configurado == s.session.configurado
    ensures var r := ReportSessionLost(s.(session := m)); Core(r) && StaysTracked(s, r)
  {
    Emitted(s.(session := m), SessionLost);
  }

  /** The retry counter and deadline play no part in what is lawful. */
  lemma RetryFieldsAreFree(s: System, falhas: nat, next: Word32)
    requires Core(s)
    ensures Core(s.(session := s.session.(falhas := falhas, proximaTentativa := next)))
  {
    var z := s.(session := s.session.(falhas := falhas, proximaTentativa := next));
    assert z.trace == s.trace && z.link == s.link;
    assert Shadow(z.link, z.session, Watch(z.trace)) == Shadow(s.link, s.session, Watch(s.trace));
  }

  lemma RetryKeeps(r: (System, Tentativa), a: SessionAnswers)
    requires Core(r.0)
    ensures Core(Retry(r, a)) && SameLease(r.0, Retry(r, a)) && Retry(r, a).trace == r.0.trace
  {
    var m := r.0.session;
    var falhas := if r.1 == Conectou then 0 else if r.1 == Aguardando then m.falhas else Bump(m.falhas, 4);
    var next := if r.1 == Conectou then m.proximaTentativa
                else Later(a.tEnd, if r.1 == Aguardando then REAVALIAR_MS else SessionBackoffMs(m.falhas));
    RetryFieldsAreFree(r.0, falhas, next);
    assert Retry(r, a) == r.0.(session := m.(falhas := falhas, proximaTentativa := next));
  }

  lemma SessionLoopKeeps(s: System, now: Word32, a: SessionAnswers)
    requires Core(s)
    ensures var r := SessionLoopStep(s, now, a);
      && Core(r) && SameLease(s, r) && (Tracked(r) <==> Tracked(s) && !Forgets(s, SessionLoop(now, a)))
  {
    var m := s.session;
    if m.configurado && !m.suspenso {
      if m.libraryUp && a.alive {
        RetryFieldsAreFree(s, 0, m.proximaTentativa);
      } else if m.estavaConectado {
        DropKeeps(s, m.(conectado := false, libraryUp := false, estavaConectado := false, falhas := 0,
                        proximaTentativa := now));
      } else {
        assert s.(session := m.(conectado := false, libraryUp := false)) == s;
        if Attempts(s, now, a) {
          ConectarKeeps(s, a);
          RetryKeeps(Conectar(s, a), a);
        }
      }
    }
  }

  lemma AcquireKeeps(s: System)
    requires Core(s)
    ensures Core(Acquire(s).0) && StaysTracked(s, Acquire(s).0)
  {
    if s.link.state == Ready && !s.link.httpLeased {
      SuspendKeeps(s);
      var s1 := Suspend(s);
      Emitted(s1.(link := s1.link.(httpLeased := true)), LeaseTaken);
    }
  }

  lemma ReleaseKeeps(s: System)
    requires Core(s)
    ensures var r := Release(s);
      Core(r) && !r.link.httpLeased && r.downloadOpen == s.downloadOpen && StaysTracked(s, r)
  {
    if s.link.httpLeased {
      Emitted(s.(link := s.link.(httpLeased := false)), LeaseReturned);
    }
  }

  lemma AbrirHttpKeeps(s: System, tcpOk: bool)
    requires Core(s)
    ensures var (r, ok) := Abrir(s, tcpOk);
      && Core(r) && r.downloadOpen == s.downloadOpen && StaysTracked(s, r)
      && (ok ==> r.link.httpLeased && !s.link.httpLeased)
      && (!ok ==> r.link.httpLeased == s.link.httpLeased)
  {
    AcquireKeeps(s);
    ReleaseKeeps(Acquire(s).0);
  }

  lemma ExchangeKeeps(s: System, x: ExchangeAnswers)
    requires Inv(s)
    ensures Inv(HttpExchangeStep(s, x)) && StaysTracked(s, HttpExchangeStep(s, x))
  {
    AbrirHttpKeeps(s, x.tcpOk);
    ReleaseKeeps(Abrir(s, x.tcpOk).0);
  }

  lemma EndDownloadKeeps(s: System)
    requires Inv(s)
    ensures var r := EndDownloadStep(s); Inv(r) && !r.downloadOpen && StaysTracked(s, r)
  {
    ReleaseKeeps(s.(downloadOpen := false));
  }

  lemma BeginDownloadKeeps(s: System, x: ExchangeAnswers)
    requires Inv(s)
    ensures Inv(BeginDownloadStep(s, x)) && StaysTracked(s, BeginDownloadStep(s, x))
  {
    EndDownloadKeeps(s);
    var s0 := EndDownloadStep(s);
    AbrirHttpKeeps(s0, x.tcpOk);
    ReleaseKeeps(Abrir(s0, x.tcpOk).0);
  }

  lemma SessionEndKeeps(s: System)
    requires Core(s)
    ensures var r := SessionEndStep(s); Core(r) && SameLease(s, r) && StaysTracked(s, r)
  {
    DisconnectIsWatched(s);
    ResolveIsWatched(Disconnect(s), Ended, 0);
  }

  /** Every event keeps the invariant; it loses sight of an opening exactly where it forgets one, and
      no event gets it back. */
  lemma StepKeeps(s: System, e: Event)
    requires Inv(s)
    ensures Inv(Step(s, e)) && (Tracked(Step(s, e)) <==> Tracked(s) && !Forgets(s, e))
  {
    match e
    case LinkLoop(now, a) => LinkLoopKeeps(s, now, a);
    case SessionLoop(now, a) => SessionLoopKeeps(s, now, a);
    case SessionBegin =>
    case SessionEnd => SessionEndKeeps(s);
    case HttpExchange(x) => ExchangeKeeps(s, x);
    case BeginDownload(x) => BeginDownloadKeeps(s, x);
    case EndDownload => EndDownloadKeeps(s);
  }

  /** The exact condition, step by step. */
  lemma KeptExactlyUnlessForgotten(s: System, e: Event)
    requires Inv(s)
    ensures Exact(Step(s, e)) <==> Exact(s) && !Forgets(s, e)
  {
    StepKeeps(s, e);
  }

  // ---------------------------------------------------------------- main theorem

  /** Every run of the firmware, against every answer of modem, broker and clock, is lawful. */
  lemma {:induction false} EveryRunIsLawful(boot: Word32, start: Word32, events: seq<Event>)
    ensures Inv(Run(Initial(boot, start), events))
  {
    if events != [] {
      EveryRunIsLawful(boot, start, events[..|events| - 1]);
      StepKeeps(Run(Initial(boot, start), events[..|events| - 1]), events[|events| - 1]);
    }
  }

  /** And over runs: fields and observer agree on every opening if and only if no event of the run
      has forgotten one. */
  lemma {:induction false} TrackedExactlyWhenRemembered(boot: Word32, start: Word32, events: seq<Event>)
    ensures Exact(Run(Initial(boot, start), events)) <==> Remembered(Initial(boot, start), events)
  {
    if events != [] {
      var most := events[..|events| - 1];
      EveryRunIsLawful(boot, start, most);
      TrackedExactlyWhenRemembered(boot, start, most);
      KeptExactlyUnlessForgotten(Run(Initial(boot, start), most), events[|events| - 1]);
    }
  }
}
