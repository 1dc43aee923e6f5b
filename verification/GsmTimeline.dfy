/**
 Time over whole runs. Against a schedule for all events, from boot on: at every moment the link is
 in a state that it is going to leave within a known time, or it is Ready.

 The clock does not wrap here, as in GsmProgress.
 */
module GsmTimeline {
  import opened Words
  import opened GsmProtocol
  import opened GsmSafety
  import opened GsmProgress

  /** The latest reading, and when the next call of GsmLink::loop has to begin at the latest. */
  datatype Clock = Clock(now: Word32, due: int)

  function Tick(c: Clock, e: Event, gap: nat): Clock {
    match e
    case LinkLoop(_, a) => Clock(a.after, a.after + gap)
    case SessionLoop(_, a) => Clock(a.tEnd, c.due)
    case _ => c
  }

  /** Readings in order; the link called in time; no call of it longer than `longest`. */
  predicate OnTime(c: Clock, e: Event, longest: nat) {
    match e
    case LinkLoop(now, a) => c.now <= now <= c.due && now <= a.after <= now + longest
    case SessionLoop(_, a) => c.now <= a.tReport <= a.tReset <= a.tEnd <= c.due
    case _ => true
  }

  function ClockAt(start: Word32, gap: nat, events: seq<Event>): Clock {
    if events == [] then Clock(start, start + gap)
    else Tick(ClockAt(start, gap, events[..|events| - 1]), events[|events| - 1], gap)
  }

  predicate Punctual(start: Word32, gap: nat, longest: nat, events: seq<Event>) {
    events == []
    || (Punctual(start, gap, longest, events[..|events| - 1])
        && OnTime(ClockAt(start, gap, events[..|events| - 1]), events[|events| - 1], longest))
  }

  lemma {:induction false} PunctualPrefix(start: Word32, gap: nat, longest: nat, events: seq<Event>, n: nat)
    requires n <= |events| && Punctual(start, gap, longest, events)
    ensures Punctual(start, gap, longest, events[..n])
  {
    if n < |events| {
      PunctualPrefix(start, gap, longest, events[..|events| - 1], n);
      assert events[..|events| - 1][..n] == events[..n];
    } else {
      assert events[..n] == events;
    }
  }

  lemma NextReading(start: Word32, gap: nat, longest: nat, events: seq<Event>, n: nat)
    requires n < |events| && Punctual(start, gap, longest, events)
    ensures var c := ClockAt(start, gap, events[..n]);
      OnTime(c, events[n], longest) && ClockAt(start, gap, events[..n + 1]) == Tick(c, events[n], gap)
  {
    PunctualPrefix(start, gap, longest, events, n + 1);
    var p := events[..n + 1];
    assert p[..|p| - 1] == events[..n] && p[|p| - 1] == events[n];
  }

  lemma {:induction false} DueIsNear(start: Word32, gap: nat, longest: nat, events: seq<Event>)
    requires Punctual(start, gap, longest, events)
    ensures ClockAt(start, gap, events).due <= ClockAt(start, gap, events).now + gap
  {
    if events != [] { DueIsNear(start, gap, longest, events[..|events| - 1]); }
  }

  /** The rest of a punctual run is a schedule in the sense of GsmProgress. */
  lemma {:induction false} RestIsScheduled(start: Word32, gap: nat, longest: nat, events: seq<Event>, i: nat, t: Word32)
    requires i <= |events| && Punctual(start, gap, longest, events)
    requires var c := ClockAt(start, gap, events[..i]); t <= c.now && c.due <= t + gap
    ensures Scheduled(events[i..], t, gap, longest)
    decreases |events| - i
  {
    if i < |events| {
      NextReading(start, gap, longest, events, i);
      var e, rest := events[i], events[i..];
      assert rest[0] == e && rest[1..] == events[i + 1..];
      RestIsScheduled(start, gap, longest, events, i + 1, if e.LinkLoop? then e.link.after else t);
    }
  }

  // ------------------------------------------------------------- times in the fields

  /** The stored readings lie in the past, a retry at most 30 s ahead, and the settling time is one
      that the window can be added to. */
  predicate TimesAgree(l: Link, t: Word32) {
    && ClockBehind(l, t) && (l.state == Backoff ==> l.nextTry <= t + 30000)
    && SettleTime(l) + SETTLE_WINDOW_MS < WORD
  }

  /** What a report makes of the link, which is no matter of the session. */
  function Reported(l: Link, now: Word32, after: Word32): Link {
    ReportTransportFailure(System(l, Initial(0, 0).session, false, []), now, after).link
  }

  lemma ReportIgnoresSession(s: System, now: Word32, after: Word32)
    ensures ReportTransportFailure(s, now, after).link == Reported(s.link, now, after)
  {
    var z := System(s.link, Initial(0, 0).session, false, []);
    var l := s.link.(mqttFalhas := Bump(s.link.mqttFalhas, 255));
    var s1, z1 := Emit(s.(link := l), FailureCounted), Emit(z.(link := l), FailureCounted);
    DownIgnoresSession(s1, z1, now, after);
    DownIgnoresSession(s1.(link := l.(refazerPdp := true)), z1.(link := l.(refazerPdp := true)), now, after);
  }

  lemma FailLink(s: System, now: Word32)
    ensures Fail(s, now).link == s.link.(
      failures := Bump(s.link.failures, 4), pausedByFail := true, httpLeased := false, state := Backoff,
      nextTry := Later(now, LinkBackoffMs(s.link.failures)))
  {
    FailFields(s, now);
  }

  lemma ResetLink(s: System, cause: ResetCause, after: Word32)
    ensures ResetModem(s, cause, after).link == s.link.(
      pausedByFail := true, httpLeased := false, mqttFalhas := 0, refazerPdp := false, compararIp := false,
      resetsModem := Bump(s.link.resetsModem, 255), settleMs := SETTLE_RESET_MS, state := Settling, since := after)
  {}

  lemma DownIgnoresSession(s: System, z: System, now: Word32, after: Word32)
    requires s.link == z.link
    ensures Fail(s, now).link == Fail(z, now).link
    ensures ResetModem(s, Ladder, after).link == ResetModem(z, Ladder, after).link
  {
    FailLink(s, now);
    FailLink(z, now);
    ResetLink(s, Ladder, after);
    ResetLink(z, Ladder, after);
  }

  lemma SocketLink(s: System, a: SessionAnswers)
    ensures var (r, t) := AbrirSocket(s, a);
      r.link == if t == Falhou then Reported(s.link, a.tReport, a.tReset) else s.link
  {
    var z := if s.session.cipstartMs != 0 then s
             else Emit(s.(session := s.session.(cipstartMs := a.tOpen)), OpenIssued(a.tOpen));
    var late := Elapsed(a.tEval, z.session.cipstartMs) >= CIPSTART_MAX_MS;
    ReportIgnoresSession(Conclude(z, if late then Expired else NeitherState(a.status), a.tEval), a.tReport, a.tReset);
  }

  predicate PassedLink(l: Link, r: Link, a: SessionAnswers) {
    r == l || r == l.(mqttFalhas := 0, resetsModem := 0) || r == Reported(l, a.tReport, a.tReset)
  }

  lemma OpenSessionLink(s: System, a: SessionAnswers)
    ensures PassedLink(s.link, OpenSession(s, a).0.link, a)
  {
    ReportIgnoresSession(s, a.tReport, a.tReset);
  }

  /** A pass of the session leaves the link alone, clears its counters, or reports a failure to it. */
  lemma PassLink(s: System, now: Word32, a: SessionAnswers)
    ensures PassedLink(s.link, SessionLoopStep(s, now, a).link, a)
  {
    var up := s.session.libraryUp && a.alive;
    ConectarLink(s.(session := s.session.(conectado := up, libraryUp := up)), a);
  }

  lemma ConectarLink(s: System, a: SessionAnswers)
    ensures PassedLink(s.link, Conectar(s, a).0.link, a)
  {
    var s2 := NotePdp(s);
    assert s2.link == s.link;
    SocketLink(s2, a);
    OpenSessionLink(AbrirSocket(s2, a).0, a);
  }

  lemma ReportKeepsTimes(l: Link, t: Word32, now: Word32, after: Word32)
    requires TimesAgree(l, t) && t <= now <= after
    ensures TimesAgree(Reported(l, now, after), after)
  {
    var s := System(l, Initial(0, 0).session, false, []);
    if l.state == Ready && !l.httpLeased {
      var s1 := Emit(s.(link := l.(mqttFalhas := Bump(l.mqttFalhas, 255))), FailureCounted);
      DownKeepsTimes(s1, t, now, Ladder, after);
      DownKeepsTimes(s1.(link := s1.link.(refazerPdp := true)), t, now, Ladder, after);
    }
  }

  lemma DownKeepsTimes(s: System, t: Word32, now: Word32, cause: ResetCause, after: Word32)
    requires s.link.since <= t <= now <= after && SettleTime(s.link) + SETTLE_WINDOW_MS < WORD
    ensures TimesAgree(Fail(s, now).link, after) && TimesAgree(ResetModem(s, cause, after).link, after)
  {}

  lemma LinkKeepsTimes(s: System, t: Word32, now: Word32, a: LinkAnswers)
    requires TimesAgree(s.link, t) && t <= now <= a.after
    ensures TimesAgree(LinkLoopStep(s, now, a).link, a.after)
  {
    match s.link.state
    case Settling => SettlingKeepsTimes(s, t, now, a);
    case Network => NetworkKeepsTimes(s, t, now, a);
    case Attaching => AttachingKeepsTimes(s, t, now, a);
    case _ =>
  }

  lemma SettlingKeepsTimes(s: System, t: Word32, now: Word32, a: LinkAnswers)
    requires s.link.state == Settling && TimesAgree(s.link, t) && t <= now <= a.after
    ensures TimesAgree(SettlingStep(s, now, a).link, a.after)
  {
    DownKeepsTimes(s, t, now, Ladder, a.after);
  }

  lemma AttachingKeepsTimes(s: System, t: Word32, now: Word32, a: LinkAnswers)
    requires s.link.state == Attaching && TimesAgree(s.link, t) && t <= now <= a.after
    ensures TimesAgree(AttachingStep(s, now, a).link, a.after)
  {
    DownKeepsTimes(s.(link := s.link.(compararIp := false)), t, now, SameIp(a.ip), a.after);
    DownKeepsTimes(s, t, now, PdpNotUp(Elapsed(now, s.link.since)), a.after);
  }

  lemma NetworkKeepsTimes(s: System, t: Word32, now: Word32, a: LinkAnswers)
    requires s.link.state == Network && TimesAgree(s.link, t) && t <= now <= a.after
    ensures TimesAgree(NetworkStep(s, now, a).link, a.after)
  {
    var waited := Elapsed(now, s.link.since);
    var s1 := s.(link := s.link.(netCheckMs := now));
    DownKeepsTimes(s1, t, now, Denied(a.creg), a.after);
    DownKeepsTimes(s1, t, now, StuckWithSignal(a.csq, waited), a.after);
    DownKeepsTimes(s1, t, now, NoRegistration(waited), a.after);
  }

  /** Leases change nothing but the lease. */
  lemma OthersKeepTimes(s: System, e: Event)
    requires !e.LinkLoop? && !e.SessionLoop?
    ensures var l := Step(s, e).link; l == s.link.(httpLeased := l.httpLeased)
  {
    match e
    case HttpExchange(x) =>
      LeaseLink(s, x.tcpOk);
      ReleaseLink(Abrir(s, x.tcpOk).0);
    case BeginDownload(x) => BeginLink(s, x);
    case EndDownload => ReleaseLink(s.(downloadOpen := false));
    case _ =>
  }

  lemma ReleaseLink(s: System)
    ensures Release(s).link == s.link.(httpLeased := false)
  {}

  lemma BeginLink(s: System, x: ExchangeAnswers)
    ensures var l := BeginDownloadStep(s, x).link; l == s.link.(httpLeased := l.httpLeased)
  {
    var s0 := EndDownloadStep(s);
    ReleaseLink(s.(downloadOpen := false));
    LeaseLink(s0, x.tcpOk);
    ReleaseLink(Abrir(s0, x.tcpOk).0);
  }

  lemma AcquireLink(s: System)
    ensures var l := Acquire(s).0.link; l == s.link.(httpLeased := l.httpLeased)
  {}

  lemma LeaseLink(s: System, tcpOk: bool)
    ensures var l := Abrir(s, tcpOk).0.link; l == s.link.(httpLeased := l.httpLeased)
  {
    AcquireLink(s);
    ReleaseLink(Acquire(s).0);
  }

  lemma {:induction false} TimesAlwaysAgree(boot: Word32, start: Word32, gap: nat, longest: nat, events: seq<Event>)
    requires boot + SETTLE_WINDOW_MS < WORD && Punctual(start, gap, longest, events)
    ensures TimesAgree(Run(Initial(boot, start), events).link, ClockAt(start, gap, events).now)
  {
    if events != [] {
      var most, e := events[..|events| - 1], events[|events| - 1];
      TimesAlwaysAgree(boot, start, gap, longest, most);
      var s := Run(Initial(boot, start), most);
      EventKeepsTimes(s, ClockAt(start, gap, most), e, gap, longest);
    }
  }

  lemma EventKeepsTimes(s: System, c: Clock, e: Event, gap: nat, longest: nat)
    requires TimesAgree(s.link, c.now) && OnTime(c, e, longest)
    ensures TimesAgree(Step(s, e).link, Tick(c, e, gap).now)
  {
    match e
    case LinkLoop(now, a) => LinkKeepsTimes(s, c.now, now, a);
    case SessionLoop(now, a) =>
      PassLink(s, now, a);
      ReportKeepsTimes(s.link, c.now, a.tReport, a.tReset);
    case _ => OthersKeepTimes(s, e);
  }

  // ------------------------------------------------------------------ every stay ends

  /** How long a stay may go on from any moment of it: the state's own deadline, or a teardown and
      that deadline where the PDP is to be redone. */
  function Allowance(l: Link, gap: nat, longest: nat): nat {
    match l.state
    case Settling => SettleTime(l) + SETTLE_WINDOW_MS
    case Attaching => ATTACH_MS + if l.refazerPdp then gap + longest else 0
    case _ => Budget(l.state)
  }

  lemma LimitIsNear(l: Link, t: Word32, gap: nat, longest: nat)
    requires TimesAgree(l, t) && l.state != Off && l.state != Ready && !l.httpLeased
    ensures (l.state == Attaching && l.refazerPdp) || (Timed(l) && StayLimit(l) <= t + Allowance(l, gap, longest))
  {}

  /** From boot, at any moment of a punctual run: if the link is not Ready, and goes on being called
      past its allowance, one of those calls takes it out of its state, no later than the allowance,
      one gap and one call from that moment. */
  lemma EveryStayEnds(boot: Word32, start: Word32, gap: nat, longest: nat, before: seq<Event>, rest: seq<Event>,
                      late: nat)
      returns (k: nat)
    requires boot + SETTLE_WINDOW_MS < WORD && Punctual(start, gap, longest, before + rest)
    requires late < |rest| && rest[late].LinkLoop?
    requires var l, t := Run(Initial(boot, start), before).link, ClockAt(start, gap, before).now;
      l.state != Ready && rest[late].now > t + Allowance(l, gap, longest)
    ensures k <= late && rest[k].LinkLoop?
    ensures var s, t := Run(Initial(boot, start), before), ClockAt(start, gap, before).now;
      && Run(s, rest[..k + 1]).link.state != s.link.state
      && rest[k].now <= t + Allowance(s.link, gap, longest) + longest + gap
  {
    MomentOfRun(boot, start, gap, longest, before, rest);
    k := StayEndsFrom(Run(Initial(boot, start), before), rest, ClockAt(start, gap, before).now, gap, longest, late);
  }

  lemma MomentOfRun(boot: Word32, start: Word32, gap: nat, longest: nat, before: seq<Event>, rest: seq<Event>)
    requires boot + SETTLE_WINDOW_MS < WORD && Punctual(start, gap, longest, before + rest)
    ensures var l, t := Run(Initial(boot, start), before).link, ClockAt(start, gap, before).now;
      && TimesAgree(l, t) && l.state != Off && (l.state != Ready ==> !l.httpLeased)
      && Scheduled(rest, t, gap, longest)
  {
    var events := before + rest;
    assert events[..|before|] == before && events[|before|..] == rest;
    EveryRunIsLawful(boot, start, before);
    PunctualPrefix(start, gap, longest, events, |before|);
    TimesAlwaysAgree(boot, start, gap, longest, before);
    DueIsNear(start, gap, longest, before);
    RestIsScheduled(start, gap, longest, events, |before|, ClockAt(start, gap, before).now);
  }

  lemma StayEndsFrom(s: System, events: seq<Event>, t: Word32, gap: nat, longest: nat, late: nat) returns (k: nat)
    requires TimesAgree(s.link, t) && s.link.state != Off && s.link.state != Ready && !s.link.httpLeased
    requires Scheduled(events, t, gap, longest) && late < |events| && events[late].LinkLoop?
    requires events[late].now > t + Allowance(s.link, gap, longest)
    ensures k <= late && events[k].LinkLoop? && Run(s, events[..k + 1]).link.state != s.link.state
    ensures events[k].now <= t + Allowance(s.link, gap, longest) + longest + gap
  {
    LimitIsNear(s.link, t, gap, longest);
    if s.link.state == Attaching && s.link.refazerPdp {
      k := LeavesAfterRedo(s, events, t, gap, longest, late);
    } else {
      k := LeavesInTime(s, events, t, gap, longest, late);
    }
  }
}
