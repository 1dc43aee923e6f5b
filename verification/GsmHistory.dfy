/**
 What a lawful history means, said without the automaton: plain statements about which
 actions lie between which others, for every run of the firmware.
 */
module GsmHistory {
  import opened Words
  import opened GsmProtocol
  import opened GsmSafety

  // -------------------------------------------------------------- exclusive link

  /** HTTP and MQTT never share the link, and a session is never left suspended. */
  lemma LinkIsExclusive(boot: Word32, start: Word32, events: seq<Event>)
    ensures var s := Run(Initial(boot, start), events);
      && (s.link.httpLeased ==> s.link.state == Ready && !s.session.conectado && !s.session.libraryUp
                                && s.session.cipstartMs == 0)
      && (s.session.libraryUp || s.session.conectado ==>
            s.link.state == Ready && !s.link.httpLeased && !s.session.suspenso)
      && (s.session.suspenso ==> s.link.httpLeased || s.link.pausedByFail)
      && (s.link.pausedByFail ==> s.link.state != Ready)
      && (s.link.state == Ready && !s.downloadOpen ==> !s.session.suspenso)
      && (s.link.httpLeased <==> s.downloadOpen)
  {
    EveryRunIsLawful(boot, start, events);
  }

  // --------------------------------------------------------- reading the history

  lemma {:induction false} LawfulAt(t: seq<Action>, k: nat)
    requires Lawful(t) && k < |t|
    ensures Allowed(Watch(t[..k]), t[k])
  {
    var p := t[..|t| - 1];
    if k < |p| {
      LawfulAt(p, k);
      assert p[..k] == t[..k];
    }
  }

  lemma WatchAt(t: seq<Action>, k: nat)
    requires k < |t|
    ensures Watch(t[..k + 1]) == Observe(Watch(t[..k]), t[k])
  {
    assert t[..k + 1][..k] == t[..k];
  }

  /** What may not happen while HTTP has the link. */
  predicate NeedsTheLink(a: Action) {
    a.OpenIssued? || a.MqttConnected? || a.PdpTornDown? || a.PdpUp? || a.ModemReset? || a.LinkFailed? || a.LinkRetries?
    || a.LeaseTaken?
  }

  lemma {:induction false} StillLeased(t: seq<Action>, i: nat, k: nat)
    requires i < k <= |t| && t[i].LeaseTaken?
    requires forall j :: i < j < k ==> !t[j].LeaseReturned?
    ensures Watch(t[..k]).leased
  {
    WatchAt(t, k - 1);
    if i < k - 1 { StillLeased(t, i, k - 1); }
  }

  /** From the moment HTTP takes the link until it gives it back, no socket is opened for
      MQTT, no session connects and nobody touches the PDP context or the modem. */
  lemma NothingUnderALease(t: seq<Action>, i: nat, k: nat) returns (j: nat)
    requires Lawful(t) && i < k < |t| && t[i].LeaseTaken? && NeedsTheLink(t[k])
    ensures i < j < k && t[j].LeaseReturned?
  {
    if j' :| i < j' < k && t[j'].LeaseReturned? {
      j := j';
    } else {
      StillLeased(t, i, k);
      LawfulAt(t, k);
      assert false;
    }
  }

  // ------------------------------------------------------ one opening at a time

  lemma OverlapStays(o: Observer, a: Action)
    requires o.overlooked
    ensures Observe(o, a).overlooked
  {}

  lemma PendingStays(o: Observer, a: Action, at: Word32)
    requires Allowed(o, a) && o.pending == Some(at) && !a.OpenResolved?
    ensures Observe(o, a).pending == Some(at) || (at == 0 && Observe(o, a).overlooked)
  {}

  /** An opening stamped 0 may be overlooked, but then the observer knows that one was. */
  predicate PendingOrOverlooked(o: Observer, at: Word32) { o.pending == Some(at) || (at == 0 && o.overlooked) }

  lemma StaysPending(o: Observer, a: Action, at: Word32)
    requires Allowed(o, a) && PendingOrOverlooked(o, at) && !a.OpenResolved?
    ensures PendingOrOverlooked(Observe(o, a), at)
  {
    if o.pending == Some(at) { PendingStays(o, a, at); } else { OverlapStays(o, a); }
  }

  lemma {:induction false} StillPending(t: seq<Action>, i: nat, k: nat)
    requires Lawful(t) && i < k <= |t| && t[i].OpenIssued?
    requires forall j :: i < j < k ==> !t[j].OpenResolved?
    ensures PendingOrOverlooked(Watch(t[..k]), t[i].at)
  {
    if k == i + 1 {
      WatchAt(t, i);
    } else {
      StillPending(t, i, k - 1);
      LawfulAt(t, k - 1);
      StaysPending(Watch(t[..k - 1]), t[k - 1], t[i].at);
      WatchAt(t, k - 1);
    }
  }

  lemma {:induction false} OverlapIsNoted(t: seq<Action>, k: nat)
    requires k <= |t| && Watch(t[..k]).overlooked
    ensures Watch(t).overlooked
    decreases |t| - k
  {
    if k < |t| {
      OverlapStays(Watch(t[..k]), t[k]);
      WatchAt(t, k);
      OverlapIsNoted(t, k + 1);
    } else {
      assert t[..k] == t;
    }
  }

  /** What waits for an opening to be over. */
  predicate NeedsTheSocket(a: Action) {
    a.OpenIssued? || a.MqttConnected? || a.FailureCounted? || a.LinkFailed? || a.ModemReset? || a.LeaseTaken?
    || a.LeaseReturned?
  }

  /** Only once an opening is over - it opened, the modem answered that it is neither open nor opening,
      75 s have gone, or HTTP or the session's owner took the socket away - is a second socket asked
      for, a session connected, a failure counted, the link lent, given up or reset. Only an opening
      stamped 0 can be overlooked, and then the observer knows. */
  lemma OneOpeningAtATime(t: seq<Action>, i: nat, k: nat) returns (j: nat)
    requires Lawful(t) && i < k < |t| && t[i].OpenIssued? && NeedsTheSocket(t[k])
    requires t[i].at != 0 || !Watch(t).overlooked
    ensures i < j < k && t[j].OpenResolved? && Settles(t[j].why, t[j].when, t[i].at)
  {
    if j' :| i < j' < k && t[j'].OpenResolved? {
      j := FirstResolution(t, i, j');
      StillPending(t, i, j);
      if Watch(t[..j]).overlooked { OverlapIsNoted(t, j); }
      LawfulAt(t, j);
    } else {
      StillPending(t, i, k);
      LawfulAt(t, k);
      WatchAt(t, k);
      OverlapIsNoted(t, k + 1);
      assert false;
    }
  }

  lemma FirstResolution(t: seq<Action>, i: nat, k: nat) returns (j: nat)
    requires i < k < |t| && t[k].OpenResolved?
    ensures i < j <= k && t[j].OpenResolved? && forall m :: i < m < j ==> !t[m].OpenResolved?
  {
    j := i + 1;
    while !t[j].OpenResolved?
      invariant i < j <= k && forall m :: i < m < j ==> !t[m].OpenResolved?
      decreases k - j
    {
      j := j + 1;
    }
  }

  // ------------------------------------------------------------ recovery ladder

  predicate Restarts(a: Action) { a.MqttConnected? || a.ModemReset? }

  /** Counted transport failures since the last connection or modem reset. */
  function FailuresSince(t: seq<Action>): nat {
    if t == [] || Restarts(t[|t| - 1]) then 0
    else FailuresSince(t[..|t| - 1]) + if t[|t| - 1].FailureCounted? then 1 else 0
  }

  lemma {:induction false} WatchCountsFailures(t: seq<Action>)
    ensures Watch(t).failures == FailuresSince(t)
  {
    if t != [] {
      WatchCountsFailures(t[..|t| - 1]);
      match t[|t| - 1] { case FailureCounted => case MqttConnected => case ModemReset(_, _) => case _ => }
    }
  }

  /** The PDP is torn down only after at least three counted failures with no connection and
      no reset between; the ladder resets the modem on the fifth failure, at once, and on no
      other; there is never a sixth. */
  lemma LadderClimbs(t: seq<Action>, k: nat)
    requires Lawful(t) && k < |t|
    ensures t[k].PdpTornDown? ==> FailuresSince(t[..k]) in {3, 4}
    ensures t[k].ModemReset? && t[k].cause == Ladder <==> FailuresSince(t[..k]) == 5
    ensures FailuresSince(t[..k]) <= 5
  {
    LadderBound(t, k);
    LawfulAt(t, k);
    WatchCountsFailures(t[..k]);
  }

  lemma {:induction false} LadderBound(t: seq<Action>, k: nat)
    requires Lawful(t) && k <= |t|
    ensures FailuresSince(t[..k]) <= 5
  {
    if k > 0 {
      LadderBound(t, k - 1);
      LawfulAt(t, k - 1);
      WatchCountsFailures(t[..k - 1]);
      assert t[..k][..k - 1] == t[..k - 1];
    }
  }

  lemma {:induction false} ConnectedMeansNoFailures(t: seq<Action>)
    requires Lawful(t)
    ensures Watch(t).connected ==> Watch(t).failures == 0
  {
    if t != [] {
      ConnectedMeansNoFailures(t[..|t| - 1]);
      match t[|t| - 1] { case FailureCounted => case MqttConnected => case ModemReset(_, _) => case _ => }
    }
  }

  function Counted(t: seq<Action>): nat {
    if t == [] then 0 else Counted(t[..|t| - 1]) + if t[|t| - 1].FailureCounted? then 1 else 0
  }

  lemma {:induction false} FailuresAreFresh(t: seq<Action>, k: nat, m: nat)
    requires k <= m <= |t|
    ensures FailuresSince(t[..m]) <= FailuresSince(t[..k]) + Counted(t[k..m])
  {
    if k < m {
      FailuresAreFresh(t, k, m - 1);
      assert t[..m][..m - 1] == t[..m - 1] && t[k..m][..m - 1 - k] == t[k..m - 1];
    }
  }

  /** A session that drops finds the ladder at its foot and leaves it there: before the PDP is torn
      down at least three attempts have to fail after the drop. */
  lemma LostSessionsDoNotClimb(t: seq<Action>, k: nat, m: nat)
    requires Lawful(t) && k < m < |t| && t[k].SessionLost?
    ensures FailuresSince(t[..k + 1]) == 0
    ensures t[m].PdpTornDown? ==> Counted(t[k + 1..m]) >= 3
    ensures t[m].ModemReset? && t[m].cause == Ladder ==> Counted(t[k + 1..m]) >= 5
  {
    var p := t[..k];
    assert t[..k + 1][..k] == p;
    LawfulAt(t, k);
    LawfulPrefix(t, k);
    ConnectedMeansNoFailures(p);
    WatchCountsFailures(p);
    FailuresAreFresh(t, k + 1, m);
    LadderClimbs(t, m);
  }

  lemma {:induction false} LawfulPrefix(t: seq<Action>, k: nat)
    requires Lawful(t) && k <= |t|
    ensures Lawful(t[..k])
  {
    if k < |t| {
      LawfulPrefix(t[..|t| - 1], k);
      assert t[..|t| - 1][..k] == t[..k];
    } else {
      assert t[..k] == t;
    }
  }

  lemma AddressStays(o: Observer, a: Action)
    requires !a.PdpUp?
    ensures Observe(o, a).lastIp == o.lastIp
  {}

  lemma TornStays(o: Observer, a: Action)
    requires o.tornDown && !a.PdpUp? && !a.ModemReset?
    ensures Observe(o, a).tornDown
  {}

  lemma TornAt(t: seq<Action>, d: nat)
    requires d < |t| && t[d].PdpTornDown?
    ensures Watch(t[..d + 1]).tornDown
  {
    WatchAt(t, d);
  }

  lemma {:induction false} StillTorn(t: seq<Action>, d: nat, k: nat)
    requires d <= k <= |t| && Watch(t[..d]).tornDown
    requires forall j :: d <= j < k ==> !t[j].PdpUp? && !t[j].ModemReset?
    ensures Watch(t[..k]).tornDown
    decreases k - d
  {
    if d < k {
      TornStays(Watch(t[..d]), t[d]);
      WatchAt(t, d);
      StillTorn(t, d + 1, k);
    }
  }

  lemma {:induction false} LastIpStays(t: seq<Action>, i: nat, k: nat)
    requires i < k <= |t| && t[i].PdpUp?
    requires forall j :: i < j < k ==> !t[j].PdpUp?
    ensures Watch(t[..k]).lastIp == t[i].ip
  {
    if i < k - 1 {
      LastIpStays(t, i, k - 1);
      AddressStays(Watch(t[..k - 1]), t[k - 1]);
    }
    WatchAt(t, k - 1);
  }

  /** A PDP redone on purpose does not come back into use with the address it had. */
  lemma RedonePdpHasAnotherIp(t: seq<Action>, i: nat, d: nat, k: nat)
    requires Lawful(t) && i < d < k < |t| && t[i].PdpUp? && t[d].PdpTornDown? && t[k].PdpUp?
    requires forall j :: i < j < k ==> !t[j].PdpUp?
    requires forall j :: d < j < k ==> !t[j].ModemReset?
    ensures t[k].ip != t[i].ip || t[k].ip == 0
  {
    TornAt(t, d);
    StillTorn(t, d + 1, k);
    LastIpStays(t, i, k);
    LawfulAt(t, k);
  }

  /** Modem resets since the last connection. */
  function ResetsSince(t: seq<Action>): nat {
    if t == [] || t[|t| - 1].MqttConnected? then 0
    else ResetsSince(t[..|t| - 1]) + if t[|t| - 1].ModemReset? then 1 else 0
  }

  lemma {:induction false} WatchCountsResets(t: seq<Action>)
    ensures Watch(t).resets == ResetsSince(t)
  {
    if t != [] {
      WatchCountsResets(t[..|t| - 1]);
      match t[|t| - 1] { case MqttConnected => case ModemReset(_, _) => case _ => }
    }
  }

  /** The first reset after a connection is CFUN=1,1; the next ones alternate with CFUN=0/1
      until the counter saturates, and from then on only the radio is cycled. */
  lemma ResetsAlternate(t: seq<Action>, i: nat, k: nat)
    requires Lawful(t) && i < k < |t| && t[i].ModemReset? && t[k].ModemReset?
    requires forall j :: i < j < k ==> !Restarts(t[j])
    ensures ResetsSince(t[..i]) == 0 ==> t[i].full
    ensures ResetsSince(t[..i]) < 254 ==> t[k].full == !t[i].full
    ensures ResetsSince(t[..i]) >= 254 ==> !t[k].full
  {
    ResetKind(t, i);
    ResetKind(t, k);
    ResetsStay(t, i, k);
  }

  /** No reset is sent without grounds. */
  lemma ResetHasGrounds(t: seq<Action>, k: nat)
    requires Lawful(t) && k < |t| && t[k].ModemReset?
    ensures Grounds(Watch(t[..k]), t[k].cause)
  {
    LawfulAt(t, k);
  }

  /** Which of the two resets is sent depends only on how many were sent since the last connection. */
  lemma ResetKind(t: seq<Action>, k: nat)
    requires Lawful(t) && k < |t| && t[k].ModemReset?
    ensures t[k].full <==> ResetsSince(t[..k]) < 255 && ResetsSince(t[..k]) % 2 == 0
  {
    LawfulAt(t, k);
    WatchCountsResets(t[..k]);
  }

  lemma {:induction false} ResetsStay(t: seq<Action>, i: nat, k: nat)
    requires i < k <= |t| && t[i].ModemReset? && forall j :: i < j < k ==> !Restarts(t[j])
    ensures ResetsSince(t[..k]) == ResetsSince(t[..i]) + 1
  {
    assert t[..k][..k - 1] == t[..k - 1];
    if i < k - 1 { ResetsStay(t, i, k - 1); }
  }

  /** Times the link gave up since a PDP last came up. */
  function DownsSince(t: seq<Action>): nat {
    if t == [] || t[|t| - 1].PdpUp? then 0
    else DownsSince(t[..|t| - 1]) + if t[|t| - 1].LinkFailed? then 1 else 0
  }

  lemma {:induction false} WatchCountsDowns(t: seq<Action>)
    ensures Watch(t).downs == DownsSince(t)
  {
    if t != [] {
      WatchCountsDowns(t[..|t| - 1]);
      match t[|t| - 1] { case LinkFailed(_, _) => case PdpUp(_) => case _ => }
    }
  }

  /** Giving up waits longer each time, and only a PDP that comes up makes the wait short again:
      2, 5, 15, then always 30 seconds, whatever resets happen in between. And the wait takes place:
      the next thing that happens at all is the retry, at a reading not before its end. */
  lemma WaitsEscalate(t: seq<Action>, k: nat)
    requires Lawful(t) && k < |t| && t[k].LinkFailed?
    ensures t[k].wait == LinkBackoffMs(DownsSince(t[..k]))
    ensures k + 1 < |t| ==> t[k + 1].LinkRetries? && t[k + 1].at >= Later(t[k].at, t[k].wait)
  {
    LawfulAt(t, k);
    WatchCountsDowns(t[..k]);
    if k + 1 < |t| {
      WatchAt(t, k);
      LawfulAt(t, k + 1);
    }
  }

  /** And a retry only ever follows a failure. */
  lemma RetryFollowsFailure(t: seq<Action>, k: nat)
    requires Lawful(t) && k < |t| && t[k].LinkRetries?
    ensures k > 0 && t[k - 1].LinkFailed?
  {
    LawfulAt(t, k);
    if k > 0 {
      WatchAt(t, k - 1);
      LawfulAt(t, k - 1);
    }
  }

  // ------------------------------------------------------- histories of the firmware

  function HistoryOf(boot: Word32, start: Word32, events: seq<Event>): seq<Action> {
    Run(Initial(boot, start), events).trace
  }

  /** The ladder, in everything the firmware can do. */
  lemma FirmwareLadder(boot: Word32, start: Word32, events: seq<Event>)
    ensures var t := HistoryOf(boot, start, events);
      forall k :: 0 <= k < |t| ==> LadderAt(t, k)
  {
    EveryRunIsLawful(boot, start, events);
    var t := HistoryOf(boot, start, events);
    forall k | 0 <= k < |t| ensures LadderAt(t, k) {
      LadderClimbs(t, k);
      if t[k].LinkFailed? { WaitsEscalate(t, k); }
      if t[k].LinkRetries? { RetryFollowsFailure(t, k); }
      if t[k].ModemReset? { ResetKind(t, k); }
    }
  }

  predicate LadderAt(t: seq<Action>, k: nat)
    requires k < |t|
  {
    var failures, resets := FailuresSince(t[..k]), ResetsSince(t[..k]);
    && (t[k].PdpTornDown? ==> 3 <= failures <= 4)
    && (t[k].ModemReset? && t[k].cause == Ladder <==> failures == 5)
    && (t[k].ModemReset? ==> (t[k].full <==> resets < 255 && resets % 2 == 0))
    && (t[k].LinkFailed? ==> t[k].wait == LinkBackoffMs(DownsSince(t[..k])))
    && (t[k].LinkFailed? && k + 1 < |t| ==> t[k + 1].LinkRetries? && t[k + 1].at >= Later(t[k].at, t[k].wait))
    && (t[k].LinkRetries? ==> k > 0 && t[k - 1].LinkFailed?)
  }

  /** The openings, likewise: every opening whose stamp is not 0, and where none was forgotten, all. */
  lemma FirmwareOpenings(boot: Word32, start: Word32, events: seq<Event>)
    ensures var t, all := HistoryOf(boot, start, events), Remembered(Initial(boot, start), events);
      forall i, k :: 0 <= i < k < |t| && Waits(t, i, k) && (t[i].at != 0 || all) ==> OverBetween(t, i, k)
  {
    EveryRunIsLawful(boot, start, events);
    TrackedExactlyWhenRemembered(boot, start, events);
    var t, all := HistoryOf(boot, start, events), Remembered(Initial(boot, start), events);
    forall i, k | 0 <= i < k < |t| && Waits(t, i, k) && (t[i].at != 0 || all) ensures OverBetween(t, i, k) {
      var j := OneOpeningAtATime(t, i, k);
    }
  }

  predicate Waits(t: seq<Action>, i: nat, k: nat)
    requires i < k < |t|
  {
    t[i].OpenIssued? && NeedsTheSocket(t[k])
  }

  predicate OverBetween(t: seq<Action>, i: nat, k: nat)
    requires i < k <= |t| && t[i].OpenIssued?
  {
    exists j :: i < j < k && t[j].OpenResolved? && Settles(t[j].why, t[j].when, t[i].at)
  }

  /** The leases, likewise. */
  lemma FirmwareLeases(boot: Word32, start: Word32, events: seq<Event>)
    ensures var t := HistoryOf(boot, start, events);
      forall i, k :: 0 <= i < k < |t| && t[i].LeaseTaken? && NeedsTheLink(t[k]) ==> ReturnedBetween(t, i, k)
  {
    EveryRunIsLawful(boot, start, events);
    var t := HistoryOf(boot, start, events);
    forall i, k | 0 <= i < k < |t| && t[i].LeaseTaken? && NeedsTheLink(t[k]) ensures ReturnedBetween(t, i, k) {
      var j := NothingUnderALease(t, i, k);
    }
  }

  predicate ReturnedBetween(t: seq<Action>, i: nat, k: nat)
    requires i < k <= |t|
  {
    exists j :: i < j < k && t[j].LeaseReturned?
  }

  /** Addresses, likewise: of two PDPs in a row with a teardown and no reset between. */
  lemma FirmwareAddresses(boot: Word32, start: Word32, events: seq<Event>)
    ensures var t := HistoryOf(boot, start, events);
      forall i, d, k :: 0 <= i < d < k < |t| && RedoneBetween(t, i, d, k) ==> t[k].ip != t[i].ip || t[k].ip == 0
  {
    EveryRunIsLawful(boot, start, events);
    var t := HistoryOf(boot, start, events);
    forall i, d, k | 0 <= i < d < k < |t| && RedoneBetween(t, i, d, k) ensures t[k].ip != t[i].ip || t[k].ip == 0 {
      RedonePdpHasAnotherIp(t, i, d, k);
    }
  }

  predicate RedoneBetween(t: seq<Action>, i: nat, d: nat, k: nat)
    requires i < d < k < |t|
  {
    && t[i].PdpUp? && t[d].PdpTornDown? && t[k].PdpUp?
    && (forall j :: i < j < k ==> !t[j].PdpUp?) && (forall j :: d < j < k ==> !t[j].ModemReset?)
  }

  /** And drops: what has to fail after a session was lost before the PDP or the modem is touched. */
  lemma FirmwareDrops(boot: Word32, start: Word32, events: seq<Event>)
    ensures var t := HistoryOf(boot, start, events);
      forall k, m :: 0 <= k < m < |t| && t[k].SessionLost? ==> FreshFailures(t, k, m)
  {
    EveryRunIsLawful(boot, start, events);
    var t := HistoryOf(boot, start, events);
    forall k, m | 0 <= k < m < |t| && t[k].SessionLost? ensures FreshFailures(t, k, m) {
      LostSessionsDoNotClimb(t, k, m);
    }
  }

  predicate FreshFailures(t: seq<Action>, k: nat, m: nat)
    requires k < m < |t|
  {
    && (t[m].PdpTornDown? ==> Counted(t[k + 1..m]) >= 3)
    && (t[m].ModemReset? && t[m].cause == Ladder ==> Counted(t[k + 1..m]) >= 5)
  }

  // --------------------------------------------------------------- the zero stamp

  /** Where an opening is forgotten: it is asked for when `millis()` reads 0 and still reported
      CONNECTING when the attempt ends. The next pass, its second later, asks for another. */
  lemma ZeroStampForgetsAnOpening(s: System, now: Word32, a: SessionAnswers, later: Word32, b: SessionAnswers)
    requires s.session.cipstartMs == 0 && !s.session.libraryUp && !s.session.conectado
    requires Attempts(s, now, a) && SocketWaits(s, a) && a.tOpen == 0 <= a.tEval <= a.tEnd
    requires a.tEnd + REAVALIAR_MS <= later <= b.tOpen <= b.tEval
    requires !b.socketUp && b.tcpOpened && !b.mqttOk && b.mqttState >= 0
    ensures SessionLoopStep(SessionLoopStep(s, now, a), later, b).trace ==
      s.trace + [OpenIssued(0), OpenIssued(b.tOpen), OpenResolved(Opened(true), b.tEval)]
  {}

  const QUIET := SessionAnswers(true, false, false, Abrindo, false, 5, 0, 0, 0, 0, 0)

  /** A device whose clock wraps while its first socket is being opened. Its PDP is up 64 s before
      the wrap; the opening is stamped at the wrap, overruns its 45 s, and is asked after. */
  function ForgetfulRun(): seq<Event> {
    var modem := LinkAnswers(true, true, 1, 20, true, 1, 0);
    [LinkLoop(4294903000, modem), LinkLoop(4294903100, modem), LinkLoop(4294903200, modem), LinkLoop(4294903300, modem),
     SessionBegin,
     SessionLoop(4294967295, QUIET.(tEval := 45000, tEnd := 45010)),
     SessionLoop(46020, QUIET.(tcpOpened := true, tOpen := 46021, tEval := 46500))]
  }

  lemma RunSnoc(s: System, events: seq<Event>, e: Event)
    ensures Run(s, events + [e]) == Step(Run(s, events), e)
  {
    assert (events + [e])[..|events|] == events;
  }

  /** From boot, with a clock that only moves forward, to a second socket over a pending one: the one
      claim about openings that fails, in a run that is lawful in everything else. */
  lemma ForgetfulRunOverlaps()
    ensures var t := HistoryOf(3000, 4294900000, ForgetfulRun());
      && t == [PdpUp(1), OpenIssued(0), OpenIssued(46021), OpenResolved(Opened(true), 46500)]
      && !OverBetween(t, 1, 2) && !Remembered(Initial(3000, 4294900000), ForgetfulRun()) && Lawful(t)
  {
    var s0, es := Initial(3000, 4294900000), ForgetfulRun();
    ForgetfulBoot();
    ForgetfulPasses(Run(s0, es[..5]));
    assert es[..6] == es[..5] + [es[5]] && es == es[..6] + [es[6]];
    RunSnoc(s0, es[..5], es[5]);
    RunSnoc(s0, es[..6], es[6]);
    FirmwareOpenings(3000, 4294900000, es);
    EveryRunIsLawful(3000, 4294900000, es);
  }

  lemma ForgetfulPasses(s: System)
    requires s.link.state == Ready && !s.link.httpLeased && s.trace == [PdpUp(1)]
    requires s.session == Initial(3000, 4294900000).session.(configurado := true)
    ensures Step(Step(s, ForgetfulRun()[5]), ForgetfulRun()[6]).trace ==
      [PdpUp(1), OpenIssued(0), OpenIssued(46021), OpenResolved(Opened(true), 46500)]
  {
    var e, f := ForgetfulRun()[5], ForgetfulRun()[6];
    ZeroStampForgetsAnOpening(s, e.now, e.session, f.now, f.session);
    assert s.trace + [OpenIssued(0), OpenIssued(46021), OpenResolved(Opened(true), 46500)] ==
      [PdpUp(1), OpenIssued(0), OpenIssued(46021), OpenResolved(Opened(true), 46500)];
  }

  lemma ForgetfulBoot()
    ensures var s := Run(Initial(3000, 4294900000), ForgetfulRun()[..5]);
      && s.link.state == Ready && !s.link.httpLeased && s.trace == [PdpUp(1)]
      && s.session == Initial(3000, 4294900000).session.(configurado := true)
  {
    var s0 := Initial(3000, 4294900000);
    var es := ForgetfulRun();
    assert es[..0] == [] && es[..1] == es[..0] + [es[0]] && es[..2] == es[..1] + [es[1]];
    assert es[..3] == es[..2] + [es[2]] && es[..4] == es[..3] + [es[3]] && es[..5] == es[..4] + [es[4]];
    RunSnoc(s0, es[..0], es[0]);
    RunSnoc(s0, es[..1], es[1]);
    RunSnoc(s0, es[..2], es[2]);
    RunSnoc(s0, es[..3], es[3]);
    RunSnoc(s0, es[..4], es[4]);
    var s1 := Run(s0, es[..1]);
    assert s1 == s0.(link := s0.link.(state := Init, since := 4294903000));
    var s3 := Run(s0, es[..3]);
    assert s3.link.state == Attaching && s3.session == s0.session && s3.trace == [];
  }
}
