/** Continuous coverage: if mints and Secret calls succeed and reconciles keep their
    appointments, the Secret holds an unexpired credential at every instant after the
    first mint, even if writes of the object fail or conflict. */
module Coverage {
  import opened Api
  import opened Schedule
  import opened Machine
  import opened Invariants
  import opened Safety

  /** How slow things may be: a reconcile begins at most `late` after the wake-up that
      was asked for, or after the latest end of a reconcile that failed; and it takes at
      most `busy` from beginning to end. */
  datatype Pace = Pace(late: Time, busy: Time) {
    ghost predicate Valid() {
      late >= 0 && busy >= 0
    }

    /** What an effective rotation window must exceed: the floor on requeues, plus
        the time that may pass between reading the clock and the next Secret write. */
    function Room(): Time {
      MIN_REQUEUE_AFTER + late + 2 * busy
    }
  }

  /** The spec names a registered provider and asks for a window with room to spare. */
  ghost predicate RoomySpec(cfg: Config, pace: Pace, spec: Spec) {
    cfg.Lookup(spec.provider).Some? && RequestedRotateBefore(spec) > pace.Room()
  }

  /** Half of the grant has room to spare, as granted and as persisted. */
  ghost predicate RoomyGrant(cfg: Config, pace: Pace, at: Time, expiresAt: Time)
    requires cfg.Valid()
  {
    && (expiresAt - at) / 2 > pace.Room()
    && (Truncate(cfg.unit, expiresAt) - Truncate(cfg.unit, at)) / 2 > pace.Room()
  }

  /** A credential is in the Secret and is being recorded in the object. */
  predicate Recording(pc: Pc) {
    pc.WriteHandle? || pc.WriteStatus? || pc.RevokeOld?
  }

  /** The latest time at which the next reconcile begins. */
  function Due(pace: Pace, s: State): Time {
    if s.wake.Some? then s.wake.value + pace.late else s.began + pace.busy + pace.late
  }

  /** Mint and the calls on the Secret succeed, nobody deletes, specs and grants have
      room, and time passes no faster than the controller keeps up with. Writes of the
      object and Revoke may fail, also when they have landed, and the controller may
      crash once the Secret is written. Reconciles may begin at any time, and the spec
      and the metadata may be edited. */
  ghost predicate Calm(cfg: Config, pace: Pace, s: State, e: Event)
    requires cfg.Valid()
  {
    match e
    case Tick(to) =>
      if s.pc.Idle? then s.minted != [] ==> to <= Due(pace, s)
      else to <= s.began + pace.busy
    case EditSpec(spec) => RoomySpec(cfg, pace, spec)
    case EditMetadata => true
    case DeleteObject => false
    case DeleteSecret => false
    case Crash => Recording(s.pc)
    case Begin => true
    case ReadClock => true
    case Return(outcome, expiresAt) =>
      && (outcome.Done? || s.pc.WritesObject() || s.pc.RevokeOld?)
      && (s.pc.Mint? ==> RoomyGrant(cfg, pace, s.pc.now, expiresAt))
  }

  ghost predicate CalmLife(cfg: Config, pace: Pace, run: Run) {
    && Life(cfg, run) && pace.Valid()
    && match run
       case Start(s) => RoomySpec(cfg, pace, s.ec.value.spec)
       case Then(before, e) => CalmLife(cfg, pace, before) && Calm(cfg, pace, before.Last(cfg), e)
  }

  // ---------------------------------------------------------------- windows

  /** What is asked of specs and grants is exactly that both ways to compute the
      effective window leave room. */
  lemma WindowsHaveRoom(cfg: Config, pace: Pace, spec: Spec, status: Status, at: Time, expiresAt: Time)
    requires cfg.Valid() && pace.Valid() && Truncate(cfg.unit, at) < Truncate(cfg.unit, expiresAt)
    requires status.expiresAt == Some(Truncate(cfg.unit, expiresAt))
    requires status.lastRotatedAt == Some(Truncate(cfg.unit, at))
    ensures StatusWindow(spec, status) > pace.Room() && GrantWindow(spec, expiresAt, at) > pace.Room()
       <==> RequestedRotateBefore(spec) > pace.Room() && RoomyGrant(cfg, pace, at, expiresAt)
    ensures RoomyGrant(cfg, pace, at, expiresAt) ==> GrantWindow(spec, expiresAt, at) < expiresAt - at
  {
    if expiresAt <= at {
      TruncateMonotone(cfg.unit, expiresAt, at);
    }
  }

  /** A reconcile that finds `now + window` before an expiry, and ends within `busy`,
      asks for a wake-up from which the next Secret write comes in time. */
  lemma WakesInTime(pace: Pace, expiresAt: Time, window: Time, now: Time, clock: Time)
    requires pace.Valid() && window > pace.Room() && now + window < expiresAt && clock <= now + pace.busy
    ensures clock + RequeueAfter(expiresAt, window, now) + pace.late + pace.busy < expiresAt
  {
  }

  // ---------------------------------------------------------------- stages

  ghost predicate Minting(pc: Pc) {
    pc.Decide? || pc.CheckSecret? || pc.BuildScope? || pc.Mint? || InHand(pc) || pc.RevokeOld?
  }

  /** The stages that a calm life goes through. */
  ghost predicate CalmInv(cfg: Config, pace: Pace, s: State) {
    && s.ec.Some? && !s.ec.value.deleting && RoomySpec(cfg, pace, s.ec.value.spec)
    && (s.pc.Idle? || s.pc.AddFinalizer? || s.pc.WritePending? || Minting(s.pc))
    && (!s.pc.Idle? ==>
          && RoomySpec(cfg, pace, s.pc.view.spec) && s.wake.None?
          && s.began <= s.clock <= s.began + pace.busy)
    && (s.pc.CheckSecret? ==> !NeedsMint(s.pc.view, s.pc.now))
    && (s.pc.CheckSecret? || s.pc.BuildScope? || s.pc.Mint? ==> s.began <= s.pc.now <= s.clock)
    && (InHand(s.pc) || s.pc.RevokeOld? ==> s.began <= s.pc.grant.at <= s.clock)
  }

  lemma CalmStep(cfg: Config, pace: Pace, s: State, e: Event)
    requires cfg.Valid() && pace.Valid() && ViewInv(cfg, s) && CalmInv(cfg, pace, s)
    requires Enabled(s, e) && Calm(cfg, pace, s, e)
    ensures CalmInv(cfg, pace, Apply(cfg, s, e))
  {
    if e.Return? {
      if Moves(s.pc) {
        CalmMoved(cfg, pace, s, e.outcome, e.expiresAt);
      } else {
        CalmUnmoved(cfg, pace, s, e.outcome, e.expiresAt);
      }
    } else {
      CalmKept(cfg, pace, s, e);
    }
  }

  lemma CalmMoved(cfg: Config, pace: Pace, s: State, outcome: Outcome, expiresAt: Time)
    requires cfg.Valid() && ViewInv(cfg, s) && CalmInv(cfg, pace, s) && Moves(s.pc)
    requires Enabled(s, Return(outcome, expiresAt)) && Calm(cfg, pace, s, Return(outcome, expiresAt))
    ensures CalmInv(cfg, pace, Returned(cfg, s, outcome, expiresAt))
  {
  }

  lemma CalmUnmoved(cfg: Config, pace: Pace, s: State, outcome: Outcome, expiresAt: Time)
    requires cfg.Valid() && ViewInv(cfg, s) && CalmInv(cfg, pace, s) && !Moves(s.pc)
    requires Enabled(s, Return(outcome, expiresAt)) && Calm(cfg, pace, s, Return(outcome, expiresAt))
    ensures CalmInv(cfg, pace, Returned(cfg, s, outcome, expiresAt))
  {
  }

  lemma CalmKept(cfg: Config, pace: Pace, s: State, e: Event)
    requires cfg.Valid() && pace.Valid() && CalmInv(cfg, pace, s)
    requires Enabled(s, e) && Calm(cfg, pace, s, e) && !e.Return?
    ensures CalmInv(cfg, pace, Apply(cfg, s, e))
  {
  }

  // ---------------------------------------------------------------- the Secret

  /** Every mint has room, and the Secret is there from the first write on. */
  ghost predicate StockInv(cfg: Config, pace: Pace, s: State)
    requires cfg.Valid()
  {
    && (forall g :: g in s.minted ==> RoomyGrant(cfg, pace, g.at, g.expiresAt))
    && (s.secret.None? ==> s.minted == [] || (s.pc.WriteSecret? && |s.minted| == 1))
    && (s.secret.Some? ==> Minting(s.pc) || s.pc.Idle?)
    && (Recording(s.pc) ==> s.secret == Some(s.pc.token))
  }

  lemma StockStep(cfg: Config, pace: Pace, s: State, e: Event)
    requires cfg.Valid() && pace.Valid() && ViewInv(cfg, s) && LedgerInv(s) && FinalizerInv(cfg, s)
    requires CalmInv(cfg, pace, s) && StockInv(cfg, pace, s) && Enabled(s, e) && Calm(cfg, pace, s, e)
    ensures StockInv(cfg, pace, Apply(cfg, s, e))
  {
    if e.Return? {
      StockReturn(cfg, pace, s, e);
    }
  }

  lemma StockReturn(cfg: Config, pace: Pace, s: State, e: Event)
    requires cfg.Valid() && pace.Valid() && ViewInv(cfg, s) && LedgerInv(s) && FinalizerInv(cfg, s)
    requires CalmInv(cfg, pace, s) && StockInv(cfg, pace, s) && Enabled(s, e) && Calm(cfg, pace, s, e) && e.Return?
    ensures StockInv(cfg, pace, Apply(cfg, s, e))
  {
  }

  // ---------------------------------------------------------------- stale records

  /** The Secret holds a credential that the status does not tell of. */
  ghost predicate Stale(s: State) {
    s.secret.Some? && s.described != s.secret
  }

  /** As long as a credential goes unrecorded, a mint is due: what made it due goes on to
      do so until a status is written. So a reconcile that finds none due looks at the
      credential that the status tells of. */
  ghost predicate StaleInv(s: State) {
    && (s.ec.Some? && Stale(s) ==> NeedsMint(s.ec.value, s.clock))
    && (s.pc.Decide? && Stale(s) ==> NeedsMint(s.pc.view, s.clock))
    && (s.pc.CheckSecret? ==> !Stale(s))
    && (s.pc.BuildScope? || s.pc.Mint? ==> NeedsMint(s.pc.view, s.pc.now))
    && (InHand(s.pc) ==> NeedsMint(s.pc.view, s.pc.grant.at))
  }

  /** What was due by the copy at some time is due by the object later. */
  lemma StaysDue(s: State, view: EC, t: Time)
    requires s.ec.Some? && Owned(s, view) && Dated(view.status, view.generation)
    requires NeedsMint(view, t) && t <= s.clock
    ensures NeedsMint(s.ec.value, s.clock)
  {
  }

  lemma StaleKept(cfg: Config, pace: Pace, s: State, e: Event)
    requires cfg.Valid() && LifecycleInv(s) && StaleInv(s)
    requires Enabled(s, e) && Calm(cfg, pace, s, e) && !e.Return?
    ensures StaleInv(Apply(cfg, s, e))
  {
  }

  lemma StaleMoved(cfg: Config, pace: Pace, s: State, outcome: Outcome, expiresAt: Time)
    requires cfg.Valid() && ViewInv(cfg, s) && LifecycleInv(s) && StaleInv(s)
    requires CalmInv(cfg, pace, s) && StockInv(cfg, pace, s) && Moves(s.pc)
    requires Enabled(s, Return(outcome, expiresAt)) && Calm(cfg, pace, s, Return(outcome, expiresAt))
    ensures StaleInv(Returned(cfg, s, outcome, expiresAt))
  {
    if InHand(s.pc) {
      StaysDue(s, s.pc.view, s.pc.grant.at);
    }
  }

  lemma StaleUnmoved(cfg: Config, pace: Pace, s: State, outcome: Outcome, expiresAt: Time)
    requires cfg.Valid() && ViewInv(cfg, s) && LedgerInv(s) && DescribeInv(cfg, s) && StaleInv(s)
    requires CalmInv(cfg, pace, s) && StockInv(cfg, pace, s) && !Moves(s.pc)
    requires Enabled(s, Return(outcome, expiresAt)) && Calm(cfg, pace, s, Return(outcome, expiresAt))
    ensures StaleInv(Returned(cfg, s, outcome, expiresAt))
  {
  }

  lemma StaleStep(cfg: Config, pace: Pace, s: State, e: Event)
    requires cfg.Valid() && pace.Valid() && Inv(cfg, s) && StaleInv(s)
    requires CalmInv(cfg, pace, s) && StockInv(cfg, pace, s) && Enabled(s, e) && Calm(cfg, pace, s, e)
    ensures StaleInv(Apply(cfg, s, e))
  {
    if e.Return? {
      if Moves(s.pc) {
        StaleMoved(cfg, pace, s, e.outcome, e.expiresAt);
      } else {
        StaleUnmoved(cfg, pace, s, e.outcome, e.expiresAt);
      }
    } else {
      StaleKept(cfg, pace, s, e);
    }
  }

  // ---------------------------------------------------------------- cover

  /** The latest instant by which the next Secret write comes. */
  ghost function Horizon(pace: Pace, s: State): Time {
    if s.pc.Idle? then Due(pace, s) + pace.busy else s.began + pace.busy
  }

  /** The credential in the Secret outlives the horizon. */
  ghost predicate CoverInv(pace: Pace, s: State) {
    s.secret.Some? && s.secret.value < |s.minted| ==>
      && (s.pc.Idle? ==> s.clock <= Due(pace, s))
      && (Recording(s.pc) || Horizon(pace, s) < s.minted[s.secret.value].expiresAt)
  }

  lemma CoverFound(cfg: Config, pace: Pace, s: State, expiresAt: Time)
    requires cfg.Valid() && pace.Valid() && ViewInv(cfg, s) && LedgerInv(s) && DescribeInv(cfg, s) && s.pc.CheckSecret?
    requires CalmInv(cfg, pace, s) && StockInv(cfg, pace, s) && !Stale(s) && CoverInv(pace, s)
    ensures CoverInv(pace, Returned(cfg, s, Done, expiresAt))
  {
    if s.secret.Some? {
      var grant, status := s.minted[s.secret.value], s.ec.value.status;
      assert grant in s.minted;
      WindowsHaveRoom(cfg, pace, s.pc.view.spec, status, grant.at, grant.expiresAt);
      WakesInTime(pace, status.expiresAt.value, StatusWindow(s.pc.view.spec, status), s.pc.now, s.clock);
    }
  }

  /** A reconcile that has recorded the credential schedules the next one early enough;
      and one that could not is followed by the next one early enough. */
  lemma CoverRecorded(cfg: Config, pace: Pace, s: State, outcome: Outcome, expiresAt: Time)
    requires cfg.Valid() && pace.Valid() && LedgerInv(s) && Recording(s.pc)
    requires CalmInv(cfg, pace, s) && StockInv(cfg, pace, s)
    ensures CoverInv(pace, Returned(cfg, s, outcome, expiresAt))
  {
    var grant, spec := s.pc.grant, s.pc.view.spec;
    assert grant in s.minted;
    WindowsHaveRoom(cfg, pace, spec, MintedStatus(cfg.unit, 0, grant.at, grant.expiresAt), grant.at, grant.expiresAt);
    WakesInTime(pace, grant.expiresAt, GrantWindow(spec, grant.expiresAt, grant.at), grant.at, s.clock);
  }

  lemma CoverCrashed(cfg: Config, pace: Pace, s: State)
    requires cfg.Valid() && pace.Valid() && LedgerInv(s) && Recording(s.pc)
    requires CalmInv(cfg, pace, s) && StockInv(cfg, pace, s)
    ensures CoverInv(pace, Apply(cfg, s, Crash))
  {
    assert s.pc.grant in s.minted;
  }

  lemma CoverKept(cfg: Config, pace: Pace, s: State, e: Event)
    requires cfg.Valid() && pace.Valid() && ViewInv(cfg, s) && LedgerInv(s) && FinalizerInv(cfg, s)
    requires CalmInv(cfg, pace, s) && StockInv(cfg, pace, s) && CoverInv(pace, s)
    requires Enabled(s, e) && Calm(cfg, pace, s, e) && !e.Crash?
    requires !(e.Return? && (s.pc.CheckSecret? || Recording(s.pc)))
    ensures CoverInv(pace, Apply(cfg, s, e))
  {
  }

  lemma CoverStep(cfg: Config, pace: Pace, s: State, e: Event)
    requires cfg.Valid() && pace.Valid() && Inv(cfg, s) && StaleInv(s)
    requires CalmInv(cfg, pace, s) && StockInv(cfg, pace, s) && CoverInv(pace, s)
    requires Enabled(s, e) && Calm(cfg, pace, s, e)
    ensures CoverInv(pace, Apply(cfg, s, e))
  {
    if e.Return? && s.pc.CheckSecret? {
      CoverFound(cfg, pace, s, e.expiresAt);
    } else if e.Return? && Recording(s.pc) {
      CoverRecorded(cfg, pace, s, e.outcome, e.expiresAt);
    } else if e.Crash? {
      CoverCrashed(cfg, pace, s);
    } else {
      CoverKept(cfg, pace, s, e);
    }
  }

  lemma {:induction false} AlwaysCovered(cfg: Config, pace: Pace, run: Run)
    requires CalmLife(cfg, pace, run)
    ensures var s := run.Last(cfg);
            CalmInv(cfg, pace, s) && StockInv(cfg, pace, s) && StaleInv(s) && CoverInv(pace, s)
  {
    if run.Then? {
      var s := run.before.Last(cfg);
      AlwaysCovered(cfg, pace, run.before);
      Always(cfg, run.before);
      CalmStep(cfg, pace, s, run.event);
      StockStep(cfg, pace, s, run.event);
      StaleStep(cfg, pace, s, run.event);
      CoverStep(cfg, pace, s, run.event);
    }
  }

  /** Once the first mint has been written, the Secret never lacks an unexpired
      credential, and the one it holds has not been revoked. */
  lemma ContinuousCoverage(cfg: Config, pace: Pace, run: Run)
    requires CalmLife(cfg, pace, run)
    requires var s := run.Last(cfg);
             s.minted != [] && !(s.pc.WriteSecret? && |s.minted| == 1)
    ensures var s := run.Last(cfg);
            && s.secret.Some? && s.secret.value < |s.minted|
            && s.clock < s.minted[s.secret.value].expiresAt
            && !Revoked(s, s.secret.value)
  {
    AlwaysCovered(cfg, pace, run);
    Always(cfg, run);
    RevokesOnlySuperseded(cfg, run);
    var s := run.Last(cfg);
    assert s.minted[s.secret.value] in s.minted;
  }
}
