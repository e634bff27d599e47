/** Between rotations the controller leaves everything alone. */
module Quiescence {
  import opened Api
  import opened Schedule
  import opened Machine
  import opened Invariants

  /** A live object whose status is up to date with its spec and whose Secret exists. */
  ghost predicate AtRest(cfg: Config, s: State) {
    && s.ec.Some? && !s.ec.value.deleting && s.ec.value.finalizer
    && s.ec.value.status.expiresAt.Some?
    && s.ec.value.generation == s.ec.value.status.observedGeneration
    && s.secret.Some?
    && cfg.Lookup(s.ec.value.spec.provider).Some?
  }

  /** That is how a completed mint leaves things, if the Secret was not deleted
      meanwhile; all that may be left to do is to revoke the previous credential. */
  lemma RestAfterMint(cfg: Config, s: State, expiresAt: Time)
    requires cfg.Valid() && Inv(cfg, s) && s.pc.WriteStatus? && Enabled(s, Return(Done, expiresAt))
    requires s.secret.Some?
    ensures var s' := Returned(cfg, s, Done, expiresAt);
            && AtRest(cfg, s') && s'.revoked == s.revoked
            && (s'.pc.Idle? || (s'.pc.RevokeOld? && s.pc.previous == Some(s'.pc.target)))
  {
  }

  /** The reconcile that recorded a mint ends. */
  predicate EndsMint(s: State, e: Event, s': State) {
    && e.Return? && s'.pc.Idle?
    && ((s.pc.WriteStatus? && e.outcome.Done?) || s.pc.RevokeOld?)
  }

  /** The object as the mint recorded it. */
  function AsRecorded(s: State, s': State): EC
    requires s'.ec.Some? && (s.pc.RevokeOld? || s.pc.WriteStatus?)
  {
    if s.pc.RevokeOld? then s.pc.view else s'.ec.value
  }

  /** When the reconcile of a mint ends, it asks to be called again at least five seconds
      later. Counted from the time at which it had read the clock, that is a time at which
      a mint is due by the object as recorded; and it is less than one unit after a mint
      becomes due, for every grant of at least ten seconds, and exactly if the floor of
      five seconds ends by then. */
  lemma MintSchedulesRotation(cfg: Config, run: Run, e: Event)
    requires Life(cfg, Then(run, e)) && EndsMint(run.Last(cfg), e, Then(run, e).Last(cfg))
    requires (cfg.unit == 1 || cfg.unit % 2 == 0) && cfg.unit <= SECOND
    ensures var s, s' := run.Last(cfg), Then(run, e).Last(cfg);
            && s'.ec.Some? && s'.wake.Some?
            && var ec, grant, after := AsRecorded(s, s'), s.pc.grant, s'.wake.value - s'.clock;
               && after >= 5 * SECOND && ec.status.expiresAt.Some?
               && NeedsMint(ec, grant.at + after)
               && (grant.expiresAt - grant.at >= 10 * SECOND ==> !NeedsMint(ec, grant.at + after - cfg.unit))
               && (!NeedsMint(ec, grant.at + after - cfg.unit) <==>
                     grant.at + 5 * SECOND < WindowOpens(ec.spec, ec.status) + cfg.unit)
  {
    var s, s' := run.Last(cfg), Then(run, e).Last(cfg);
    Always(cfg, run);
    EndOfMint(cfg, s, e);
    var ec := AsRecorded(s, s');
    ScheduleMeetsPredicate(cfg.unit, ec, s.pc.grant.at, s.pc.grant.expiresAt);
    WakesPromptlyExactly(cfg.unit, ec, s.pc.grant.at, s.pc.grant.expiresAt);
    NeedsMintFrom(ec, s.pc.grant.at + (s'.wake.value - s'.clock) - cfg.unit);
  }

  lemma EndOfMint(cfg: Config, s: State, e: Event)
    requires cfg.Valid() && ViewInv(cfg, s) && DescribeInv(cfg, s) && Enabled(s, e) && EndsMint(s, e, Apply(cfg, s, e))
    ensures var s', grant := Apply(cfg, s, e), s.pc.grant;
            && s'.ec.Some? && s'.wake.Some?
            && AsRecorded(s, s').status ==
                 MintedStatus(cfg.unit, AsRecorded(s, s').generation, grant.at, grant.expiresAt)
            && grant.at + (s'.wake.value - s'.clock) == WakeUp(AsRecorded(s, s').spec, grant.at, grant.expiresAt)
  {
  }

  /** When the rotation window of the object at rest opens. */
  ghost function Opens(s: State): Time
    requires s.ec.Some? && s.ec.value.status.expiresAt.Some?
  {
    WindowOpens(s.ec.value.spec, s.ec.value.status)
  }

  /** `run` continues `from`: nobody but the controller acts, its calls may fail and it
      may crash, and the window does not open. */
  ghost predicate Undisturbed(cfg: Config, from: Run, run: Run)
    requires cfg.Valid() && from.Valid(cfg) && run.Valid(cfg) && AtRest(cfg, from.Last(cfg))
  {
    && run.Last(cfg).clock < Opens(from.Last(cfg))
    && (run == from ||
        (&& run.Then? && Undisturbed(cfg, from, run.before)
         && !run.event.EditSpec? && !run.event.EditMetadata?
         && !run.event.DeleteObject? && !run.event.DeleteSecret?))
  }

  /** No reconcile runs, or one that only looks at the object as it is. */
  ghost predicate Idling(s: State) {
    || s.pc.Idle?
    || (s.pc.Decide? && s.ec == Some(s.pc.view))
    || (s.pc.CheckSecret? && s.ec == Some(s.pc.view))
  }

  /** Nothing was minted or written between `s0` and `s`, and the only call of Revoke is
      the one that was pending in `s0`, if one was. */
  ghost predicate Quieted(s0: State, s: State) {
    && s.ec == s0.ec && s.secret == s0.secret && s.minted == s0.minted
    && (|| (s.revoked == s0.revoked && (Idling(s) || (s0.pc.RevokeOld? && s.pc == s0.pc)))
        || (&& s0.pc.RevokeOld? && Idling(s)
            && s.revoked == s0.revoked + [RevokeCall(s0.pc.grant.provider, s0.pc.target)]))
  }

  lemma QuietedStep(cfg: Config, s0: State, s: State, e: Event)
    requires cfg.Valid() && AtRest(cfg, s) && Quieted(s0, s) && Enabled(s, e) && s.clock < Opens(s)
    requires !e.EditSpec? && !e.EditMetadata? && !e.DeleteObject? && !e.DeleteSecret?
    ensures Quieted(s0, Apply(cfg, s, e))
  {
  }

  /** However many reconciles run, they mint, revoke and write nothing. */
  lemma {:induction false} NothingHappens(cfg: Config, from: Run, run: Run)
    requires cfg.Valid() && from.Valid(cfg) && run.Valid(cfg) && AtRest(cfg, from.Last(cfg))
    requires from.Last(cfg).pc.Idle? || from.Last(cfg).pc.RevokeOld?
    requires Undisturbed(cfg, from, run)
    ensures Quieted(from.Last(cfg), run.Last(cfg))
  {
    if run != from {
      NothingHappens(cfg, from, run.before);
      QuietedStep(cfg, from.Last(cfg), run.before.Last(cfg), run.event);
    }
  }

  /** From a completed mint on, until the window opens: the object, the Secret and the
      ledger stay as the mint left them, and the credential before it is the only one
      that may still be handed to Revoke. */
  lemma QuietAfterMint(cfg: Config, before: Run, expiresAt: Time, run: Run)
    requires Life(cfg, Then(before, Return(Done, expiresAt))) && run.Valid(cfg)
    requires before.Last(cfg).pc.WriteStatus? && before.Last(cfg).secret.Some?
    ensures var from := Then(before, Return(Done, expiresAt));
            && AtRest(cfg, from.Last(cfg))
            && (Undisturbed(cfg, from, run) ==>
                  && Quieted(from.Last(cfg), run.Last(cfg))
                  && forall call :: call in run.Last(cfg).revoked ==>
                       call in before.Last(cfg).revoked || Some(call.handle) == before.Last(cfg).pc.previous)
  {
    var from := Then(before, Return(Done, expiresAt));
    Always(cfg, before);
    RestAfterMint(cfg, before.Last(cfg), expiresAt);
    if Undisturbed(cfg, from, run) {
      NothingHappens(cfg, from, run);
      OnlyPending(from.Last(cfg), run.Last(cfg));
    }
  }

  lemma OnlyPending(s0: State, s: State)
    requires Quieted(s0, s)
    ensures forall call :: call in s.revoked ==>
      call in s0.revoked || (s0.pc.RevokeOld? && call.handle == s0.pc.target)
  {
  }

  /** Each reconcile that ends then asks for a wake-up at least five seconds away; and
      counted from the time it read, that is the instant at which the window opens,
      the same for all of them, until fewer than five seconds remain. */
  lemma WakeUpIsStable(cfg: Config, from: Run, run: Run, expiresAt: Time)
    requires cfg.Valid() && from.Valid(cfg) && run.Valid(cfg) && AtRest(cfg, from.Last(cfg))
    requires from.Last(cfg).pc.Idle? || from.Last(cfg).pc.RevokeOld?
    requires Undisturbed(cfg, from, run)
    requires run.Last(cfg).pc.CheckSecret?
    ensures var s := run.Last(cfg);
            var s' := Apply(cfg, s, Return(Done, expiresAt));
            && s'.pc.Idle? && s'.wake.Some?
            && var after := s'.wake.value - s.clock;
               && after >= MIN_REQUEUE_AFTER
               && s.pc.now + after ==
                    if s.pc.now <= Opens(from.Last(cfg)) - MIN_REQUEUE_AFTER then Opens(from.Last(cfg))
                    else s.pc.now + MIN_REQUEUE_AFTER
  {
    NothingHappens(cfg, from, run);
    var s := run.Last(cfg);
    var status := s.ec.value.status;
    StableWakeUp(status.expiresAt.value, StatusWindow(s.ec.value.spec, status), s.pc.now);
  }
}
