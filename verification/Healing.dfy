/** From any mess that a live object can be in, one reconcile that meets no failure
    restores a usable credential; and one such reconcile lets a deleted object go. */
module Healing {
  import opened Api
  import opened Schedule
  import opened Machine
  import opened Invariants
  import opened Safety

  /** What may happen during a failure-free reconcile: calls succeed, apart from the
      best-effort Revoke; time passes, and others may edit the object, as long as no
      call fails on that account. */
  predicate Smooth(s: State, e: Event) {
    && !e.Crash? && !e.DeleteObject? && !e.DeleteSecret?
    && (e.Return? ==> e.outcome.Done? || s.pc.RevokeOld? || s.pc.RevokeLast?)
  }

  /** `run` is `start` followed by one whole failure-free reconcile. */
  ghost predicate SmoothReconcile(cfg: Config, start: Run, run: Run) {
    Life(cfg, start) && Life(cfg, run) && Attempt(cfg, Smooth, start, run) && run.Last(cfg).pc.Idle?
  }

  // ---------------------------------------------------------------- there are such reconciles

  /** An upper bound on the steps left in a reconcile in which nothing goes wrong. */
  function StepsLeft(pc: Pc): nat {
    match pc
    case Idle => 0
    case AddFinalizer(_) => 2
    case WritePending(_) => 1
    case Decide(_, _) => 8
    case CheckSecret(_, _, _) => 7
    case BuildScope(_, _, _) => 6
    case Mint(_, _, _) => 5
    case WriteSecret(_, _, _) => 4
    case WriteHandle(_, _, _) => 3
    case WriteStatus(_, _, _, _) => 2
    case RevokeOld(_, _, _, _) => 1
    case Failing(_, _) => 3
    case DropSecret(_, _) => 2
    case WriteFailure(_, _, _) => 1
    case RevokeLast(_, _, _) => 3
    case DropLast(_) => 2
    case RemoveFinalizer(_) => 1
  }

  /** The running reconcile works on the object as it is. */
  ghost predicate UpToDate(s: State) {
    !s.pc.Idle? ==> s.ec == Some(s.pc.view)
  }

  /** What the pending call or clock reading yields when nothing goes wrong and a
      mint is granted until `expiresAt`. */
  function FairEvent(pc: Pc, expiresAt: Time): Event {
    if pc.ReadsClock() then ReadClock else Return(Done, expiresAt)
  }

  lemma FairStep(cfg: Config, s: State, expiresAt: Time)
    requires cfg.Valid() && UpToDate(s) && !s.pc.Idle?
    ensures var e := FairEvent(s.pc, expiresAt);
            && Enabled(s, e) && Smooth(s, e)
            && UpToDate(Apply(cfg, s, e))
            && StepsLeft(Apply(cfg, s, e).pc) < StepsLeft(s.pc)
            && Apply(cfg, s, e).clock == s.clock
            && s.minted <= Apply(cfg, s, e).minted
  {
  }

  /** Whatever has been read and written so far, a failure-free reconcile can be carried
      through, with any grant, unless others have changed the object under it. */
  lemma {:induction false} CanFinish(cfg: Config, start: Run, run: Run, expiresAt: Time) returns (last: Run)
    requires Life(cfg, start) && Life(cfg, run) && Attempt(cfg, Smooth, start, run) && UpToDate(run.Last(cfg))
    ensures SmoothReconcile(cfg, start, last) && Extends(last, run)
    ensures last.Last(cfg).clock == run.Last(cfg).clock && run.Last(cfg).minted <= last.Last(cfg).minted
    decreases StepsLeft(run.Last(cfg).pc)
  {
    var s := run.Last(cfg);
    last := run;
    if !s.pc.Idle? {
      var e := FairEvent(s.pc, expiresAt);
      FairStep(cfg, s, expiresAt);
      Attempts(cfg, Smooth, start, run, e);
      last := CanFinish(cfg, start, Then(run, e), expiresAt);
      ExtendsFurther(last, run, e);
    }
  }

  lemma {:induction false} ExtendsFurther(last: Run, run: Run, e: Event)
    requires Extends(last, Then(run, e))
    ensures Extends(last, run)
  {
    if last != Then(run, e) {
      ExtendsFurther(last.before, run, e);
    }
  }

  // ---------------------------------------------------------------- recovery

  /** The reconcile that began in `s0` leads to a usable credential: the one that was
      in the Secret, or one that it mints. */
  ghost predicate Recovering(s0: State, s: State)
    requires s0.ec.Some?
  {
    && s.ec.Some? && !s.ec.value.deleting && s0.clock <= s.clock
    && (|| (s.pc.Decide? && Unchanged(s0, s) && s.pc.view == s0.ec.value)
        || (s.pc.CheckSecret? && Unchanged(s0, s) && s.pc.view == s0.ec.value
            && s0.clock <= s.pc.now && !NeedsMint(s.pc.view, s.pc.now))
        || ((s.pc.BuildScope? || s.pc.Mint?) && s.minted == s0.minted && s0.clock <= s.pc.now)
        || (s.pc.WriteSecret? && MintedSince(s0, s))
        || ((s.pc.WriteHandle? || s.pc.WriteStatus? || s.pc.RevokeOld? || s.pc.Idle?)
            && MintedSince(s0, s) && s.secret == Some(|s0.minted|))
        || (s.pc.Idle? && Unchanged(s0, s) && KeptWell(s0)))
  }

  ghost predicate Unchanged(s0: State, s: State) {
    s.minted == s0.minted && s.secret == s0.secret
  }

  /** One credential has been minted since, and it was asked for after `s0`. */
  ghost predicate MintedSince(s0: State, s: State) {
    |s.minted| == |s0.minted| + 1 && s0.minted <= s.minted && s0.clock <= s.minted[|s0.minted|].at
  }

  /** The Secret exists, and no mint is due. */
  ghost predicate KeptWell(s0: State)
    requires s0.ec.Some?
  {
    s0.secret.Some? && !NeedsMint(s0.ec.value, s0.clock)
  }

  lemma RecoveringReturn(cfg: Config, s0: State, s: State, outcome: Outcome, expiresAt: Time)
    requires cfg.Valid() && ViewInv(cfg, s) && LedgerInv(s) && !s.pc.Idle? && s0.ec.Some?
    requires Recovering(s0, s) && Enabled(s, Return(outcome, expiresAt)) && Smooth(s, Return(outcome, expiresAt))
    ensures Recovering(s0, Returned(cfg, s, outcome, expiresAt))
  {
  }

  lemma RecoveringKept(cfg: Config, s0: State, s: State, e: Event)
    requires cfg.Valid() && !s.pc.Idle? && s0.ec.Some?
    requires Recovering(s0, s) && Enabled(s, e) && Smooth(s, e) && !e.Return?
    ensures Recovering(s0, Apply(cfg, s, e))
  {
  }

  /** A live object that has been adopted and names a registered provider. */
  ghost predicate Curable(cfg: Config, s: State) {
    s.ec.Some? && !s.ec.value.deleting && s.ec.value.finalizer && cfg.Lookup(s.ec.value.spec.provider).Some?
  }

  lemma {:induction false} AlwaysRecovering(cfg: Config, start: Run, run: Run)
    requires Life(cfg, start) && Life(cfg, run) && Attempt(cfg, Smooth, start, run)
    requires Curable(cfg, start.Last(cfg))
    ensures Recovering(start.Last(cfg), run.Last(cfg))
  {
    var s := run.before.Last(cfg);
    if !(run.before == start && run.event.Begin?) {
      AlwaysRecovering(cfg, start, run.before);
      Always(cfg, run.before);
      if run.event.Return? {
        RecoveringReturn(cfg, start.Last(cfg), s, run.event.outcome, run.event.expiresAt);
      } else {
        RecoveringKept(cfg, start.Last(cfg), s, run.event);
      }
    }
  }

  /** What was granted between `s0` and `s` was valid when it was asked for. */
  ghost predicate PositiveGrants(s0: State, s: State) {
    forall i :: |s0.minted| <= i < |s.minted| ==> s.minted[i].at < s.minted[i].expiresAt
  }

  /** One failure-free reconcile suffices for any live object that carries the
      finalizer: after the Secret was deleted, after any interrupted attempt, in any
      failed state, and however long the reconcile takes. The Secret then exists and
      its credential has not been revoked. If nothing was minted, it is the one that
      was there, and when the reconcile began its expiry was more than the rotation
      window away; otherwise it is the one credential that the reconcile minted. */
  lemma OneReconcileHeals(cfg: Config, start: Run, run: Run)
    requires SmoothReconcile(cfg, start, run) && Curable(cfg, start.Last(cfg))
    requires ExpiriesOrdered(run.Last(cfg)) && PositiveGrants(start.Last(cfg), run.Last(cfg))
    ensures var s0, s := start.Last(cfg), run.Last(cfg);
            && s.secret.Some? && s.secret.value < |s.minted| && !Revoked(s, s.secret.value)
            && s0.clock < s.minted[s.secret.value].expiresAt
            && if s.minted == s0.minted then
                 && s.secret == s0.secret
                 && s0.clock + StatusWindow(s0.ec.value.spec, s0.ec.value.status)
                      < s.minted[s.secret.value].expiresAt
               else
                 |s.minted| == |s0.minted| + 1 && s.secret == Some(|s0.minted|)
  {
    var s0, s := start.Last(cfg), run.Last(cfg);
    AlwaysRecovering(cfg, start, run);
    RevokesOnlySuperseded(cfg, run);
    if s.minted == s0.minted {
      StatusNeverOverPromises(cfg, start);
    }
  }

  /** The Secret exists and holds a credential that is neither revoked nor expired. */
  ghost predicate Usable(s: State) {
    && s.secret.Some? && s.secret.value < |s.minted|
    && s.clock < s.minted[s.secret.value].expiresAt
    && !Revoked(s, s.secret.value)
  }

  // ---------------------------------------------------------------- recovery in time

  /** What is known before the reconcile and decides whether it heals by the deadline: it
      is going to mint, or the credential in the Secret outlives the deadline. */
  predicate Safe(s0: State, deadline: Time)
    requires s0.ec.Some?
  {
    || NeedsMint(s0.ec.value, s0.clock)
    || s0.secret.None?
    || (s0.secret.value < |s0.minted| && deadline < s0.minted[s0.secret.value].expiresAt)
  }

  /** `run` adds to `start` a failure-free reconcile that ends by the deadline, and what it
      is granted outlasts that. */
  ghost predicate ReconcileBy(cfg: Config, start: Run, run: Run, deadline: Time) {
    && SmoothReconcile(cfg, start, run)
    && run.Last(cfg).clock <= deadline
    && forall i :: |start.Last(cfg).minted| <= i < |run.Last(cfg).minted| ==>
         deadline < run.Last(cfg).minted[i].expiresAt
  }

  /** Failure-free reconciles of a curable object that end by a deadline all end with a
      usable credential, if and only if the object is safe when they begin. */
  lemma HealsExactly(cfg: Config, start: Run, deadline: Time)
    requires Life(cfg, start) && start.Last(cfg).pc.Idle? && Curable(cfg, start.Last(cfg))
    requires start.Last(cfg).clock <= deadline
    ensures Safe(start.Last(cfg), deadline) <==>
      forall run :: ReconcileBy(cfg, start, run, deadline) ==> Usable(run.Last(cfg))
  {
    if Safe(start.Last(cfg), deadline) {
      forall run | ReconcileBy(cfg, start, run, deadline) ensures Usable(run.Last(cfg)) {
        SafeHeals(cfg, start, run, deadline);
      }
    } else {
      var run := UnsafeMayExpire(cfg, start, deadline);
    }
  }

  lemma SafeHeals(cfg: Config, start: Run, run: Run, deadline: Time)
    requires ReconcileBy(cfg, start, run, deadline)
    requires Curable(cfg, start.Last(cfg)) && Safe(start.Last(cfg), deadline)
    ensures Usable(run.Last(cfg))
  {
    AlwaysRecovering(cfg, start, run);
    RevokesOnlySuperseded(cfg, run);
  }

  /** An object that is not safe has a reconcile that finds nothing to do and ends, at the
      deadline, with an expired credential. */
  lemma UnsafeMayExpire(cfg: Config, start: Run, deadline: Time) returns (run: Run)
    requires Life(cfg, start) && start.Last(cfg).pc.Idle? && Curable(cfg, start.Last(cfg))
    requires start.Last(cfg).clock <= deadline && !Safe(start.Last(cfg), deadline)
    ensures ReconcileBy(cfg, start, run, deadline) && run.Last(cfg).clock == deadline
    ensures run.Last(cfg).minted == start.Last(cfg).minted && !Usable(run.Last(cfg))
  {
    Lives(cfg, start, Begin);
    run := Then(start, Begin);
    Attempts(cfg, Smooth, start, run, ReadClock);
    run := Then(run, ReadClock);
    Attempts(cfg, Smooth, start, run, Tick(deadline));
    run := Then(run, Tick(deadline));
    Attempts(cfg, Smooth, start, run, Return(Done, 0));
    run := Then(run, Return(Done, 0));
  }

  /** The reconcile takes no longer than the rotation window, and ends before what it
      was granted expires. */
  ghost predicate Swift(s0: State, s: State)
    requires s0.ec.Some?
  {
    && s.clock <= s0.clock + StatusWindow(s0.ec.value.spec, s0.ec.value.status)
    && forall i :: |s0.minted| <= i < |s.minted| ==> s.clock < s.minted[i].expiresAt
  }

  /** By what the status alone tells: a swift reconcile ends with a usable credential. */
  lemma SwiftHeals(cfg: Config, start: Run, run: Run)
    requires SmoothReconcile(cfg, start, run) && Curable(cfg, start.Last(cfg))
    requires ExpiriesOrdered(run.Last(cfg)) && PositiveGrants(start.Last(cfg), run.Last(cfg))
    requires Swift(start.Last(cfg), run.Last(cfg))
    ensures Usable(run.Last(cfg))
  {
    OneReconcileHeals(cfg, start, run);
  }

  /** Some limit is needed: in every such state there is a failure-free reconcile, with
      positive and ordered grants, that takes too long. */
  lemma TooSlowToHeal(cfg: Config, start: Run) returns (run: Run)
    requires Life(cfg, start) && start.Last(cfg).pc.Idle? && Curable(cfg, start.Last(cfg))
    ensures SmoothReconcile(cfg, start, run) && PositiveGrants(start.Last(cfg), run.Last(cfg))
    ensures ExpiriesOrdered(start.Last(cfg)) ==> ExpiriesOrdered(run.Last(cfg))
    ensures !Usable(run.Last(cfg))
  {
    var s0 := start.Last(cfg);
    Lives(cfg, start, Begin);
    run := Then(start, Begin);
    Attempts(cfg, Smooth, start, run, ReadClock);
    run := Then(run, ReadClock);
    if run.Last(cfg).pc.CheckSecret? {
      run := TooSlowToCheck(cfg, start, run);
    }
    if !run.Last(cfg).pc.Idle? {
      run := TooSlowToMint(cfg, start, run);
    }
  }

  lemma TooSlowToCheck(cfg: Config, start: Run, run: Run) returns (next: Run)
    requires Life(cfg, run) && Attempt(cfg, Smooth, start, run)
    requires UpToDate(run.Last(cfg)) && run.Last(cfg).pc.CheckSecret?
    ensures Life(cfg, next) && Attempt(cfg, Smooth, start, next) && next.Last(cfg).minted == run.Last(cfg).minted
    ensures var s := next.Last(cfg);
            UpToDate(s) && (s.pc.BuildScope? || (s.pc.Idle? && !Usable(s)))
  {
    var s := run.Last(cfg);
    Always(cfg, run);
    next := run;
    if s.secret.Some? && s.clock < s.minted[s.secret.value].expiresAt {
      var tick := Tick(s.minted[s.secret.value].expiresAt);
      Attempts(cfg, Smooth, start, run, tick);
      next := Then(run, tick);
    }
    Attempts(cfg, Smooth, start, next, Return(Done, 0));
    next := Then(next, Return(Done, 0));
  }

  lemma TooSlowToMint(cfg: Config, start: Run, run: Run) returns (last: Run)
    requires Life(cfg, start) && Curable(cfg, start.Last(cfg))
    requires Life(cfg, run) && Attempt(cfg, Smooth, start, run)
    requires UpToDate(run.Last(cfg)) && run.Last(cfg).pc.BuildScope?
    ensures SmoothReconcile(cfg, start, last) && PositiveGrants(start.Last(cfg), last.Last(cfg))
    ensures ExpiriesOrdered(start.Last(cfg)) ==> ExpiriesOrdered(last.Last(cfg))
    ensures !Usable(last.Last(cfg))
  {
    var s := run.Last(cfg);
    BeforeMint(cfg, start, run);
    var late := s.clock + 1;
    if s.minted != [] && late < s.minted[|s.minted| - 1].expiresAt {
      late := s.minted[|s.minted| - 1].expiresAt;
    }
    var next := ExpiredMint(cfg, start, run, late);
    last := CanFinish(cfg, start, next, 0);
    AfterMint(cfg, start, last);
    assert last.Last(cfg).minted == next.Last(cfg).minted;
    LateMint(start.Last(cfg), last.Last(cfg), Grant(s.pc.prov.name, s.pc.now, late));
  }

  lemma BeforeMint(cfg: Config, start: Run, run: Run)
    requires Life(cfg, start) && Curable(cfg, start.Last(cfg))
    requires Life(cfg, run) && Attempt(cfg, Smooth, start, run) && run.Last(cfg).pc.BuildScope?
    ensures run.Last(cfg).minted == start.Last(cfg).minted && run.Last(cfg).pc.now <= run.Last(cfg).clock
  {
    AlwaysRecovering(cfg, start, run);
    Always(cfg, run);
  }

  lemma AfterMint(cfg: Config, start: Run, run: Run)
    requires SmoothReconcile(cfg, start, run) && Curable(cfg, start.Last(cfg))
    ensures var s0, s := start.Last(cfg), run.Last(cfg);
            s.minted == s0.minted || (|s.minted| == |s0.minted| + 1 && s.secret == Some(|s0.minted|))
  {
    AlwaysRecovering(cfg, start, run);
  }

  /** A grant that is no earlier than the ones before, but has expired. */
  lemma LateMint(s0: State, s: State, grant: Grant)
    requires s.minted == s0.minted + [grant] && s.secret == Some(|s0.minted|)
    requires grant.at < grant.expiresAt <= s.clock
    requires s0.minted != [] ==> s0.minted[|s0.minted| - 1].expiresAt <= grant.expiresAt
    ensures PositiveGrants(s0, s) && !Usable(s)
    ensures ExpiriesOrdered(s0) ==> ExpiriesOrdered(s)
  {
  }

  /** A mint whose grant expires before the Secret is written. */
  lemma ExpiredMint(cfg: Config, start: Run, run: Run, late: Time) returns (next: Run)
    requires Life(cfg, run) && Attempt(cfg, Smooth, start, run) && run.Last(cfg).clock <= late
    requires UpToDate(run.Last(cfg)) && run.Last(cfg).pc.BuildScope?
    ensures Life(cfg, next) && Attempt(cfg, Smooth, start, next) && UpToDate(next.Last(cfg))
    ensures var s, s' := run.Last(cfg), next.Last(cfg);
            s'.clock == late && s'.minted == s.minted + [Grant(s.pc.prov.name, s.pc.now, late)]
  {
    Attempts(cfg, Smooth, start, run, Return(Done, late));
    next := Then(run, Return(Done, late));
    Attempts(cfg, Smooth, start, next, Return(Done, late));
    next := Then(next, Return(Done, late));
    Attempts(cfg, Smooth, start, next, Tick(late));
    next := Then(next, Tick(late));
  }

  // ---------------------------------------------------------------- adoption

  /** The reconcile gives the object its finalizer, or has done so. */
  ghost predicate Adopting(s: State) {
    && s.ec.Some? && !s.ec.value.deleting
    && s.minted == []
    && (|| s.pc.AddFinalizer?
        || (s.ec.value.finalizer && s.pc.WritePending?)
        || (s.ec.value.finalizer && s.pc.Idle? && s.ec.value.status.state.Pending?))
  }

  lemma AdoptingStep(cfg: Config, s: State, e: Event)
    requires cfg.Valid() && ViewInv(cfg, s) && FinalizerInv(cfg, s) && !s.pc.Idle?
    requires Adopting(s) && Enabled(s, e) && Smooth(s, e)
    ensures Adopting(Apply(cfg, s, e))
  {
  }

  lemma {:induction false} AlwaysAdopting(cfg: Config, start: Run, run: Run)
    requires Life(cfg, start) && Life(cfg, run) && Attempt(cfg, Smooth, start, run)
    requires var s := start.Last(cfg); s.ec.Some? && !s.ec.value.deleting && !s.ec.value.finalizer
    ensures Adopting(run.Last(cfg))
  {
    Always(cfg, run.before);
    if !(run.before == start && run.event.Begin?) {
      AlwaysAdopting(cfg, start, run.before);
      AdoptingStep(cfg, run.before.Last(cfg), run.event);
    }
  }

  /** The first reconcile of an object adopts it and says so: it ends with the finalizer
      and the state Pending, and mints nothing. */
  lemma AdoptionIsReported(cfg: Config, start: Run, run: Run)
    requires SmoothReconcile(cfg, start, run)
    requires var s := start.Last(cfg); s.ec.Some? && !s.ec.value.deleting && !s.ec.value.finalizer
    ensures var s := run.Last(cfg);
            && s.ec.Some? && s.ec.value.finalizer && s.minted == [] && s.secret.None?
            && s.ec.value.status.state == Pending
            && s.ec.value.status.ready.Ready? && !s.ec.value.status.ready.isTrue
  {
    AlwaysAdopting(cfg, start, run);
    Always(cfg, run);
  }

  lemma FinalizerKept(cfg: Config, s: State, e: Event)
    requires cfg.Valid() && ViewInv(cfg, s) && Enabled(s, e) && s.ec.Some? && s.ec.value.finalizer
    ensures var s' := Apply(cfg, s, e); s'.ec.Some? ==> s'.ec.value.finalizer
  {
  }

  /** The finalizer stays as long as the object does. */
  lemma {:induction false} FinalizerStays(cfg: Config, earlier: Run, run: Run)
    requires Life(cfg, earlier) && Life(cfg, run) && Extends(run, earlier)
    requires earlier.Last(cfg).ec.Some? && earlier.Last(cfg).ec.value.finalizer
    ensures run.Last(cfg).ec.Some? ==> run.Last(cfg).ec.value.finalizer
  {
    if run != earlier && run.Last(cfg).ec.Some? {
      Gone(cfg, run.before, run.event);
      FinalizerStays(cfg, earlier, run.before);
      Always(cfg, run.before);
      FinalizerKept(cfg, run.before.Last(cfg), run.event);
    }
  }

  /** Without the finalizer two failure-free reconciles suffice, whatever happens between
      them: the first one adopts the object, and the second one heals, if the object is
      still live and names a registered provider. */
  lemma TwoReconcilesHeal(cfg: Config, start: Run, first: Run, again: Run, second: Run)
    requires SmoothReconcile(cfg, start, first) && SmoothReconcile(cfg, again, second) && Extends(again, first)
    requires var s := start.Last(cfg); s.ec.Some? && !s.ec.value.deleting && !s.ec.value.finalizer
    requires var s := again.Last(cfg);
             s.ec.Some? && !s.ec.value.deleting && cfg.Lookup(s.ec.value.spec.provider).Some?
    requires ExpiriesOrdered(second.Last(cfg)) && PositiveGrants(again.Last(cfg), second.Last(cfg))
    ensures var s0, s := again.Last(cfg), second.Last(cfg);
            && s.secret.Some? && s.secret.value < |s.minted| && !Revoked(s, s.secret.value)
            && s0.clock < s.minted[s.secret.value].expiresAt
            && (Swift(s0, s) ==> Usable(s))
            && forall deadline ::
                 ReconcileBy(cfg, again, second, deadline) && Safe(s0, deadline) ==> Usable(s)
  {
    AlwaysAdopting(cfg, start, first);
    FinalizerStays(cfg, first, again);
    OneReconcileHeals(cfg, again, second);
    forall deadline | ReconcileBy(cfg, again, second, deadline) && Safe(again.Last(cfg), deadline)
      ensures Usable(second.Last(cfg))
    {
      SafeHeals(cfg, again, second, deadline);
    }
  }

  // ---------------------------------------------------------------- deletion

  /** The reconcile works on `ec` as it was read, or the object is gone and the handle
      on record has been revoked, as far as it can be. */
  ghost predicate Leaving(cfg: Config, ec: EC, s: State) {
    if s.pc.Idle? then s.ec.None? && LastRevoked(cfg, s, ec)
    else DeletePath(s.pc) && s.pc.view == ec
  }

  lemma LeavingStep(cfg: Config, ec: EC, s: State, e: Event)
    requires cfg.Valid() && FinalizerInv(cfg, s) && !s.pc.Idle? && Leaving(cfg, ec, s)
    requires Enabled(s, e) && Smooth(s, e)
    ensures Leaving(cfg, ec, Apply(cfg, s, e))
  {
  }

  lemma {:induction false} AlwaysLeaving(cfg: Config, start: Run, run: Run)
    requires Life(cfg, start) && Life(cfg, run) && Attempt(cfg, Smooth, start, run)
    requires start.Last(cfg).ec.Some? && start.Last(cfg).ec.value.deleting
    ensures Leaving(cfg, start.Last(cfg).ec.value, run.Last(cfg))
  {
    Always(cfg, run.before);
    if !(run.before == start && run.event.Begin?) {
      AlwaysLeaving(cfg, start, run.before);
      LeavingStep(cfg, start.Last(cfg).ec.value, run.before.Last(cfg), run.event);
    }
  }

  /** Every failure-free reconcile of an object that is being deleted lets it go: no
      Secret remains, and the handle on record has been handed to Revoke, if its provider
      is the one asked for and registered. */
  lemma OneReconcileDeletes(cfg: Config, start: Run, run: Run)
    requires SmoothReconcile(cfg, start, run)
    requires start.Last(cfg).ec.Some? && start.Last(cfg).ec.value.deleting
    ensures var ec, s := start.Last(cfg).ec.value, run.Last(cfg);
            && s.ec.None? && s.secret.None?
            && (Revocable(cfg, ec.spec, ec.handle) ==> Revoked(s, ec.handle.value.token))
  {
    AlwaysLeaving(cfg, start, run);
    Always(cfg, run);
    RevokesWhenNamed(cfg, start.Last(cfg).ec.value.spec, start.Last(cfg).ec.value.handle);
  }
}
