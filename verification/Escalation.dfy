/** What a failing reconcile does to the Secret: nothing while the expiry on record is
    ahead, and removal once it has passed. That is the expiry of what is in the Secret
    unless an attempt was interrupted between the Secret write and the status write. */
module Escalation {
  import opened Api
  import opened Schedule
  import opened Registry
  import opened Machine
  import opened Invariants
  import opened Tally

  // ---------------------------------------------------------------- no removal too early

  /** The status tells of what is in the Secret, but while a mint is being recorded. */
  ghost predicate StatusTells(s: State) {
    s.secret.Some? && !s.pc.WriteHandle? && !s.pc.WriteStatus? ==> s.described == s.secret
  }

  lemma TellsStep(cfg: Config, s: State, e: Event)
    requires cfg.Valid() && Inv(cfg, s) && Enabled(s, e) && StatusTells(s)
    requires !Happens(cfg, s, e, Interruption)
    ensures StatusTells(Apply(cfg, s, e))
  {
    if e.Return? && Moves(s.pc) {
      TellsMoved(cfg, s, e);
    } else {
      QuietStep(cfg, s, e);
      TellsQuiet(cfg, s, e);
    }
  }

  lemma TellsQuiet(cfg: Config, s: State, e: Event)
    requires cfg.Valid() && Enabled(s, e) && !(e.Return? && Moves(s.pc))
    requires Quiet(s, Apply(cfg, s, e)) && StatusTells(s) && !Happens(cfg, s, e, Interruption)
    ensures StatusTells(Apply(cfg, s, e))
  {
  }

  lemma TellsMoved(cfg: Config, s: State, e: Event)
    requires cfg.Valid() && OrderInv(s) && Enabled(s, e) && e.Return? && Moves(s.pc)
    requires StatusTells(s) && !Happens(cfg, s, e, Interruption)
    ensures StatusTells(Apply(cfg, s, e))
  {
  }

  /** A status that lands tells of what is in the Secret, whatever went before. */
  lemma LandingTells(cfg: Config, s: State, e: Event)
    requires cfg.Valid() && OrderInv(s) && Enabled(s, e) && Happens(cfg, s, e, Landing)
    ensures StatusTells(Apply(cfg, s, e))
  {
  }

  /** Since the Secret was last missing, or the status of a mint last landed, no attempt
      has been interrupted. */
  ghost predicate Repaired(cfg: Config, run: Run)
    requires cfg.Valid() && run.Valid(cfg)
  {
    || run.Last(cfg).secret.None?
    || (run.Then? &&
        (|| Happens(cfg, run.before.Last(cfg), run.event, Landing)
         || (Repaired(cfg, run.before) && !Happens(cfg, run.before.Last(cfg), run.event, Interruption))))
  }

  lemma {:induction false} AlwaysTells(cfg: Config, run: Run)
    requires Life(cfg, run) && Repaired(cfg, run)
    ensures StatusTells(run.Last(cfg))
  {
    if run.Then? && run.Last(cfg).secret.Some? {
      var s := run.before.Last(cfg);
      Always(cfg, run.before);
      if Happens(cfg, s, run.event, Landing) {
        LandingTells(cfg, s, run.event);
      } else {
        AlwaysTells(cfg, run.before);
        TellsStep(cfg, s, run.event);
      }
    }
  }

  /** A life without interruptions is always in repair. */
  lemma {:induction false} NeverInterrupted(cfg: Config, run: Run)
    requires Life(cfg, run) && Count(cfg, run, Interruption) == 0
    ensures Repaired(cfg, run)
  {
    if run.Then? {
      NeverInterrupted(cfg, run.before);
    }
  }

  /** An expiry is on record, and it has passed. */
  predicate OnRecordPassed(s: State) {
    && s.ec.Some? && s.ec.value.status.expiresAt.Some?
    && s.ec.value.status.expiresAt.value <= s.clock
  }

  /** The step from `s` to `s'` removes the Secret of a live object, and nobody else
      does. */
  ghost predicate Drops(s: State, e: Event, s': State) {
    s.ec.Some? && !s.ec.value.deleting && s.secret.Some? && s'.secret.None? && !e.DeleteSecret?
  }

  /** The step at which the controller removes the Secret of a live object is the one
      after a failure found the status expired. */
  lemma DropsOnlyExpired(cfg: Config, s: State, e: Event)
    requires cfg.Valid() && Inv(cfg, s) && Enabled(s, e) && Drops(s, e, Apply(cfg, s, e))
    ensures s.pc.DropSecret? && OnRecordPassed(s)
  {
  }

  /** In every life: when the controller removes the Secret of a live object, the expiry
      on record has passed, and so has that of the credential that the status tells of,
      or will in less than one unit. What is removed is that credential or a newer one. */
  lemma DropsNoEarlierThan(cfg: Config, run: Run, e: Event)
    requires Life(cfg, Then(run, e)) && Drops(run.Last(cfg), e, Then(run, e).Last(cfg))
    ensures var s := run.Last(cfg);
            && s.pc.DropSecret? && OnRecordPassed(s)
            && s.described.Some? && s.described.value <= s.secret.value < |s.minted|
            && Truncate(cfg.unit, s.minted[s.described.value].expiresAt) <= s.clock
            && s.minted[s.described.value].expiresAt < s.clock + cfg.unit
  {
    Always(cfg, run);
    DropsOnlyExpired(cfg, run.Last(cfg), e);
  }

  /** The status can hold the expiry of every grant exactly. */
  ghost predicate WholeUnits(cfg: Config, s: State)
    requires cfg.Valid()
  {
    forall g :: g in s.minted ==> Truncate(cfg.unit, g.expiresAt) == g.expiresAt
  }

  /** So in a life that is in repair, what is removed has expired, or will in less than
      one unit; and if the status can hold expiries exactly, it has. */
  lemma ValidSecretStays(cfg: Config, run: Run, e: Event)
    requires Life(cfg, Then(run, e)) && Repaired(cfg, run) && Drops(run.Last(cfg), e, Then(run, e).Last(cfg))
    ensures var s := run.Last(cfg);
            && s.secret.value < |s.minted|
            && s.minted[s.secret.value].expiresAt < s.clock + cfg.unit
            && (WholeUnits(cfg, s) ==> s.minted[s.secret.value].expiresAt <= s.clock)
  {
    var s := run.Last(cfg);
    DropsNoEarlierThan(cfg, run, e);
    AlwaysTells(cfg, run);
    assert s.minted[s.secret.value] in s.minted;
  }

  // ---------------------------------------------------------------- no expired credential stays

  /** What may happen during a reconcile whose Kubernetes calls succeed: the provider's
      calls and the configuration may fail, and the rest of the world may act. */
  predicate Served(s: State, e: Event) {
    && !e.Crash?
    && (e.Return? ==>
          || e.outcome.Done?
          || s.pc.Mint? || s.pc.BuildScope? || s.pc.RevokeOld? || s.pc.RevokeLast?)
  }

  /** `run` is `start` followed by one whole such reconcile. */
  ghost predicate ServedReconcile(cfg: Config, start: Run, run: Run) {
    Life(cfg, start) && Life(cfg, run) && Attempt(cfg, Served, start, run) && run.Last(cfg).pc.Idle?
  }

  /** The reconcile will still replace or remove the expired credential `t`. */
  ghost predicate Condemned(s: State, t: Token) {
    && t < |s.minted| && (s.pc.WriteSecret? ==> t < s.pc.token)
    && (s.secret == Some(t) ==>
          && (s.pc.Decide? || s.pc.BuildScope? || s.pc.Mint? || s.pc.WriteSecret? || s.pc.Failing? || s.pc.DropSecret?)
          && s.pc.view.status.expiresAt.Some? && s.pc.view.status.expiresAt.value <= s.clock)
  }

  lemma CondemnedReturn(cfg: Config, s: State, outcome: Outcome, expiresAt: Time, t: Token)
    requires cfg.Valid() && LedgerInv(s) && Condemned(s, t)
    requires Enabled(s, Return(outcome, expiresAt)) && Served(s, Return(outcome, expiresAt))
    ensures Condemned(Returned(cfg, s, outcome, expiresAt), t)
  {
  }

  lemma CondemnedKept(cfg: Config, s: State, e: Event, t: Token)
    requires cfg.Valid() && Condemned(s, t) && !s.pc.Idle? && Enabled(s, e) && Served(s, e) && !e.Return?
    ensures Condemned(Apply(cfg, s, e), t)
  {
  }

  lemma {:induction false} AlwaysCondemned(cfg: Config, start: Run, run: Run, t: Token)
    requires Life(cfg, start) && Life(cfg, run) && Attempt(cfg, Served, start, run)
    requires var s := start.Last(cfg);
             OnRecordPassed(s) && !s.ec.value.deleting && t < |s.minted|
    ensures Condemned(run.Last(cfg), t)
  {
    Always(cfg, run.before);
    var s := run.before.Last(cfg);
    if run.before == start && run.event.Begin? {
      assert s.ec.value.finalizer;
    } else {
      AlwaysCondemned(cfg, start, run.before, t);
      if run.event.Return? {
        CondemnedReturn(cfg, s, run.event.outcome, run.event.expiresAt, t);
      } else {
        CondemnedKept(cfg, s, run.event, t);
      }
    }
  }

  /** A reconcile that starts after the expiry on record has passed, and whose
      Kubernetes calls succeed, does not leave in the Secret what was there: it is
      replaced or removed, whether or not the mint succeeds. */
  lemma ExpiredSecretGoes(cfg: Config, start: Run, run: Run)
    requires ServedReconcile(cfg, start, run)
    requires var s := start.Last(cfg);
             OnRecordPassed(s) && !s.ec.value.deleting && s.secret.Some?
    ensures run.Last(cfg).secret != start.Last(cfg).secret
  {
    Always(cfg, start);
    AlwaysCondemned(cfg, start, run, start.Last(cfg).secret.value);
  }

  /** The Secret is as it was, and so is the expiry on record of the live object. */
  ghost predicate LeftAlone(s: State, s': State) {
    && s'.secret == s.secret && s'.minted == s.minted && s'.clock == s.clock
    && s.ec.Some? && s'.ec.Some? && !s'.ec.value.deleting
    && s'.ec.value.status.expiresAt == s.ec.value.status.expiresAt
  }

  /** The premise is exact: unless an expiry is on record and has passed, there is a
      reconcile whose Kubernetes calls succeed and that leaves the Secret as it was,
      even if the credential in it has truly expired. */
  lemma OtherwiseSecretMayStay(cfg: Config, start: Run) returns (run: Run)
    requires Life(cfg, start) && start.Last(cfg).pc.Idle?
    requires var s := start.Last(cfg);
             s.ec.Some? && !s.ec.value.deleting && s.secret.Some? && !OnRecordPassed(s)
    ensures ServedReconcile(cfg, start, run)
    ensures LeftAlone(start.Last(cfg), run.Last(cfg))
    ensures start.Last(cfg).ec.value.status.expiresAt.None? ==> run.Last(cfg).ec.value.status.state.Failed?
  {
    Always(cfg, start);
    Lives(cfg, start, Begin);
    run := Then(start, Begin);
    if run.Last(cfg).pc.Decide? {
      Attempts(cfg, Served, start, run, ReadClock);
      run := Then(run, ReadClock);
      run := Declines(cfg, start, run);
    }
    if !run.Last(cfg).pc.Idle? {
      run := FailsInPlace(cfg, start, run);
    }
  }

  /** Only the running reconcile differs. */
  ghost predicate SameWorld(s: State, s': State) {
    s'.ec == s.ec && s'.secret == s.secret && s'.minted == s.minted && s'.clock == s.clock
  }

  /** The Secret is found, or the configuration does not resolve. */
  lemma Declines(cfg: Config, start: Run, run: Run) returns (next: Run)
    requires Life(cfg, run) && Attempt(cfg, Served, start, run)
    requires var s := run.Last(cfg);
             && (s.pc.CheckSecret? || s.pc.BuildScope?) && s.ec == Some(s.pc.view) && s.secret.Some?
    ensures Life(cfg, next) && Attempt(cfg, Served, start, next) && SameWorld(run.Last(cfg), next.Last(cfg))
    ensures var s := next.Last(cfg);
            if run.Last(cfg).pc.CheckSecret? then s.pc.Idle? else s.pc.Failing? && s.ec == Some(s.pc.view)
  {
    var e := Return(if run.Last(cfg).pc.CheckSecret? then Done else Refused, 0);
    Attempts(cfg, Served, start, run, e);
    next := Then(run, e);
  }

  /** A failed attempt whose copy shows no passed expiry only writes the status. */
  lemma FailsInPlace(cfg: Config, start: Run, run: Run) returns (last: Run)
    requires Life(cfg, start) && Life(cfg, run) && Attempt(cfg, Served, start, run)
    requires var s := run.Last(cfg);
             s.pc.Failing? && s.ec == Some(s.pc.view) && !s.pc.view.deleting && !OnRecordPassed(s)
    ensures ServedReconcile(cfg, start, last)
    ensures LeftAlone(run.Last(cfg), last.Last(cfg))
    ensures run.Last(cfg).ec.value.status.expiresAt.None? ==> last.Last(cfg).ec.value.status.state.Failed?
  {
    Attempts(cfg, Served, start, run, ReadClock);
    last := Then(run, ReadClock);
    FailureWritten(cfg, last.Last(cfg));
    Attempts(cfg, Served, start, last, Return(Done, 0));
    last := Then(last, Return(Done, 0));
  }

  lemma FailureWritten(cfg: Config, s: State)
    requires cfg.Valid() && s.pc.WriteFailure? && s.ec == Some(s.pc.view) && !s.pc.view.deleting
    ensures Enabled(s, Return(Done, 0))
    ensures var s' := Returned(cfg, s, Done, 0);
            LeftAlone(s, s') && s'.pc.Idle? && s'.ec.value.status.state == s.pc.state
  {
  }

  /** So it can: for any provider and any grant, when the very first mint is interrupted
      once the Secret is written, a reconcile that begins after the expiry, and whose
      Kubernetes calls succeed, leaves the expired credential in the Secret. */
  lemma ExpiredSecretCanStay(spec: Spec, unit: nat, lifetime: nat) returns (cfg: Config, start: Run, run: Run)
    requires unit > 0
    ensures cfg.Valid() && cfg.unit == unit && ServedReconcile(cfg, start, run)
    ensures var s, s' := start.Last(cfg), run.Last(cfg);
            && s.secret == Some(0) && s.minted == [Grant(spec.provider, 0, lifetime)] && s.clock == lifetime
            && LeftAlone(s, s') && s'.ec.value.status.state.Failed?
  {
    cfg := Config([Provider(spec.provider, 0)], unit);
    start := Adopted(cfg, spec);
    start := WrittenThenLeft(cfg, start, spec, lifetime);
    run := OtherwiseSecretMayStay(cfg, start);
  }

  /** A new object after its first reconcile, at time zero. */
  ghost function AdoptedState(spec: Spec): State {
    var ec := EC(1, 1, false, true, spec, None, EMPTY_STATUS);
    State(0, Some(Bumped(ec).(status := PendingStatus(ec))), None, [], [], None, 0, None, Idle)
  }

  lemma Adopted(cfg: Config, spec: Spec) returns (run: Run)
    requires cfg.Valid()
    ensures Life(cfg, run) && run.Last(cfg) == AdoptedState(spec)
  {
    var ec := EC(1, 0, false, false, spec, None, EMPTY_STATUS);
    run := Start(State(0, Some(ec), None, [], [], None, 0, None, Idle));
    run := Continue(cfg, run, Begin);
    run := Continue(cfg, run, Return(Done, 0));
    run := Continue(cfg, run, Return(Done, 0));
  }

  /** A reconcile goes as far as calling Mint. */
  lemma UpToMint(cfg: Config, start: Run) returns (run: Run)
    requires Life(cfg, start)
    requires var s := start.Last(cfg);
             && s.pc.Idle? && s.ec.Some? && s.ec.value.finalizer && !s.ec.value.deleting
             && cfg.Lookup(s.ec.value.spec.provider).Some? && NeedsMint(s.ec.value, s.clock)
    ensures Life(cfg, run)
    ensures var s := start.Last(cfg);
            run.Last(cfg) == s.(began := s.clock, wake := None,
              pc := Mint(s.ec.value, s.clock, cfg.Lookup(s.ec.value.spec.provider).value))
  {
    run := Continue(cfg, start, Begin);
    run := Continue(cfg, run, ReadClock);
    run := Continue(cfg, run, Return(Done, 0));
  }

  /** It mints, and writes the Secret. */
  lemma UpToSecret(cfg: Config, start: Run, expiresAt: Time) returns (run: Run)
    requires Life(cfg, start) && start.Last(cfg).pc.Mint?
    ensures Life(cfg, run)
    ensures var s := start.Last(cfg);
            var token, grant := |s.minted|, Grant(s.pc.prov.name, s.pc.now, expiresAt);
            run.Last(cfg) == s.(minted := s.minted + [grant], secret := Some(token),
                                pc := WriteHandle(s.pc.view, token, grant))
  {
    run := Continue(cfg, start, Return(Done, expiresAt));
    run := Continue(cfg, run, Return(Done, 0));
  }

  lemma WrittenThenLeft(cfg: Config, start: Run, spec: Spec, lifetime: nat) returns (run: Run)
    requires Life(cfg, start) && start.Last(cfg) == AdoptedState(spec)
    requires cfg.Lookup(spec.provider) == Some(Provider(spec.provider, 0))
    ensures Life(cfg, run)
    ensures run.Last(cfg) ==
      AdoptedState(spec).(clock := lifetime, secret := Some(0), minted := [Grant(spec.provider, 0, lifetime)])
  {
    run := UpToMint(cfg, start);
    run := UpToSecret(cfg, run, lifetime);
    run := Continue(cfg, run, Crash);
    run := Continue(cfg, run, Tick(lifetime));
  }

  lemma Continue(cfg: Config, run: Run, e: Event) returns (next: Run)
    requires Life(cfg, run) && Enabled(run.Last(cfg), e)
    ensures Life(cfg, next) && next.Last(cfg) == Apply(cfg, run.Last(cfg), e)
  {
    Lives(cfg, run, e);
    next := Then(run, e);
  }

  // ---------------------------------------------------------------- a valid credential goes

  /** As soon as the expiry on record has passed, the Secret can go at once, whatever is in
      it: a reconcile whose Kubernetes calls succeed, and whose configuration does not
      resolve or whose provider is not registered, removes it. */
  lemma PassedSecretMayGo(cfg: Config, start: Run) returns (run: Run)
    requires Life(cfg, start) && start.Last(cfg).pc.Idle?
    requires var s := start.Last(cfg); OnRecordPassed(s) && !s.ec.value.deleting && s.secret.Some?
    ensures ServedReconcile(cfg, start, run)
    ensures var s, s' := start.Last(cfg), run.Last(cfg);
            s'.secret.None? && s'.minted == s.minted && s'.clock == s.clock
  {
    Always(cfg, start);
    Lives(cfg, start, Begin);
    run := Then(start, Begin);
    if run.Last(cfg).pc.Decide? {
      Attempts(cfg, Served, start, run, ReadClock);
      run := Then(run, ReadClock);
      run := Declines(cfg, start, run);
    }
    run := FailsByRemoval(cfg, start, run);
  }

  lemma FailsByRemoval(cfg: Config, start: Run, run: Run) returns (last: Run)
    requires Life(cfg, start) && Life(cfg, run) && Attempt(cfg, Served, start, run)
    requires var s := run.Last(cfg);
             s.pc.Failing? && s.ec == Some(s.pc.view) && !s.pc.view.deleting && OnRecordPassed(s)
    ensures ServedReconcile(cfg, start, last)
    ensures var s, s' := run.Last(cfg), last.Last(cfg);
            s'.secret.None? && s'.minted == s.minted && s'.clock == s.clock
  {
    Attempts(cfg, Served, start, run, ReadClock);
    last := Then(run, ReadClock);
    Attempts(cfg, Served, start, last, Return(Done, 0));
    last := Then(last, Return(Done, 0));
    FailureWritten(cfg, last.Last(cfg));
    Attempts(cfg, Served, start, last, Return(Done, 0));
    last := Then(last, Return(Done, 0));
  }

  /** So a valid credential can go: for any provider and any lifetime, when a rotation is
      interrupted once the Secret is written, because its handle cannot be written, a
      reconcile whose Kubernetes calls succeed removes the new credential a whole
      lifetime before its expiry. */
  lemma ValidSecretCanGo(spec: Spec, unit: nat, lifetime: nat) returns (cfg: Config, start: Run, run: Run)
    requires unit > 0 && lifetime > 0
    ensures cfg.Valid() && cfg.unit == unit && ServedReconcile(cfg, start, run)
    ensures var s, s' := start.Last(cfg), run.Last(cfg);
            && s.minted == [Grant(spec.provider, 0, lifetime), Grant(spec.provider, lifetime, 2 * lifetime)]
            && s.ec.Some? && !s.ec.value.deleting && s.secret == Some(1)
            && s'.secret.None? && s'.minted == s.minted && s'.clock == lifetime
  {
    cfg := Config([Provider(spec.provider, 0)], unit);
    start := FirstMint(cfg, spec, lifetime);
    start := Continue(cfg, start, Tick(lifetime));
    start := UpToMint(cfg, start);
    start := UpToSecret(cfg, start, 2 * lifetime);
    start := Continue(cfg, start, Return(Refused, 0));
    run := PassedSecretMayGo(cfg, start);
  }

  /** A first mint that goes well, at time zero. */
  lemma FirstMint(cfg: Config, spec: Spec, lifetime: nat) returns (run: Run)
    requires cfg.Valid() && cfg.Lookup(spec.provider) == Some(Provider(spec.provider, 0))
    ensures Life(cfg, run)
    ensures var s := run.Last(cfg);
            && s.pc.Idle? && s.clock == 0 && s.secret == Some(0) && s.minted == [Grant(spec.provider, 0, lifetime)]
            && s.ec.Some? && s.ec.value.finalizer && !s.ec.value.deleting && s.ec.value.spec == spec
            && s.ec.value.status.expiresAt == Some(Truncate(cfg.unit, lifetime))
  {
    run := Adopted(cfg, spec);
    run := UpToMint(cfg, run);
    run := UpToSecret(cfg, run, lifetime);
    run := FirstRecord(cfg, run);
  }

  lemma FirstRecord(cfg: Config, start: Run) returns (run: Run)
    requires Life(cfg, start)
    requires var s := start.Last(cfg); s.pc.WriteHandle? && s.ec == Some(s.pc.view) && s.pc.view.handle.None?
    ensures Life(cfg, run)
    ensures var s, s' := start.Last(cfg), run.Last(cfg);
            && s'.pc.Idle? && s'.clock == s.clock && s'.secret == s.secret && s'.minted == s.minted
            && s'.ec.Some? && s'.ec.value.finalizer == s.ec.value.finalizer
            && s'.ec.value.deleting == s.ec.value.deleting && s'.ec.value.spec == s.ec.value.spec
            && s'.ec.value.status.expiresAt == Some(Truncate(cfg.unit, s.pc.grant.expiresAt))
  {
    run := Continue(cfg, start, Return(Done, 0));
    run := Continue(cfg, run, Return(Done, 0));
  }

  // ---------------------------------------------------------------- what is on record

  /** In a life that is in repair, the expiry on record is that of what is in the Secret,
      to the precision of the API. */
  lemma ExpiredIsOnRecord(cfg: Config, run: Run)
    requires Life(cfg, run) && Repaired(cfg, run) && run.Last(cfg).pc.Idle?
    ensures var s := run.Last(cfg);
            s.ec.Some? && s.secret.Some? ==>
              && s.secret.value < |s.minted|
              && s.ec.value.status.expiresAt == Some(Truncate(cfg.unit, s.minted[s.secret.value].expiresAt))
  {
    Always(cfg, run);
    AlwaysTells(cfg, run);
  }
}
