/** Safety over whole lives of an object: crashes, failed calls and writes that land
    but report failure may come at any point. */
module Safety {
  import opened Api
  import opened Registry
  import opened Machine
  import opened Invariants

  // ---------------------------------------------------------------- what may happen

  /** The cluster, the ledger and the record are the same. */
  predicate SameEffects(s: State, s': State) {
    s'.ec == s.ec && s'.secret == s.secret && s'.minted == s.minted && s'.described == s.described
  }

  /** How calls end: one that took effect and reported a failure has done to the cluster
      and the ledger what one that succeeded does, and one that was refused has done
      nothing to them. */
  lemma OutcomesMean(cfg: Config, s: State, expiresAt: Time)
    requires cfg.Valid() && !s.pc.Idle?
    ensures SameEffects(s, Returned(cfg, s, Refused, expiresAt))
    ensures SameEffects(Returned(cfg, s, Done, expiresAt), Returned(cfg, s, Lost, expiresAt))
  {
  }

  /** Nothing is safe from what may come between: time may pass, the controller may crash,
      the object may be edited and its Secret deleted, and every pending call may be
      refused; a write, a mint or a revocation may also be lost, and fails for sure only if
      it is a write of an object that has changed. */
  lemma AnythingMayHappen(s: State, t: Time, spec: Spec, expiresAt: Time)
    ensures s.clock <= t ==> Enabled(s, Tick(t))
    ensures Enabled(s, Crash)
    ensures s.ec.Some? ==> Enabled(s, EditSpec(spec)) && Enabled(s, EditMetadata)
    ensures s.ec.Some? && !s.ec.value.deleting ==> Enabled(s, DeleteObject)
    ensures s.secret.Some? ==> Enabled(s, DeleteSecret)
    ensures !s.pc.Idle? && !s.pc.ReadsClock() ==>
      && Enabled(s, Return(Refused, expiresAt))
      && (Enabled(s, Return(Done, expiresAt)) <==>
            (s.pc.WritesObject() ==> s.ec.Some? && s.ec.value.resourceVersion == s.pc.view.resourceVersion))
      && (!s.pc.CheckSecret? && !s.pc.BuildScope? && Enabled(s, Return(Done, expiresAt)) ==>
            Enabled(s, Return(Lost, expiresAt)))
  {
  }

  // ---------------------------------------------------------------- write order

  /** Token `t` has been handed to Revoke. */
  ghost predicate Revoked(s: State, t: Token) {
    exists call :: call in s.revoked && call.handle.token == t
  }

  /** The Secret is never behind the handle, nor the handle behind the status. */
  lemma WriteOrder(cfg: Config, run: Run)
    requires Life(cfg, run)
    ensures var s := run.Last(cfg);
            s.ec.Some? ==>
              && (s.described.Some? ==>
                    s.ec.value.handle.Some? && s.described.value <= s.ec.value.handle.value.token)
              && (s.ec.value.handle.Some? && s.secret.Some? ==>
                    s.ec.value.handle.value.token <= s.secret.value)
              && (s.described.Some? && s.secret.Some? ==> s.described.value <= s.secret.value)
              && (s.secret.Some? ==> s.secret.value < |s.minted|)
  {
    Always(cfg, run);
  }

  /** Before deletion only credentials older than the one that the status tells of
      are revoked, so the Secret of a live object never holds a revoked one. */
  lemma RevokesOnlySuperseded(cfg: Config, run: Run)
    requires Life(cfg, run)
    ensures var s := run.Last(cfg);
            s.ec.Some? && !s.ec.value.deleting ==>
              && (forall call :: call in s.revoked ==>
                    s.described.Some? && call.handle.token < s.described.value)
              && (s.secret.Some? ==> !Revoked(s, s.secret.value))
  {
    Always(cfg, run);
  }

  /** A handle reaches Revoke only on a registered provider that bears the name in
      the handle, and that is the provider that minted the credential. */
  lemma RevokesOnMintingProvider(cfg: Config, run: Run)
    requires Life(cfg, run)
    ensures var s := run.Last(cfg);
            forall call :: call in s.revoked ==>
              && call.handle.token < |s.minted|
              && call.provider == call.handle.provider == s.minted[call.handle.token].provider
              && exists p :: p in cfg.providers && p.name == call.provider
  {
    Always(cfg, run);
    var s := run.Last(cfg);
    forall call | call in s.revoked
      ensures exists p :: p in cfg.providers && p.name == call.provider
    {
      assert Registered(cfg, call.provider);
    }
  }

  // ---------------------------------------------------------------- over-promising

  /** Later mints do not expire earlier. */
  ghost predicate ExpiriesOrdered(s: State) {
    forall i, j :: 0 <= i <= j < |s.minted| ==> s.minted[i].expiresAt <= s.minted[j].expiresAt
  }

  /** The persisted expiry is never later than the true expiry of what is in the
      Secret. */
  lemma StatusNeverOverPromises(cfg: Config, run: Run)
    requires Life(cfg, run) && ExpiriesOrdered(run.Last(cfg))
    ensures var s := run.Last(cfg);
            s.ec.Some? && s.ec.value.status.expiresAt.Some? && s.secret.Some? ==>
              && s.secret.value < |s.minted|
              && s.ec.value.status.expiresAt.value <= s.minted[s.secret.value].expiresAt
  {
    Always(cfg, run);
  }

  // ---------------------------------------------------------------- finalizer

  /** Whenever Mint is about to be called, and as long as anything minted is on
      record, the object that exists carries the finalizer. */
  lemma MintsUnderFinalizer(cfg: Config, run: Run)
    requires Life(cfg, run)
    ensures var s := run.Last(cfg);
            && (s.pc.Mint? ==> s.ec.Some? && s.ec.value.finalizer)
            && (s.ec.Some? && s.minted != [] ==> s.ec.value.finalizer)
  {
    Always(cfg, run);
  }

  /** There is a handle, of the provider that the spec names, and that is registered. */
  ghost predicate Revocable(cfg: Config, spec: Spec, handle: Option<Handle>) {
    && handle.Some? && handle.value.provider == spec.provider
    && exists p :: p in cfg.providers && p.name == spec.provider
  }

  /** Those are the handles that the guard before a Revoke call lets pass. */
  lemma RevokesWhenNamed(cfg: Config, spec: Spec, handle: Option<Handle>)
    ensures cfg.CanRevoke(spec, handle) <==> Revocable(cfg, spec, handle)
  {
    LastNamedIsLast(cfg.providers, spec.provider);
    if p :| p in cfg.providers && p.name == spec.provider {
      var i :| 0 <= i < |cfg.providers| && cfg.providers[i] == p;
    }
    LookupIsRegistered(cfg, spec.provider);
  }

  /** The step that removes the object leaves no Secret behind and comes after the
      recorded handle was handed to Revoke, if its provider is still the one asked
      for and registered; and no Secret appears afterwards. */
  lemma RemovalIsClean(cfg: Config, run: Run, e: Event)
    requires Life(cfg, Then(run, e))
    ensures var s, s' := run.Last(cfg), Then(run, e).Last(cfg);
            s.ec.Some? && s'.ec.None? ==>
              && (!s.ec.value.finalizer ==> s.minted == [])
              && (Revocable(cfg, s.ec.value.spec, s.ec.value.handle) ==>
                    Revoked(s', s.ec.value.handle.value.token))
    ensures Then(run, e).Last(cfg).ec.None? ==> Then(run, e).Last(cfg).secret.None?
  {
    var s, s' := run.Last(cfg), Then(run, e).Last(cfg);
    Always(cfg, run);
    Always(cfg, Then(run, e));
    if s.ec.Some? && s'.ec.None? && s.ec.value.finalizer {
      RemovesOnlyAtTheEnd(cfg, s, e);
      var h := s.ec.value.handle;
      RevokesWhenNamed(cfg, s.ec.value.spec, h);
      if cfg.CanRevoke(s.ec.value.spec, h) {
        assert RevokeCall(h.value.provider, h.value) in s'.revoked;
      }
    }
  }

  /** An object with the finalizer goes away only when the last call of the delete
      path lands, on an unchanged object. */
  lemma RemovesOnlyAtTheEnd(cfg: Config, s: State, e: Event)
    requires cfg.Valid() && Inv(cfg, s) && Enabled(s, e)
    requires s.ec.Some? && s.ec.value.finalizer && Apply(cfg, s, e).ec.None?
    ensures s.pc.RemoveFinalizer? && s.pc.view == s.ec.value && Apply(cfg, s, e).revoked == s.revoked
  {
  }

  // ---------------------------------------------------------------- lifecycle

  /** The moves of `status.state` that a run can make. */
  predicate Edge(a: CredentialState, b: CredentialState) {
    || a == b
    || (a.Blank? && (b.Pending? || b.Active? || b.Failed?))
    || (a.Pending? && (b.Active? || b.Failed?))
    || (a.Active? && (b.Expiring? || b.Failed?))
    || (a.Expiring? && (b.Active? || b.Failed?))
    || (a.Failed? && b.Active?)
  }

  /** The state moves along an edge, and enters Active only with the newest credential
      minted. */
  ghost predicate MovesAlong(s: State, s': State) {
    s.ec.Some? && s'.ec.Some? ==>
      var a, b := s.ec.value.status.state, s'.ec.value.status.state;
      && Edge(a, b)
      && (a != b && b.Active? ==> s'.described == Some(|s'.minted| - 1))
  }

  /** Every step does so. */
  lemma LifecycleMoves(cfg: Config, run: Run, e: Event)
    requires Life(cfg, Then(run, e))
    ensures MovesAlong(run.Last(cfg), Then(run, e).Last(cfg))
  {
    Always(cfg, run);
    StateMoves(cfg, run.Last(cfg), e);
  }

  lemma StateMoves(cfg: Config, s: State, e: Event)
    requires cfg.Valid() && Inv(cfg, s) && Enabled(s, e)
    ensures MovesAlong(s, Apply(cfg, s, e))
  {
    if e.Return? && s.pc.WritesStatus() {
      WrittenAlongEdge(cfg, s, e.outcome, e.expiresAt);
    } else {
      StateKept(cfg, s, e);
    }
  }

  lemma WrittenAlongEdge(cfg: Config, s: State, outcome: Outcome, expiresAt: Time)
    requires cfg.Valid() && Inv(cfg, s) && Enabled(s, Return(outcome, expiresAt)) && s.pc.WritesStatus()
    ensures var s' := Returned(cfg, s, outcome, expiresAt);
            && s.ec.Some? && s'.ec.Some?
            && Edge(s.ec.value.status.state, s'.ec.value.status.state)
            && (s.ec.value.status.state != s'.ec.value.status.state && s'.ec.value.status.state.Active? ==>
                  s'.described == Some(|s'.minted| - 1))
  {
  }

  lemma StateKept(cfg: Config, s: State, e: Event)
    requires cfg.Valid() && ViewInv(cfg, s) && Enabled(s, e) && !(e.Return? && s.pc.WritesStatus())
    ensures var s' := Apply(cfg, s, e);
            s.ec.Some? && s'.ec.Some? ==> s'.ec.value.status == s.ec.value.status
  {
  }

  /** The condition and the expiry that come with each state. */
  lemma StatesMeanWhatTheySay(cfg: Config, run: Run)
    requires Life(cfg, run) && run.Last(cfg).ec.Some?
    ensures var status := run.Last(cfg).ec.value.status;
            && (status.state.Active? || status.state.Expiring? <==>
                  status.ready.Ready? && status.ready.isTrue)
            && (status.state.Active? || status.state.Expiring? ==> status.expiresAt.Some?)
            && (status.state.Pending? || status.state.Failed? <==>
                  status.ready.Ready? && !status.ready.isTrue)
            && (status.state.Failed? && status.expiresAt.Some? ==>
                  status.expiresAt.value <= run.Last(cfg).clock)
            && (status.ready.Ready? ==>
                  status.observedGeneration <= status.ready.observedGeneration <= run.Last(cfg).ec.value.generation)
            && (status.state.Active? ==> status.ready.observedGeneration == status.observedGeneration)
  {
    Always(cfg, run);
  }

  /** Whenever a status is written, its condition speaks of the generation that the object
      has. */
  lemma ConditionIsCurrent(cfg: Config, run: Run, e: Event)
    requires Life(cfg, Then(run, e)) && run.Last(cfg).pc.WritesStatus() && e.Return? && !e.outcome.Refused?
    ensures var s' := Then(run, e).Last(cfg);
            && s'.ec.Some? && s'.ec.value.status.ready.Ready?
            && s'.ec.value.status.ready.observedGeneration == s'.ec.value.generation
  {
  }

  /** Once an attempt has succeeded or failed, the state is never blank or Pending
      again. */
  lemma {:induction false} PendingNeverRecurs(cfg: Config, earlier: Run, run: Run)
    requires Life(cfg, earlier) && Life(cfg, run) && Extends(run, earlier)
    requires earlier.Last(cfg).ec.Some? && run.Last(cfg).ec.Some?
    requires !earlier.Last(cfg).ec.value.status.state.Blank?
    requires !earlier.Last(cfg).ec.value.status.state.Pending?
    ensures !run.Last(cfg).ec.value.status.state.Blank?
    ensures !run.Last(cfg).ec.value.status.state.Pending?
  {
    if run != earlier {
      Gone(cfg, run.before, run.event);
      PendingNeverRecurs(cfg, earlier, run.before);
      LifecycleMoves(cfg, run.before, run.event);
    }
  }

  /** An object that is gone does not come back. */
  lemma Gone(cfg: Config, run: Run, e: Event)
    requires Life(cfg, Then(run, e))
    ensures run.Last(cfg).ec.None? ==> Then(run, e).Last(cfg).ec.None?
  {
    Always(cfg, run);
    var s := run.Last(cfg);
    if s.ec.None? {
      assert e.Return? ==> e.outcome.Refused?;
    }
  }

  // ---------------------------------------------------------------- reasons

  /** What went wrong last in the running reconcile, by what happened: the provider was not
      registered when it began, or a call on the way to the Secret failed. */
  ghost function Blame(cfg: Config, run: Run): Option<Reason>
    requires cfg.Valid() && run.Valid(cfg)
  {
    match run
    case Start(_) => None
    case Then(before, e) =>
      var s := before.Last(cfg);
      if e.Begin? then
        if exists p :: p in cfg.providers && p.name == s.ec.value.spec.provider then None else Some(ProviderNotFound)
      else if e.Return? && !e.outcome.Done? && s.pc.BuildScope? then Some(InvalidConfig)
      else if e.Return? && !e.outcome.Done? && s.pc.Mint? then
        Some(if s.described.Some? then RotationFailed else MintFailed)
      else if e.Return? && !e.outcome.Done? && s.pc.WriteSecret? then Some(SecretWriteFailed)
      else Blame(cfg, before)
  }

  /** The reason that a failed attempt is going to report. */
  ghost predicate Blames(s: State, blame: Option<Reason>) {
    s.pc.Failing? || s.pc.DropSecret? || (s.pc.WriteFailure? && s.pc.state.Failed?) ==> blame == Some(s.pc.reason)
  }

  lemma BlamesFailure(cfg: Config, s: State, outcome: Outcome, expiresAt: Time)
    requires cfg.Valid() && ViewInv(cfg, s) && DescribeInv(cfg, s) && Enabled(s, Return(outcome, expiresAt))
    requires !outcome.Done? && (s.pc.BuildScope? || s.pc.Mint? || s.pc.WriteSecret?)
    ensures Blames(Returned(cfg, s, outcome, expiresAt),
                   Some(if s.pc.BuildScope? then InvalidConfig else if s.pc.WriteSecret? then SecretWriteFailed
                        else if s.described.Some? then RotationFailed else MintFailed))
  {
  }

  lemma BlamesOn(cfg: Config, s: State, e: Event, blame: Option<Reason>)
    requires cfg.Valid() && Enabled(s, e) && Blames(s, blame) && !e.Begin?
    requires !(e.Return? && !e.outcome.Done? && (s.pc.BuildScope? || s.pc.Mint? || s.pc.WriteSecret?))
    ensures Blames(Apply(cfg, s, e), blame)
  {
  }

  lemma {:induction false} AlwaysBlames(cfg: Config, run: Run)
    requires Life(cfg, run)
    ensures Blames(run.Last(cfg), Blame(cfg, run))
  {
    if run.Then? {
      var s, e := run.before.Last(cfg), run.event;
      if e.Begin? {
        BeginBlames(cfg, s);
      } else if e.Return? && !e.outcome.Done? && (s.pc.BuildScope? || s.pc.Mint? || s.pc.WriteSecret?) {
        Always(cfg, run.before);
        BlamesFailure(cfg, s, e.outcome, e.expiresAt);
      } else {
        AlwaysBlames(cfg, run.before);
        BlamesOn(cfg, s, e, Blame(cfg, run.before));
      }
    }
  }

  lemma BeginBlames(cfg: Config, s: State)
    requires cfg.Valid() && s.ec.Some?
    ensures var s' := Begun(cfg, s);
            && Blames(s', Some(ProviderNotFound))
            && (s'.pc.Failing? ==> !exists p :: p in cfg.providers && p.name == s.ec.value.spec.provider)
  {
    LastNamedIsLast(cfg.providers, s.ec.value.spec.provider);
  }

  /** A failure that is recorded is recorded for what it was: ProviderNotFound if the
      provider was not registered, InvalidConfig if the configuration did not resolve,
      SecretWriteFailed if the Secret could not be written, and if the mint failed,
      RotationFailed or MintFailed by whether a credential was on record. While the
      credential on record is valid, it is recorded as a failed rotation. */
  lemma ReasonsAreTrue(cfg: Config, run: Run, e: Event)
    requires Life(cfg, Then(run, e)) && run.Last(cfg).pc.WriteFailure? && e.Return? && !e.outcome.Refused?
    ensures var s' := Then(run, e).Last(cfg);
            && s'.ec.Some? && s'.ec.value.status.ready.Ready?
            && match s'.ec.value.status.state
               case Failed => Blame(cfg, run) == Some(s'.ec.value.status.ready.reason)
               case Expiring => s'.ec.value.status.ready.reason == RotationFailed
               case _ => false
  {
    Always(cfg, run);
    AlwaysBlames(cfg, run);
  }

  /** The controller does not crash. */
  predicate Uncrashed(s: State, e: Event) {
    !e.Crash?
  }

  lemma ReportsNext(cfg: Config, s: State, e: Event)
    requires cfg.Valid() && Enabled(s, e) && Uncrashed(s, e)
    requires s.pc.Failing? || s.pc.DropSecret? || s.pc.WriteFailure?
    ensures var pc := Apply(cfg, s, e).pc; pc.Failing? || pc.DropSecret? || pc.WriteFailure? || pc.Idle?
  {
  }

  lemma FailsNext(cfg: Config, s: State, outcome: Outcome, expiresAt: Time)
    requires cfg.Valid() && !outcome.Done? && (s.pc.BuildScope? || s.pc.Mint? || s.pc.WriteSecret?)
    ensures Returned(cfg, s, outcome, expiresAt).pc.Failing?
  {
  }

  /** Once something has gone wrong, the reconcile is on its way to report it. */
  lemma {:induction false} AlwaysReports(cfg: Config, start: Run, run: Run)
    requires Life(cfg, start) && Life(cfg, run) && Attempt(cfg, Uncrashed, start, run)
    requires var s := start.Last(cfg); s.ec.Some? && s.ec.value.finalizer && !s.ec.value.deleting
    ensures var pc := run.Last(cfg).pc;
            Blame(cfg, run).Some? ==> pc.Failing? || pc.DropSecret? || pc.WriteFailure? || pc.Idle?
  {
    var s, e := run.before.Last(cfg), run.event;
    if run.before == start && e.Begin? {
      LastNamedIsLast(cfg.providers, s.ec.value.spec.provider);
      if cfg.Lookup(s.ec.value.spec.provider).Some? {
        LookupIsRegistered(cfg, s.ec.value.spec.provider);
      }
    } else {
      AlwaysReports(cfg, start, run.before);
      if e.Return? && !e.outcome.Done? && (s.pc.BuildScope? || s.pc.Mint? || s.pc.WriteSecret?) {
        FailsNext(cfg, s, e.outcome, e.expiresAt);
      } else if Blame(cfg, run.before).Some? {
        ReportsNext(cfg, s, e);
      }
    }
  }

  /** Every failure is reported: if a reconcile of a live object, once adopted, finds its
      provider unregistered, or fails on the way to the Secret, and the last call that it
      makes succeeds, then it ends in Expiring, or in Failed with the reason. */
  lemma FailuresAreReported(cfg: Config, start: Run, run: Run)
    requires Life(cfg, start) && Life(cfg, run) && Attempt(cfg, Uncrashed, start, run) && run.Last(cfg).pc.Idle?
    requires var s := start.Last(cfg); s.ec.Some? && s.ec.value.finalizer && !s.ec.value.deleting
    requires Blame(cfg, run).Some? && run.event.Return? && run.event.outcome.Done?
    ensures var s := run.Last(cfg);
            && s.ec.Some?
            && (|| s.ec.value.status.state == Expiring
                || (s.ec.value.status.state == Failed && s.ec.value.status.ready.Ready?
                    && Blame(cfg, run) == Some(s.ec.value.status.ready.reason)))
  {
    AlwaysReports(cfg, start, run.before);
    ReasonsAreTrue(cfg, run.before, run.event);
  }
}
