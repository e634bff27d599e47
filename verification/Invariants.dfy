/** What every step of the machine keeps. Each section states one layer of the
    invariant and proves that all steps preserve it, given the layers above. */
module Invariants {
  import opened Api
  import opened Schedule
  import opened Registry
  import opened Machine

  // ---------------------------------------------------------------- the copy

  /** The part of the object that only the controller writes is, in its copy, as
      persisted; and a copy with the current resourceVersion is the object. */
  ghost predicate Owned(s: State, view: EC) {
    s.ec.Some? ==>
      var ec := s.ec.value;
      && view.handle == ec.handle && view.status == ec.status && view.finalizer == ec.finalizer
      && (view.deleting ==> ec.deleting)
      && view.generation <= ec.generation
      && (view.generation == ec.generation ==> view.spec == ec.spec)
      && view.resourceVersion <= ec.resourceVersion
      && (view.resourceVersion == ec.resourceVersion ==> view == ec)
  }

  /** The reconcile runs on an object that was being deleted when it was read. */
  predicate DeletePath(pc: Pc) {
    pc.RevokeLast? || pc.DropLast? || pc.RemoveFinalizer?
  }

  /** The reconcile runs on an object that was live and carried the finalizer. */
  predicate LivePath(pc: Pc) {
    !pc.Idle? && !pc.AddFinalizer? && !DeletePath(pc)
  }

  ghost predicate ViewInv(cfg: Config, s: State) {
    && (s.ec.Some? && s.ec.value.deleting ==> s.ec.value.finalizer)
    && (!s.pc.Idle? ==> Owned(s, s.pc.view))
    && (s.pc.AddFinalizer? ==> !s.pc.view.finalizer && !s.pc.view.deleting)
    && (LivePath(s.pc) ==> s.pc.view.finalizer && !s.pc.view.deleting && s.ec.Some?)
    && (DeletePath(s.pc) ==> s.pc.view.finalizer && s.pc.view.deleting && s.ec.Some?)
    && (s.pc.WritePending? ==> s.pc.view.status.state.Blank?)
    && (s.ec.None? ==> s.pc.Idle? || s.pc.AddFinalizer?)
  }

  lemma ViewWrites(cfg: Config, s: State, outcome: Outcome, expiresAt: Time)
    requires cfg.Valid() && ViewInv(cfg, s) && Enabled(s, Return(outcome, expiresAt))
    requires s.pc.WritesObject() && !s.pc.WritesStatus()
    ensures ViewInv(cfg, Returned(cfg, s, outcome, expiresAt))
  {
  }

  lemma ViewStatus(cfg: Config, s: State, outcome: Outcome, expiresAt: Time)
    requires cfg.Valid() && ViewInv(cfg, s) && Enabled(s, Return(outcome, expiresAt))
    requires s.pc.WritesStatus()
    ensures ViewInv(cfg, Returned(cfg, s, outcome, expiresAt))
  {
  }

  /** The other calls leave the object alone. */
  lemma ViewKept(cfg: Config, s: State, outcome: Outcome, expiresAt: Time)
    requires cfg.Valid() && ViewInv(cfg, s) && Enabled(s, Return(outcome, expiresAt))
    requires !s.pc.WritesObject()
    ensures ViewInv(cfg, Returned(cfg, s, outcome, expiresAt))
  {
  }

  lemma ViewStep(cfg: Config, s: State, e: Event)
    requires cfg.Valid() && ViewInv(cfg, s) && Enabled(s, e)
    ensures ViewInv(cfg, Apply(cfg, s, e))
  {
    if e.Return? {
      if s.pc.WritesStatus() {
        ViewStatus(cfg, s, e.outcome, e.expiresAt);
      } else if s.pc.WritesObject() {
        ViewWrites(cfg, s, e.outcome, e.expiresAt);
      } else {
        ViewKept(cfg, s, e.outcome, e.expiresAt);
      }
    }
  }

  // ---------------------------------------------------------------- providers

  ghost predicate Registered(cfg: Config, name: string) {
    exists p :: p in cfg.providers && p.name == name
  }

  lemma LookupIsRegistered(cfg: Config, name: string)
    ensures cfg.Lookup(name).Some? ==> cfg.Lookup(name).value.name == name && Registered(cfg, name)
  {
    LastNamedIsLast(cfg.providers, name);
  }

  /** The provider used in a mint, and the one a Revoke call goes to, is the one
      registered under the name that the copy's spec asks for. */
  ghost predicate ProviderInv(cfg: Config, s: State) {
    && (s.pc.Decide? || s.pc.CheckSecret? || s.pc.BuildScope? || s.pc.Mint? || s.pc.RevokeLast? ==>
          cfg.Lookup(s.pc.view.spec.provider) == Some(s.pc.prov))
    && (InHand(s.pc) || s.pc.RevokeOld? ==>
          && cfg.Lookup(s.pc.view.spec.provider).Some?
          && s.pc.grant.provider == s.pc.view.spec.provider)
    && (s.pc.RevokeOld? ==> s.pc.target.provider == s.pc.grant.provider)
    && (s.pc.RevokeLast? ==>
          && s.pc.view.handle == Some(s.pc.target)
          && s.pc.target.provider == s.pc.prov.name)
    && forall call :: call in s.revoked ==>
         call.provider == call.handle.provider && Registered(cfg, call.provider)
  }

  lemma ProviderStep(cfg: Config, s: State, e: Event)
    requires cfg.Valid() && ProviderInv(cfg, s) && Enabled(s, e)
    ensures ProviderInv(cfg, Apply(cfg, s, e))
  {
    if e.Return? {
      if Moves(s.pc) {
        ProviderMoved(cfg, s, e.outcome, e.expiresAt);
      } else {
        ProviderUnmoved(cfg, s, e.outcome, e.expiresAt);
      }
    } else {
      ProviderKept(cfg, s, e);
    }
  }

  lemma ProviderMoved(cfg: Config, s: State, outcome: Outcome, expiresAt: Time)
    requires cfg.Valid() && ProviderInv(cfg, s) && Moves(s.pc)
    ensures ProviderInv(cfg, Returned(cfg, s, outcome, expiresAt))
  {
    LookupIsRegistered(cfg, s.pc.view.spec.provider);
  }

  lemma ProviderUnmoved(cfg: Config, s: State, outcome: Outcome, expiresAt: Time)
    requires cfg.Valid() && ProviderInv(cfg, s) && !Moves(s.pc)
    ensures ProviderInv(cfg, Returned(cfg, s, outcome, expiresAt))
  {
  }

  lemma ProviderKept(cfg: Config, s: State, e: Event)
    requires cfg.Valid() && ProviderInv(cfg, s) && Enabled(s, e) && !e.Return?
    ensures ProviderInv(cfg, Apply(cfg, s, e))
  {
  }

  // ---------------------------------------------------------------- mint order

  /** The token of a handle, status or Secret is in the ledger. */
  ghost predicate Known(s: State, t: Option<Token>) {
    t.Some? ==> t.value < |s.minted|
  }

  ghost function HandleToken(s: State): Option<Token> {
    if s.ec.Some? && s.ec.value.handle.Some? then Some(s.ec.value.handle.value.token) else None
  }

  /** `a` is not newer than `b`, and present only if `b` is. */
  ghost predicate NotNewer(a: Option<Token>, b: Option<Token>) {
    a.Some? ==> b.Some? && a.value <= b.value
  }

  /** `a`, if present, is older than `b`. */
  ghost predicate Older(a: Option<Token>, b: Token) {
    a.Some? ==> a.value < b
  }

  /** A token has been minted and its status is not yet written. */
  predicate InHand(pc: Pc) {
    pc.WriteSecret? || pc.WriteHandle? || pc.WriteStatus?
  }

  /** The handle names a minted credential and the provider that minted it. */
  ghost predicate Genuine(s: State, h: Handle) {
    h.token < |s.minted| && h.provider == s.minted[h.token].provider
  }

  ghost predicate LedgerInv(s: State) {
    && Known(s, s.secret) && Known(s, HandleToken(s)) && Known(s, s.described)
    && (s.ec.Some? && s.ec.value.handle.Some? ==> Genuine(s, s.ec.value.handle.value))
    && (s.pc.WriteStatus? && s.pc.previous.Some? ==> Genuine(s, s.pc.previous.value))
    && (s.pc.RevokeOld? ==> Genuine(s, s.pc.target))
    && (InHand(s.pc) || s.pc.RevokeOld? ==>
          s.pc.token == |s.minted| - 1 && s.minted[s.pc.token] == s.pc.grant)
  }

  ghost predicate OrderInv(s: State) {
    && (s.ec.Some? ==> NotNewer(s.described, HandleToken(s)))
    && (HandleToken(s).Some? && s.secret.Some? ==> HandleToken(s).value <= s.secret.value)
    && (s.pc.WriteSecret? ==> Older(HandleToken(s), s.pc.token) && Older(s.secret, s.pc.token))
    && (s.pc.WriteHandle? ==> Older(HandleToken(s), s.pc.token))
    && (s.pc.WriteHandle? || s.pc.WriteStatus? ==> s.secret.Some? ==> s.secret.value == s.pc.token)
    && (s.pc.WriteStatus? ==>
          var previous := if s.pc.previous.Some? then Some(s.pc.previous.value.token) else None;
          && HandleToken(s) == Some(s.pc.token)
          && Older(previous, s.pc.token) && NotNewer(s.described, previous))
    && (s.pc.RevokeOld? ==>
          && HandleToken(s) == s.described == Some(s.pc.token)
          && s.pc.target.token < s.pc.token)
  }

  // ---------------------------------------------------------------- revocations

  /** Nothing has been revoked on account of the object's deletion yet. */
  ghost predicate BeforeDeletion(s: State) {
    (s.ec.Some? && !s.ec.value.deleting) || LivePath(s.pc)
  }

  /** Every revoked token is older than `t`. */
  ghost predicate RevokedOlder(s: State, t: Option<Token>) {
    forall call :: call in s.revoked ==> t.Some? && call.handle.token < t.value
  }

  ghost predicate Increasing(calls: seq<RevokeCall>) {
    forall i, j :: 0 <= i < j < |calls| ==> calls[i].handle.token < calls[j].handle.token
  }

  ghost predicate RevokeInv(s: State) {
    && (forall call :: call in s.revoked ==> Genuine(s, call.handle))
    && (BeforeDeletion(s) ==> Increasing(s.revoked) && RevokedOlder(s, s.described))
    && (s.pc.RevokeOld? ==> RevokedOlder(s, Some(s.pc.target.token)))
  }

  /** Where every credential is, and in which order they came there. */
  ghost predicate RecordInv(s: State) {
    LedgerInv(s) && OrderInv(s) && RevokeInv(s)
  }

  /** The pending call moves a credential. */
  predicate Moves(pc: Pc) {
    pc.Mint? || InHand(pc) || pc.RevokeOld? || pc.RevokeLast?
  }

  /** No credential moved from `s` to `s'`, except out of the cluster. */
  ghost predicate Quiet(s: State, s': State) {
    && s'.minted == s.minted && s'.revoked == s.revoked && s'.described == s.described
    && (s'.ec.Some? ==> s.ec.Some? && s'.ec.value.handle == s.ec.value.handle)
    && (s'.secret.Some? ==> s'.secret == s.secret)
    && (InHand(s'.pc) || s'.pc.RevokeOld? ==> s'.pc == s.pc)
    && (LivePath(s'.pc) ==> s'.ec.Some?)
    && (BeforeDeletion(s') ==> BeforeDeletion(s))
  }

  lemma QuietKeepsRecords(s: State, s': State)
    requires RecordInv(s) && Quiet(s, s')
    ensures RecordInv(s')
  {
  }

  lemma QuietStep(cfg: Config, s: State, e: Event)
    requires cfg.Valid() && ViewInv(cfg, s) && Enabled(s, e)
    requires !(e.Return? && Moves(s.pc))
    ensures Quiet(s, Apply(cfg, s, e))
  {
    if e.Return? {
      QuietReturn(cfg, s, e.outcome, e.expiresAt);
    }
  }

  lemma QuietReturn(cfg: Config, s: State, outcome: Outcome, expiresAt: Time)
    requires cfg.Valid() && ViewInv(cfg, s) && Enabled(s, Return(outcome, expiresAt)) && !Moves(s.pc)
    ensures Quiet(s, Returned(cfg, s, outcome, expiresAt))
  {
  }

  lemma MintKeepsRecords(cfg: Config, s: State, outcome: Outcome, expiresAt: Time)
    requires cfg.Valid() && ViewInv(cfg, s) && RecordInv(s) && s.pc.Mint?
    ensures RecordInv(Returned(cfg, s, outcome, expiresAt))
  {
  }

  lemma SecretKeepsRecords(cfg: Config, s: State, outcome: Outcome, expiresAt: Time)
    requires cfg.Valid() && ViewInv(cfg, s) && RecordInv(s) && s.pc.WriteSecret?
    ensures RecordInv(Returned(cfg, s, outcome, expiresAt))
  {
  }

  lemma HandleKeepsRecords(cfg: Config, s: State, outcome: Outcome, expiresAt: Time)
    requires cfg.Valid() && ViewInv(cfg, s) && RecordInv(s) && s.pc.WriteHandle?
    requires Enabled(s, Return(outcome, expiresAt))
    ensures RecordInv(Returned(cfg, s, outcome, expiresAt))
  {
  }

  lemma StatusKeepsRecords(cfg: Config, s: State, outcome: Outcome, expiresAt: Time)
    requires cfg.Valid() && ViewInv(cfg, s) && RecordInv(s) && s.pc.WriteStatus?
    requires Enabled(s, Return(outcome, expiresAt))
    ensures RecordInv(Returned(cfg, s, outcome, expiresAt))
  {
  }

  lemma RevokeKeepsRecords(cfg: Config, s: State, outcome: Outcome, expiresAt: Time)
    requires cfg.Valid() && ViewInv(cfg, s) && RecordInv(s) && s.pc.RevokeOld?
    ensures RecordInv(Returned(cfg, s, outcome, expiresAt))
  {
  }

  lemma LastRevokeKeepsRecords(cfg: Config, s: State, outcome: Outcome, expiresAt: Time)
    requires cfg.Valid() && ViewInv(cfg, s) && ProviderInv(cfg, s) && RecordInv(s) && s.pc.RevokeLast?
    ensures RecordInv(Returned(cfg, s, outcome, expiresAt))
  {
  }

  lemma RecordStep(cfg: Config, s: State, e: Event)
    requires cfg.Valid() && ViewInv(cfg, s) && ProviderInv(cfg, s) && RecordInv(s) && Enabled(s, e)
    ensures RecordInv(Apply(cfg, s, e))
  {
    if e.Return? && Moves(s.pc) {
      if s.pc.Mint? {
        MintKeepsRecords(cfg, s, e.outcome, e.expiresAt);
      } else if s.pc.WriteSecret? {
        SecretKeepsRecords(cfg, s, e.outcome, e.expiresAt);
      } else if s.pc.WriteHandle? {
        HandleKeepsRecords(cfg, s, e.outcome, e.expiresAt);
      } else if s.pc.WriteStatus? {
        StatusKeepsRecords(cfg, s, e.outcome, e.expiresAt);
      } else if s.pc.RevokeOld? {
        RevokeKeepsRecords(cfg, s, e.outcome, e.expiresAt);
      } else {
        LastRevokeKeepsRecords(cfg, s, e.outcome, e.expiresAt);
      }
    } else {
      QuietStep(cfg, s, e);
      QuietKeepsRecords(s, Apply(cfg, s, e));
    }
  }

  // ---------------------------------------------------------------- finalizer

  /** The controller has done nothing for the object yet. */
  ghost predicate Untouched(s: State) {
    s.minted == [] && s.revoked == [] && s.secret.None? && s.described.None?
  }

  /** The handle recorded in the copy has been handed to Revoke, if the guard before
      the call lets it pass. */
  ghost predicate LastRevoked(cfg: Config, s: State, view: EC) {
    cfg.CanRevoke(view.spec, view.handle) ==>
      RevokeCall(view.handle.value.provider, view.handle.value) in s.revoked
  }

  ghost predicate FinalizerInv(cfg: Config, s: State) {
    && (s.ec.Some? && !s.ec.value.finalizer ==>
          Untouched(s) && s.ec.value.handle.None? && s.ec.value.status == EMPTY_STATUS)
    && (s.ec.None? ==> s.secret.None?)
    && (s.pc.DropLast? || s.pc.RemoveFinalizer? ==> LastRevoked(cfg, s, s.pc.view))
    && (s.pc.RemoveFinalizer? ==> s.secret.None?)
  }

  lemma FinalizerReturn(cfg: Config, s: State, outcome: Outcome, expiresAt: Time)
    requires cfg.Valid() && ViewInv(cfg, s) && ProviderInv(cfg, s) && FinalizerInv(cfg, s)
    requires Enabled(s, Return(outcome, expiresAt))
    ensures FinalizerInv(cfg, Returned(cfg, s, outcome, expiresAt))
  {
  }

  lemma FinalizerStep(cfg: Config, s: State, e: Event)
    requires cfg.Valid() && ViewInv(cfg, s) && ProviderInv(cfg, s) && FinalizerInv(cfg, s) && Enabled(s, e)
    ensures FinalizerInv(cfg, Apply(cfg, s, e))
  {
    if e.Return? {
      FinalizerReturn(cfg, s, e.outcome, e.expiresAt);
    }
  }

  // ---------------------------------------------------------------- status

  /** The Ready condition is set, to this value. */
  predicate Shows(status: Status, isTrue: bool) {
    status.ready.Ready? && status.ready.isTrue == isTrue
  }

  /** What each state of the lifecycle says about the rest of the status. */
  ghost predicate Lifecycle(status: Status, clock: Time) {
    match status.state
    case Blank => status == EMPTY_STATUS
    case Pending => status.expiresAt.None? && Shows(status, false) && status.ready.reason == ReasonPending
    case Active =>
      status.expiresAt.Some? && status.ready == Ready(true, MintSucceeded, status.observedGeneration)
    case Expiring => status.expiresAt.Some? && Shows(status, true) && status.ready.reason == RotationFailed
    case Failed =>
      && Shows(status, false)
      && (status.expiresAt.Some? ==> status.expiresAt.value <= clock)
  }

  /** The generations in a status are of the past, the mint's first. */
  ghost predicate Dated(status: Status, generation: int) {
    && status.observedGeneration <= generation
    && (status.ready.Ready? ==> status.observedGeneration <= status.ready.observedGeneration <= generation)
  }

  ghost predicate LifecycleInv(s: State) {
    && (s.ec.Some? ==>
          Lifecycle(s.ec.value.status, s.clock) && Dated(s.ec.value.status, s.ec.value.generation))
    && (!s.pc.Idle? ==> Dated(s.pc.view.status, s.pc.view.generation))
    && (s.pc.DropSecret? ==>
          s.pc.view.status.expiresAt.Some? && s.pc.view.status.expiresAt.value <= s.clock)
    && (s.pc.WriteFailure? ==>
          var status := s.pc.view.status;
          if s.pc.state.Expiring? then
            (status.state.Active? || status.state.Expiring?) && s.pc.reason == RotationFailed
          else s.pc.state.Failed? && (status.expiresAt.Some? ==> status.expiresAt.value <= s.clock))
  }

  lemma LifecycleWritten(cfg: Config, s: State, outcome: Outcome, expiresAt: Time)
    requires cfg.Valid() && ViewInv(cfg, s) && LifecycleInv(s) && Enabled(s, Return(outcome, expiresAt))
    requires s.pc.WritesStatus()
    ensures LifecycleInv(Returned(cfg, s, outcome, expiresAt))
  {
  }

  /** The other calls leave the status alone. */
  lemma LifecycleKept(cfg: Config, s: State, outcome: Outcome, expiresAt: Time)
    requires cfg.Valid() && ViewInv(cfg, s) && LifecycleInv(s) && Enabled(s, Return(outcome, expiresAt))
    requires !s.pc.WritesStatus()
    ensures LifecycleInv(Returned(cfg, s, outcome, expiresAt))
  {
  }

  lemma LifecycleStep(cfg: Config, s: State, e: Event)
    requires cfg.Valid() && ViewInv(cfg, s) && LifecycleInv(s) && Enabled(s, e)
    ensures LifecycleInv(Apply(cfg, s, e))
  {
    if e.Return? {
      if s.pc.WritesStatus() {
        LifecycleWritten(cfg, s, e.outcome, e.expiresAt);
      } else {
        LifecycleKept(cfg, s, e.outcome, e.expiresAt);
      }
    }
  }

  /** The persisted status tells the expiry and the mint time of the token
      `described`, as far as the persisted precision allows. */
  ghost predicate Describes(cfg: Config, s: State, status: Status)
    requires cfg.Valid()
  {
    && (s.described.Some? <==> status.expiresAt.Some?)
    && (s.described.None? ==> status.lastRotatedAt.None?)
    && (s.described.Some? && s.described.value < |s.minted| ==>
          var grant := s.minted[s.described.value];
          && status.expiresAt == Some(Truncate(cfg.unit, grant.expiresAt))
          && status.lastRotatedAt == Some(Truncate(cfg.unit, grant.at)))
  }

  ghost predicate DescribeInv(cfg: Config, s: State)
    requires cfg.Valid()
  {
    && (s.ec.Some? ==> Describes(cfg, s, s.ec.value.status))
    && (forall g :: g in s.minted ==> g.at <= s.clock)
    && NowInv(s)
    && (s.pc.RevokeOld? ==>
          s.pc.view.status ==
            MintedStatus(cfg.unit, s.pc.view.generation, s.pc.grant.at, s.pc.grant.expiresAt))
  }

  /** The reconcile has read the clock, and no later reading is on record. */
  ghost predicate NowInv(s: State) {
    s.pc.CheckSecret? || s.pc.BuildScope? || s.pc.Mint? ==> s.pc.now <= s.clock
  }

  /** Neither the token described nor its times change. */
  ghost predicate SameTimes(s: State, s': State) {
    && s'.minted == s.minted && s'.described == s.described && s.clock <= s'.clock && NowInv(s')
    && (s'.pc.RevokeOld? ==> s'.pc == s.pc)
    && (s'.ec.Some? ==>
          && s.ec.Some?
          && s'.ec.value.status.expiresAt == s.ec.value.status.expiresAt
          && s'.ec.value.status.lastRotatedAt == s.ec.value.status.lastRotatedAt)
  }

  lemma TimesKept(cfg: Config, s: State, e: Event)
    requires cfg.Valid() && NowInv(s) && Enabled(s, e) && !e.Return?
    ensures SameTimes(s, Apply(cfg, s, e))
  {
  }

  lemma TimesReturned(cfg: Config, s: State, outcome: Outcome, expiresAt: Time)
    requires cfg.Valid() && ViewInv(cfg, s) && NowInv(s) && Enabled(s, Return(outcome, expiresAt))
    requires !s.pc.Mint? && !s.pc.WriteStatus?
    ensures SameTimes(s, Returned(cfg, s, outcome, expiresAt))
  {
  }

  lemma DescribeMint(cfg: Config, s: State, outcome: Outcome, expiresAt: Time)
    requires cfg.Valid() && LedgerInv(s) && DescribeInv(cfg, s) && s.pc.Mint?
    ensures DescribeInv(cfg, Returned(cfg, s, outcome, expiresAt))
  {
  }

  lemma DescribeWritten(cfg: Config, s: State, outcome: Outcome, expiresAt: Time)
    requires cfg.Valid() && LedgerInv(s) && DescribeInv(cfg, s) && s.pc.WriteStatus?
    ensures DescribeInv(cfg, Returned(cfg, s, outcome, expiresAt))
  {
  }

  lemma DescribeStep(cfg: Config, s: State, e: Event)
    requires cfg.Valid() && ViewInv(cfg, s) && LedgerInv(s) && DescribeInv(cfg, s) && Enabled(s, e)
    ensures DescribeInv(cfg, Apply(cfg, s, e))
  {
    if !e.Return? {
      TimesKept(cfg, s, e);
    } else if s.pc.Mint? {
      DescribeMint(cfg, s, e.outcome, e.expiresAt);
    } else if s.pc.WriteStatus? {
      DescribeWritten(cfg, s, e.outcome, e.expiresAt);
    } else {
      TimesReturned(cfg, s, e.outcome, e.expiresAt);
    }
  }

  // ---------------------------------------------------------------- all of it

  ghost predicate Inv(cfg: Config, s: State)
    requires cfg.Valid()
  {
    && ViewInv(cfg, s) && ProviderInv(cfg, s) && RecordInv(s)
    && FinalizerInv(cfg, s) && LifecycleInv(s) && DescribeInv(cfg, s)
  }

  lemma InvStep(cfg: Config, s: State, e: Event)
    requires cfg.Valid() && Inv(cfg, s) && Enabled(s, e)
    ensures Inv(cfg, Apply(cfg, s, e))
  {
    ViewStep(cfg, s, e);
    ProviderStep(cfg, s, e);
    RecordStep(cfg, s, e);
    FinalizerStep(cfg, s, e);
    LifecycleStep(cfg, s, e);
    DescribeStep(cfg, s, e);
  }

  /** The invariant holds at the end of every life, hence throughout it. */
  lemma {:induction false} Always(cfg: Config, run: Run)
    requires Life(cfg, run)
    ensures Inv(cfg, run.Last(cfg))
  {
    if run.Then? {
      Always(cfg, run.before);
      InvStep(cfg, run.before.Last(cfg), run.event);
    }
  }
}
