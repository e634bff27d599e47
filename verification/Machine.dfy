/** The reconciler as a small-step machine
    (internal/controller/ephemeralcredential_controller.go): one step per
    Kubernetes or provider call and per clock reading, with the environment free
    to act between any two of them. */
module Machine {
  import opened Api
  import opened Schedule
  import opened Registry

  /** What is fixed over a run: the registered providers, and the precision with
      which status times are persisted. */
  datatype Config = Config(providers: seq<Provider>, unit: nat) {
    ghost predicate Valid() {
      unit > 0
    }

    function Lookup(name: string): Option<Provider> {
      LastNamed(providers, name)
    }

    /** Whether the guard before a Revoke call passes: the spec's provider is
        registered and is the one named in the handle. */
    predicate CanRevoke(spec: Spec, handle: Option<Handle>) {
      var prov := Lookup(spec.provider);
      prov.Some? && handle.Some? && handle.value.provider == prov.value.name
    }
  }

  /** What a provider granted: by which provider, at the time read by the
      reconcile that asked, until when. */
  datatype Grant = Grant(provider: string, at: Time, expiresAt: Time)

  /** A Revoke call: the provider it was made on and the handle it was given. */
  datatype RevokeCall = RevokeCall(provider: string, handle: Handle)

  /** Where the one running reconcile stands: each constructor but `Idle` names the
      call, or the reading of the clock, that comes next. `view` is the in-memory
      copy of the object. */
  datatype Pc =
    | Idle
    | AddFinalizer(view: EC)
    | WritePending(view: EC)
    | Decide(view: EC, prov: Provider)
    | CheckSecret(view: EC, now: Time, prov: Provider)
    | BuildScope(view: EC, now: Time, prov: Provider)
    | Mint(view: EC, now: Time, prov: Provider)
    | WriteSecret(view: EC, token: Token, grant: Grant)
    | WriteHandle(view: EC, token: Token, grant: Grant)
    | WriteStatus(view: EC, token: Token, grant: Grant, previous: Option<Handle>)
    | RevokeOld(view: EC, token: Token, grant: Grant, target: Handle)
    | Failing(view: EC, reason: Reason)
    | DropSecret(view: EC, reason: Reason)
    | WriteFailure(view: EC, state: CredentialState, reason: Reason)
    | RevokeLast(view: EC, prov: Provider, target: Handle)
    | DropLast(view: EC)
    | RemoveFinalizer(view: EC)
  {
    /** The next call is an Update or a Status().Update of the object. */
    predicate WritesObject() {
      WritesStatus() || AddFinalizer? || WriteHandle? || RemoveFinalizer?
    }

    /** The next call is a Status().Update. */
    predicate WritesStatus() {
      WritePending? || WriteStatus? || WriteFailure?
    }

    /** The next call only reads the cluster. */
    predicate Reads() {
      CheckSecret? || BuildScope?
    }

    predicate ReadsClock() {
      Decide? || Failing?
    }
  }

  /** The cluster, the providers' side of the story, and the running reconcile.

      `ec` is `None` once the object is gone; `secret` is the credential held in
      the target Secret, if the Secret exists. `minted` is the ledger of grants,
      indexed by token, and `revoked` the log of Revoke calls. `described` is
      history: the token of which the persisted status tells the expiry. `began`
      is when the running reconcile started, and `wake` the wake-up that the last
      one asked for, if it asked for one. */
  datatype State = State(
    clock: Time,
    ec: Option<EC>,
    secret: Option<Token>,
    minted: seq<Grant>,
    revoked: seq<RevokeCall>,
    described: Option<Token>,
    began: Time,
    wake: Option<Time>,
    pc: Pc
  )

  /** How a call ended: it took effect and said so; it took effect and reported a
      failure; it had no effect and reported a failure. */
  datatype Outcome = Done | Lost | Refused

  datatype Event =
    // the environment
    | Tick(to: Time)
    | EditSpec(spec: Spec)
    | EditMetadata
    | DeleteObject
    | DeleteSecret
    | Crash
    // the controller
    | Begin
    | ReadClock
    | Return(outcome: Outcome, expiresAt: Time)

  /** A new object, before the controller has seen it. */
  ghost predicate Fresh(s: State) {
    && s.ec.Some?
    && s.ec.value.generation == 1
    && !s.ec.value.deleting && !s.ec.value.finalizer
    && s.ec.value.handle.None? && s.ec.value.status == EMPTY_STATUS
    && s.secret.None? && s.minted == [] && s.revoked == []
    && s.described.None? && s.wake.None? && s.pc.Idle?
  }

  /** The in-memory copy carries the current resourceVersion. */
  predicate Current(s: State, view: EC) {
    s.ec.Some? && s.ec.value.resourceVersion == view.resourceVersion
  }

  predicate Enabled(s: State, e: Event) {
    match e
    case Tick(to) => s.clock <= to
    case EditSpec(_) => s.ec.Some?
    case EditMetadata => s.ec.Some?
    case DeleteObject => s.ec.Some? && !s.ec.value.deleting
    case DeleteSecret => s.secret.Some?
    case Crash => true
    case Begin => s.pc.Idle? && s.ec.Some?
    case ReadClock => s.pc.ReadsClock()
    case Return(outcome, _) =>
      && !s.pc.Idle? && !s.pc.ReadsClock()
      && (s.pc.Reads() ==> !outcome.Lost?)
      && (s.pc.WritesObject() && !Current(s, s.pc.view) ==> outcome.Refused?)
  }

  /** The reconcile ends with no wake-up of its own: an error, which is retried
      after a back-off, or an empty result. */
  function Stop(s: State): State {
    s.(pc := Idle)
  }

  /** The reconcile ends by asking to be called again `after` from now. */
  function Requeue(s: State, after: Time): State {
    s.(pc := Idle, wake := Some(s.clock + after))
  }

  /** The reconcile ends a successful mint. */
  function Scheduled(s: State, view: EC, grant: Grant): State {
    Requeue(s, RequeueAfter(grant.expiresAt, GrantWindow(view.spec, grant.expiresAt, grant.at), grant.at))
  }

  /** What a reconcile does first, by the object it read. */
  function FirstPc(cfg: Config, view: EC): Pc {
    if view.deleting then
      if !view.finalizer then Idle
      else if cfg.CanRevoke(view.spec, view.handle) then
        RevokeLast(view, cfg.Lookup(view.spec.provider).value, view.handle.value)
      else DropLast(view)
    else if !view.finalizer then AddFinalizer(view)
    else if cfg.Lookup(view.spec.provider).None? then Failing(view, ProviderNotFound)
    else Decide(view, cfg.Lookup(view.spec.provider).value)
  }

  function Begun(cfg: Config, s: State): State
    requires s.ec.Some?
  {
    s.(began := s.clock, wake := None, pc := FirstPc(cfg, s.ec.value))
  }

  /** What a reconcile does next, by the time it read: whether a mint is due, and,
      after a failure, whether the credential on record is still valid. */
  function PcAfterClock(pc: Pc, now: Time): Pc {
    match pc
    case Decide(view, prov) =>
      if NeedsMint(view, now) then BuildScope(view, now, prov) else CheckSecret(view, now, prov)
    case Failing(view, reason) =>
      var expiresAt := view.status.expiresAt;
      if expiresAt.Some? && now < expiresAt.value then WriteFailure(view, Expiring, RotationFailed)
      else if expiresAt.Some? then DropSecret(view, reason)
      else WriteFailure(view, Failed, reason)
    case _ => pc
  }

  function ClockRead(s: State): State {
    s.(pc := PcAfterClock(s.pc, s.clock))
  }

  /** The status that a failed attempt persists. */
  function FailureStatus(view: EC, state: CredentialState, reason: Reason): Status {
    view.status.(state := state, ready := Ready(state.Expiring?, reason, view.generation))
  }

  /** The status of an object that awaits its first mint. */
  function PendingStatus(view: EC): Status {
    view.status.(state := Pending, ready := Ready(false, ReasonPending, view.generation))
  }

  function Returned(cfg: Config, s: State, outcome: Outcome, expiresAt: Time): State
    requires cfg.Valid()
  {
    var lands := !outcome.Refused?;
    var ok := outcome.Done?;
    match s.pc
    case AddFinalizer(view) =>
      var sent := view.(finalizer := true, resourceVersion := view.resourceVersion + 1);
      if !lands then Stop(s)
      else s.(ec := Some(sent),
              pc := if ok && view.status.state.Blank? then WritePending(sent) else Idle)
    case WritePending(view) =>
      Stop(if lands then WithStatus(s, view, PendingStatus(view)) else s)
    case CheckSecret(view, now, prov) =>
      if !ok then Stop(s)
      else if s.secret.None? then s.(pc := BuildScope(view, now, prov))
      else if view.status.expiresAt.None? then Stop(s)
      else Requeue(s, RequeueAfter(view.status.expiresAt.value, StatusWindow(view.spec, view.status), now))
    case BuildScope(view, now, prov) =>
      if !ok then s.(pc := Failing(view, InvalidConfig)) else s.(pc := Mint(view, now, prov))
    case Mint(view, now, prov) =>
      var grant := Grant(prov.name, now, expiresAt);
      var s' := if lands then s.(minted := s.minted + [grant]) else s;
      if ok then s'.(pc := WriteSecret(view, |s.minted|, grant))
      else s'.(pc := Failing(view, if view.status.expiresAt.Some? then RotationFailed else MintFailed))
    case WriteSecret(view, token, grant) =>
      var s' := if lands then s.(secret := Some(token)) else s;
      if ok then s'.(pc := WriteHandle(view, token, grant))
      else s'.(pc := Failing(view, SecretWriteFailed))
    case WriteHandle(view, token, grant) =>
      var sent := view.(handle := Some(Handle(grant.provider, token)),
                        resourceVersion := view.resourceVersion + 1);
      var s' := if lands then s.(ec := Some(sent)) else s;
      if ok then s'.(pc := WriteStatus(sent, token, grant, view.handle)) else Stop(s')
    case WriteStatus(view, token, grant, previous) =>
      var status := MintedStatus(cfg.unit, view.generation, grant.at, grant.expiresAt);
      var s' := if lands then WithStatus(s, view, status).(described := Some(token)) else s;
      if !ok then Stop(s')
      else if previous.Some? && previous.value.provider == grant.provider then
        s'.(pc := RevokeOld(s'.ec.value, token, grant, previous.value))
      else Scheduled(s', view, grant)
    case RevokeOld(view, _, grant, target) =>
      Scheduled(s.(revoked := s.revoked + [RevokeCall(grant.provider, target)]), view, grant)
    case DropSecret(view, reason) =>
      var s' := if lands then s.(secret := None) else s;
      s'.(pc := WriteFailure(view, Failed, reason))
    case WriteFailure(view, state, reason) =>
      Stop(if lands then WithStatus(s, view, FailureStatus(view, state, reason)) else s)
    case RevokeLast(view, prov, target) =>
      s.(revoked := s.revoked + [RevokeCall(prov.name, target)], pc := DropLast(view))
    case DropLast(view) =>
      var s' := if lands then s.(secret := None) else s;
      if ok then s'.(pc := RemoveFinalizer(view)) else Stop(s')
    case RemoveFinalizer(view) =>
      Stop(if lands then s.(ec := None) else s)
    case _ => s
  }

  /** The object after a Status().Update of the copy `view`. */
  function WithStatus(s: State, view: EC, status: Status): (s': State)
    ensures s'.ec.Some?
  {
    s.(ec := Some(view.(status := status, resourceVersion := view.resourceVersion + 1)))
  }

  /** The object after someone else changed it. */
  function Bumped(ec: EC): EC {
    ec.(resourceVersion := ec.resourceVersion + 1)
  }

  function Apply(cfg: Config, s: State, e: Event): State
    requires cfg.Valid() && Enabled(s, e)
  {
    match e
    case Tick(to) => s.(clock := to)
    case EditSpec(spec) =>
      var ec := s.ec.value;
      s.(ec := Some(Bumped(ec).(spec := spec, generation := ec.generation + 1)))
    case EditMetadata => s.(ec := Some(Bumped(s.ec.value)))
    case DeleteObject =>
      var ec := s.ec.value;
      if ec.finalizer then
        s.(ec := Some(Bumped(ec).(deleting := true, generation := ec.generation + 1)))
      else s.(ec := None)
    case DeleteSecret => s.(secret := None)
    case Crash => s.(pc := Idle, wake := None)
    case Begin => Begun(cfg, s)
    case ReadClock => ClockRead(s)
    case Return(outcome, expiresAt) => Returned(cfg, s, outcome, expiresAt)
  }

  /** A finite run: a state to start from and the events that followed. */
  datatype Run = Start(state: State) | Then(before: Run, event: Event) {
    /** Every event was possible when it happened. */
    ghost predicate Valid(cfg: Config)
      requires cfg.Valid()
      decreases this, 0
    {
      Then? ==> before.Valid(cfg) && Enabled(before.Last(cfg), event)
    }

    ghost function Last(cfg: Config): State
      requires cfg.Valid() && Valid(cfg)
      decreases this, 1
    {
      match this
      case Start(s) => s
      case Then(before, e) => Apply(cfg, before.Last(cfg), e)
    }

    ghost function First(): State {
      match this
      case Start(s) => s
      case Then(before, _) => before.First()
    }
  }

  /** A run of the controller over the life of one object. */
  ghost predicate Life(cfg: Config, run: Run) {
    cfg.Valid() && run.Valid(cfg) && Fresh(run.First())
  }

  /** `run` continues `earlier`. */
  ghost predicate Extends(run: Run, earlier: Run) {
    run == earlier || (run.Then? && Extends(run.before, earlier))
  }

  /** `run` is `start` followed by one reconcile, or by a beginning of it, in which only
      allowed events happen. */
  ghost predicate Attempt(cfg: Config, allowed: (State, Event) -> bool, start: Run, run: Run)
    requires cfg.Valid() && run.Valid(cfg)
  {
    && run.Then?
    && (|| (run.before == start && run.event.Begin?)
        || (&& Attempt(cfg, allowed, start, run.before)
            && !run.before.Last(cfg).pc.Idle?
            && allowed(run.before.Last(cfg), run.event)))
  }

  /** The allowed events continue the reconcile. */
  lemma Attempts(cfg: Config, allowed: (State, Event) -> bool, start: Run, run: Run, e: Event)
    requires Life(cfg, run) && Attempt(cfg, allowed, start, run)
    requires !run.Last(cfg).pc.Idle? && Enabled(run.Last(cfg), e) && allowed(run.Last(cfg), e)
    ensures Life(cfg, Then(run, e)) && Attempt(cfg, allowed, start, Then(run, e))
    ensures Then(run, e).Last(cfg) == Apply(cfg, run.Last(cfg), e)
  {
  }

  /** An event that is possible continues a life. */
  lemma Lives(cfg: Config, run: Run, e: Event)
    requires Life(cfg, run) && Enabled(run.Last(cfg), e)
    ensures Life(cfg, Then(run, e)) && Then(run, e).Last(cfg) == Apply(cfg, run.Last(cfg), e)
  {
  }
}
