/** The reconciler as the program that it is: it reads the object, changes its copy in
    place and makes its calls one after the other
    (internal/controller/ephemeralcredential_controller.go). Every call is let through
    only as the call that comes next in the machine, with the arguments that the
    machine gives it; so each reconcile extends a life of the machine, and all that
    is proved of lives holds at every point of it. */
module Reconciler {
  import opened Api
  import opened Schedule
  import opened Registry
  import opened Machine
  import opened Invariants
  import opened HandleCodec

  /** The in-memory copy of the object. The handle is there as the text of an annotation,
      which is empty if there is none. */
  class Object {
    var generation: int
    var resourceVersion: nat
    var deleting: bool
    var finalizer: bool
    var spec: Spec
    var handleAnnotation: string
    var status: Status
    ghost var handle: Option<Handle>  // what the annotation stands for

    ghost function View(): EC
      reads this
    {
      EC(generation, resourceVersion, deleting, finalizer, spec, handle, status)
    }

    /** The annotation is that of the handle, with the provider's own bytes. */
    ghost predicate Annotated(codec: Codec)
      reads this
    {
      handleAnnotation == codec.Annotation(handle)
    }

    constructor (ec: EC, codec: Codec)
      ensures View() == ec && Annotated(codec)
    {
      generation, resourceVersion, deleting, finalizer := ec.generation, ec.resourceVersion, ec.deleting, ec.finalizer;
      spec, handleAnnotation, status := ec.spec, codec.Annotation(ec.handle), ec.status;
      handle := ec.handle;
    }

    /** The copy is brought up to date with what the API server persisted. */
    method Refresh(status: Status)
      modifies this`resourceVersion, this`status
      ensures View() == Bumped(old(View())).(status := status)
    {
      resourceVersion, this.status := resourceVersion + 1, status;
    }

    method SetReadyCondition(isTrue: bool, reason: Reason)
      modifies this`status
      ensures status == old(status).(ready := Ready(isTrue, reason, generation))
    {
      status := status.(ready := Ready(isTrue, reason, generation));
    }

    /** The status of a mint that succeeded. */
    method SetActive(now: Time, expiresAt: Time)
      modifies this`status
      ensures View() == old(View()).(
        status := Status(Active, Some(expiresAt), Some(now), generation, Ready(true, MintSucceeded, generation)))
    {
      status := status.(state := Active, expiresAt := Some(expiresAt), lastRotatedAt := Some(now),
                        observedGeneration := generation);
      SetReadyCondition(true, MintSucceeded);
    }
  }

  // ---------------------------------------------------------------- what is sent

  /** The object that the pending Update sends. */
  ghost function Sent(pc: Pc): EC
    requires pc.AddFinalizer? || pc.WriteHandle? || pc.RemoveFinalizer?
  {
    match pc
    case AddFinalizer(view) => view.(finalizer := true)
    case WriteHandle(view, token, grant) => view.(handle := Some(Handle(grant.provider, token)))
    case RemoveFinalizer(view) => view.(finalizer := false)
  }

  /** The status that the pending Status().Update sends. */
  ghost function SentStatus(pc: Pc): Status
    requires pc.WritesStatus()
  {
    match pc
    case WritePending(view) => PendingStatus(view)
    case WriteStatus(view, _, grant, _) =>
      Status(Active, Some(grant.expiresAt), Some(grant.at), view.generation, Ready(true, MintSucceeded, view.generation))
    case WriteFailure(view, state, reason) => FailureStatus(view, state, reason)
  }

  /** What a caller gets to see: after how long to call again, and whether to retry. */
  datatype Result = Again(after: Time) | Retry | NoFurtherCall

  // ---------------------------------------------------------------- the world

  ghost function Begins(run: Run): nat {
    match run
    case Start(_) => 0
    case Then(before, e) => Begins(before) + if e.Begin? then 1 else 0
  }

  /** What the API server answered to a read of the object. */
  datatype Fetch = Unreachable | NotFound | Found(ec: EC)

  /** The API server, the providers and the clock, with everything that happened. */
  class Cluster {
    const cfg: Config
    const codec: Codec  // how the handle is kept in its annotation
    var state: State
    ghost var run: Run
    ghost var start: Run  // the run when the latest reconcile was called
    ghost var begun: nat  // how many reconciles have read the object
    ghost var fetches: seq<Fetch>  // how all their reads ended

    constructor (cfg: Config, codec: Codec, state: State)
      requires cfg.Valid() && Fresh(state)
      ensures Valid() && this.cfg == cfg && this.codec == codec && this.state == state
    {
      this.cfg, this.codec, this.state := cfg, codec, state;
      this.run, this.start, this.begun, this.fetches := Start(state), Start(state), 0, [];
    }

    ghost predicate Valid()
      reads this
    {
      Life(cfg, run) && run.Last(cfg) == state && Extends(run, start) && begun == Begins(run)
    }

    /** The latest event is a call that returned, with this success. */
    ghost predicate Succeeded(ok: bool)
      reads this
    {
      run.Then? && run.event.Return? && run.event.outcome.Done? == ok
    }

    /** A reconcile is called. */
    method Mark()
      requires Valid()
      modifies this`start
      ensures Valid() && start == run
    {
      start := run;
    }

    method Happen(e: Event)
      requires Valid() && Enabled(state, e) && !e.Begin?
      modifies this`state, this`run
      ensures Valid() && state == Apply(cfg, old(state), e) && run == Then(old(run), e)
    {
      Lives(cfg, run, e);
      state := Apply(cfg, state, e);
      run := Then(run, e);
    }

    /** Whoever else there is acts, any number of times. */
    method Interfere()
      requires Valid()
      modifies this`state, this`run
      ensures Valid() && state.pc == old(state.pc) && state.wake == old(state.wake)
    {
      var n: int := *;
      while n > 0
        invariant Valid() && state.pc == old(state.pc) && state.wake == old(state.wake)
      {
        var e: Event := *;
        if (e.Tick? || e.EditSpec? || e.EditMetadata? || e.DeleteObject? || e.DeleteSecret?) && Enabled(state, e) {
          Happen(e);
        }
        n := n - 1;
      }
    }

    /** The pending call returns, in whichever way it can. */
    method Call() returns (outcome: Outcome, expiresAt: Time, ghost before: State)
      requires Valid() && !state.pc.Idle? && !state.pc.ReadsClock()
      modifies this`state, this`run
      ensures Valid()
      ensures before.pc == old(state.pc) && before.wake == old(state.wake)
      ensures ViewInv(cfg, before) && LedgerInv(before) && DescribeInv(cfg, before)
      ensures Enabled(before, Return(outcome, expiresAt)) && state == Returned(cfg, before, outcome, expiresAt)
      ensures Succeeded(outcome.Done?)
    {
      Interfere();
      outcome, expiresAt := *, *;
      if !Enabled(state, Return(outcome, expiresAt)) {
        outcome := Refused;
      }
      before := state;
      Always(cfg, run);
      Happen(Return(outcome, expiresAt));
    }

    method GetObject() returns (ec: Object?, gone: bool)
      requires Valid() && state.pc.Idle?
      modifies this`state, this`run, this`begun, this`fetches
      ensures Valid()
      ensures fetches == old(fetches) +
        [if ec != null then Found(ec.View()) else if gone then NotFound else Unreachable]
      ensures ec == null ==> state.pc.Idle? && state.wake == old(state.wake) && begun == old(begun)
      ensures gone ==> ec == null && state.ec.None?
      ensures ec != null ==>
        && fresh(ec) && ec.Annotated(codec) && begun == old(begun) + 1
        && state.pc == FirstPc(cfg, ec.View()) && state.wake.None?
    {
      Interfere();
      ec, gone := null, false;
      var answered := *;
      if !answered {
        fetches := fetches + [Unreachable];
      } else {
        if state.ec.None? {
          gone := true;
          fetches := fetches + [NotFound];
        } else {
          fetches := fetches + [Found(state.ec.value)];
          ec := new Object(state.ec.value, codec);
          Lives(cfg, run, Begin);
          state, run, begun := Apply(cfg, state, Begin), Then(run, Begin), begun + 1;
        }
      }
    }

    method Now() returns (now: Time)
      requires Valid() && state.pc.ReadsClock()
      modifies this`state, this`run
      ensures Valid() && state.wake == old(state.wake)
      ensures state.pc == PcAfterClock(old(state.pc), now)
    {
      Interfere();
      now := state.clock;
      Happen(ReadClock);
    }

    // -------------------------------------------------------------- calls on the object

    /** Update: the metadata and the spec of the copy are sent; if the call succeeds,
        the copy becomes the object as persisted. */
    method Update(ec: Object) returns (ok: bool)
      requires Valid() && (state.pc.AddFinalizer? || state.pc.WriteHandle? || state.pc.RemoveFinalizer?)
      requires ec.View() == Sent(state.pc) && ec.Annotated(codec)
      modifies this`state, this`run, ec`resourceVersion, ec`status
      ensures Valid() && state.wake == old(state.wake) && Succeeded(ok)
      ensures !ok ==> state.pc.Idle?
      ensures ok ==> ec.View() == Bumped(old(ec.View()))
      ensures ok && old(state.pc.AddFinalizer?) ==>
        state.pc == if ec.status.state.Blank? then WritePending(ec.View()) else Idle
      ensures ok && old(state.pc.WriteHandle?) ==>
        state.pc == WriteStatus(ec.View(), old(state.pc.token), old(state.pc.grant), old(state.pc.view.handle))
      ensures ok && old(state.pc.RemoveFinalizer?) ==> state.pc.Idle?
    {
      var outcome, expiresAt, before := Call();
      ok := outcome.Done?;
      AfterUpdate(cfg, before, outcome, expiresAt);
      if ok {
        ec.Refresh(ec.status);
      }
    }

    /** Status().Update: the status of the copy is sent, and its times are persisted to
        the precision of the API. */
    method UpdateStatus(ec: Object) returns (ok: bool)
      requires Valid() && state.pc.WritesStatus()
      requires ec.View() == state.pc.view.(status := SentStatus(state.pc)) && ec.Annotated(codec)
      modifies this`state, this`run, ec`resourceVersion, ec`status
      ensures Valid() && Succeeded(ok)
      ensures !ok ==> state.pc.Idle? && state.wake == old(state.wake)
      ensures ok ==>
        ec.View() == Bumped(old(ec.View())).(status := Persisted(cfg.unit, old(ec.status)))
      ensures ok && !old(state.pc.WriteStatus?) ==> state.pc.Idle? && state.wake == old(state.wake)
      ensures ok && old(state.pc.WriteStatus?) ==>
        var previous, grant := old(state.pc.previous), old(state.pc.grant);
        if previous.Some? && previous.value.provider == grant.provider then
          state.pc == RevokeOld(ec.View(), old(state.pc.token), grant, previous.value)
        else state.pc.Idle? && state.wake == Some(state.clock + AfterMint(ec.spec, grant))
    {
      ok := SendStatus();
      if ok {
        ec.Refresh(Persisted(cfg.unit, ec.status));
      }
    }

    /** The pending Status().Update returns. */
    method SendStatus() returns (ok: bool)
      requires Valid() && state.pc.WritesStatus()
      modifies this`state, this`run
      ensures Valid() && Succeeded(ok)
      ensures if ok && old(state.pc.WriteStatus?) then
                var previous, grant := old(state.pc.previous), old(state.pc.grant);
                var sent := Bumped(old(state.pc.view)).(status := Persisted(cfg.unit, SentStatus(old(state.pc))));
                if previous.Some? && previous.value.provider == grant.provider then
                  state.pc == RevokeOld(sent, old(state.pc.token), grant, previous.value)
                else state.pc.Idle? && state.wake == Some(state.clock + AfterMint(sent.spec, grant))
              else state.pc.Idle? && state.wake == old(state.wake)
    {
      var outcome, expiresAt, before := Call();
      ok := outcome.Done?;
      AfterStatus(cfg, before, outcome, expiresAt);
    }

    // -------------------------------------------------------------- calls on the Secret

    method TargetSecretExists() returns (ok: bool, found: bool)
      requires Valid() && state.pc.CheckSecret? && state.pc.view.status.expiresAt.Some?
      modifies this`state, this`run
      ensures Valid()
      ensures !ok ==> state.pc.Idle? && state.wake == old(state.wake)
      ensures ok && !found ==>
        && state.wake == old(state.wake)
        && state.pc == BuildScope(old(state.pc.view), old(state.pc.now), old(state.pc.prov))
      ensures ok && found ==>
        var view := old(state.pc.view);
        && state.pc.Idle?
        && state.wake == Some(state.clock + RequeueAfter(view.status.expiresAt.value,
                                                         StatusWindow(view.spec, view.status), old(state.pc.now)))
    {
      var outcome, _, before := Call();
      ok, found := outcome.Done?, state.secret.Some?;
    }

    /** CreateOrUpdate of the target Secret with the credential. */
    method WriteTargetSecret(token: Token) returns (ok: bool)
      requires Valid() && state.pc.WriteSecret? && state.pc.token == token
      modifies this`state, this`run
      ensures Valid() && state.wake == old(state.wake)
      ensures state.pc == if ok then WriteHandle(old(state.pc.view), token, old(state.pc.grant))
                          else Failing(old(state.pc.view), SecretWriteFailed)
    {
      var outcome, _, before := Call();
      ok := outcome.Done?;
    }

    method DeleteTargetSecret() returns (ok: bool)
      requires Valid() && (state.pc.DropSecret? || state.pc.DropLast?)
      modifies this`state, this`run
      ensures Valid() && state.wake == old(state.wake) && Succeeded(ok)
      ensures old(state.pc.DropSecret?) ==>
        state.pc == WriteFailure(old(state.pc.view), Failed, old(state.pc.reason))
      ensures old(state.pc.DropLast?) ==>
        state.pc == if ok then RemoveFinalizer(old(state.pc.view)) else Idle
    {
      var outcome, _, before := Call();
      ok := outcome.Done?;
    }

    // -------------------------------------------------------------- calls on the provider

    method ResolveScope() returns (ok: bool)
      requires Valid() && state.pc.BuildScope?
      modifies this`state, this`run
      ensures Valid() && state.wake == old(state.wake)
      ensures state.pc == if ok then Mint(old(state.pc.view), old(state.pc.now), old(state.pc.prov))
                          else Failing(old(state.pc.view), InvalidConfig)
    {
      var outcome, _, before := Call();
      ok := outcome.Done?;
    }

    /** The answer holds the credential, its handle and its expiry. */
    method MintWith(prov: Provider) returns (minted: Option<(Token, CredentialHandle, Time)>)
      requires Valid() && state.pc.Mint? && state.pc.prov == prov
      modifies this`state, this`run
      ensures Valid() && state.wake == old(state.wake)
      ensures minted.Some? ==>
        && minted.value.1 == CredentialHandle(prov.name, codec.material(minted.value.0))
        && state.pc == WriteSecret(old(state.pc.view), minted.value.0,
                                   Grant(prov.name, old(state.pc.now), minted.value.2))
      ensures minted.None? ==>
        state.pc == Failing(old(state.pc.view),
                            if old(state.pc.view.status.expiresAt.Some?) then RotationFailed else MintFailed)
    {
      var outcome, expiresAt, before := Call();
      minted := None;
      if outcome.Done? && state.pc.WriteSecret? {
        minted := Some((state.pc.token, CredentialHandle(prov.name, codec.material(state.pc.token)), expiresAt));
      }
    }

    /** Revoke is best effort: however it ends, the reconcile goes on. */
    method RevokeWith(prov: string, handle: CredentialHandle)
      requires Valid() && (state.pc.RevokeOld? || state.pc.RevokeLast?)
      requires handle == codec.Full(state.pc.target)
      requires prov == if state.pc.RevokeOld? then state.pc.grant.provider else state.pc.prov.name
      modifies this`state, this`run
      ensures Valid()
      ensures RevokeCall(prov, old(state.pc.target)) in state.revoked
      ensures old(state.pc.RevokeOld?) ==>
        && state.pc.Idle?
        && state.wake == Some(state.clock + AfterMint(old(state.pc.view.spec), old(state.pc.grant)))
      ensures old(state.pc.RevokeLast?) ==>
        state.pc == DropLast(old(state.pc.view)) && state.wake == old(state.wake)
    {
      var outcome, expiresAt, before := Call();
      AfterRevoke(cfg, before, outcome, expiresAt);
    }
  }

  /** How long after the mint the next reconcile is asked for. */
  function AfterMint(spec: Spec, grant: Grant): Time {
    RequeueAfter(grant.expiresAt, GrantWindow(spec, grant.expiresAt, grant.at), grant.at)
  }

  /** A status as the API server keeps it. */
  function Persisted(unit: nat, status: Status): Status
    requires unit > 0
  {
    status.(
      expiresAt := if status.expiresAt.Some? then Some(Truncate(unit, status.expiresAt.value)) else None,
      lastRotatedAt := if status.lastRotatedAt.Some? then Some(Truncate(unit, status.lastRotatedAt.value)) else None)
  }

  /** What is persisted of the status sent is what the machine writes: truncation
      applies to the times of a mint, and leaves times read back as they are. */
  lemma PersistsExactly(cfg: Config, s: State)
    requires cfg.Valid() && ViewInv(cfg, s) && LedgerInv(s) && DescribeInv(cfg, s) && s.pc.WritesStatus()
    ensures Persisted(cfg.unit, SentStatus(s.pc)) ==
      match s.pc
      case WriteStatus(view, _, grant, _) => MintedStatus(cfg.unit, view.generation, grant.at, grant.expiresAt)
      case _ => SentStatus(s.pc)
  {
    if !s.pc.WriteStatus? && s.described.Some? {
      var grant := s.minted[s.described.value];
      TruncateTwice(cfg.unit, grant.expiresAt);
      TruncateTwice(cfg.unit, grant.at);
    }
  }

  /** What follows an Update. */
  lemma AfterUpdate(cfg: Config, s: State, outcome: Outcome, expiresAt: Time)
    requires cfg.Valid() && (s.pc.AddFinalizer? || s.pc.WriteHandle? || s.pc.RemoveFinalizer?)
    ensures var s', sent := Returned(cfg, s, outcome, expiresAt), Bumped(Sent(s.pc));
            && s'.wake == s.wake
            && s'.pc ==
                 if outcome.Done? && s.pc.AddFinalizer? && sent.status.state.Blank? then WritePending(sent)
                 else if outcome.Done? && s.pc.WriteHandle? then
                   WriteStatus(sent, s.pc.token, s.pc.grant, s.pc.view.handle)
                 else Idle
  {
  }

  /** What follows a Revoke. */
  lemma AfterRevoke(cfg: Config, s: State, outcome: Outcome, expiresAt: Time)
    requires cfg.Valid() && (s.pc.RevokeOld? || s.pc.RevokeLast?)
    ensures var s' := Returned(cfg, s, outcome, expiresAt);
            if s.pc.RevokeOld? then
              && RevokeCall(s.pc.grant.provider, s.pc.target) in s'.revoked
              && s'.pc.Idle? && s'.wake == Some(s'.clock + AfterMint(s.pc.view.spec, s.pc.grant))
            else
              && RevokeCall(s.pc.prov.name, s.pc.target) in s'.revoked
              && s'.pc == DropLast(s.pc.view) && s'.wake == s.wake
  {
  }

  /** What follows a Status().Update. */
  lemma AfterStatus(cfg: Config, s: State, outcome: Outcome, expiresAt: Time)
    requires cfg.Valid() && ViewInv(cfg, s) && LedgerInv(s) && DescribeInv(cfg, s)
    requires s.pc.WritesStatus() && Enabled(s, Return(outcome, expiresAt))
    ensures var s' := Returned(cfg, s, outcome, expiresAt);
            if outcome.Done? && s.pc.WriteStatus? then
              var grant, previous := s.pc.grant, s.pc.previous;
              var sent := Bumped(s.pc.view).(status := Persisted(cfg.unit, SentStatus(s.pc)));
              if previous.Some? && previous.value.provider == grant.provider then
                s'.pc == RevokeOld(sent, s.pc.token, grant, previous.value)
              else s'.pc.Idle? && s'.wake == Some(s'.clock + AfterMint(sent.spec, grant))
            else s'.pc.Idle? && s'.wake == s.wake
  {
    PersistsExactly(cfg, s);
  }

  lemma TruncateTwice(unit: nat, t: Time)
    requires unit > 0
    ensures Truncate(unit, Truncate(unit, t)) == Truncate(unit, t)
  {
    var r := Truncate(unit, t);
    var q, q' := t / unit, r / unit;
    assert r == unit * q && Truncate(unit, r) == unit * q';
    if q' < q {
      MultiplesOrdered(unit, q' + 1, q);
    } else {
      MultiplesOrdered(unit, q, q');
    }
  }

  // ---------------------------------------------------------------- the program

  class EphemeralCredentialReconciler {
    const cluster: Cluster
    const registry: ProviderRegistry

    constructor (cluster: Cluster, registry: ProviderRegistry)
      requires cluster.Valid() && cluster.codec.Faithful() && registry.Serves(cluster.cfg.providers)
      ensures Valid() && this.cluster == cluster && this.registry == registry
    {
      this.cluster, this.registry := cluster, registry;
    }

    ghost predicate Valid()
      reads this, cluster, registry
    {
      cluster.Valid() && cluster.codec.Faithful() && registry.Serves(cluster.cfg.providers)
    }

    /** What was read from an annotation is the handle that it stands for. */
    ghost predicate Reads(found: Option<CredentialHandle>, handle: Option<Handle>) {
      found == if handle.None? then None else Some(cluster.codec.Full(handle.value))
    }

    /** The result asks for the wake-up that the machine records, or for none. */
    ghost predicate Ended(result: Result)
      reads this, cluster
    {
      && cluster.state.pc.Idle?
      && (result.Again? ==>
            && result.after >= MIN_REQUEUE_AFTER
            && cluster.state.wake == Some(cluster.state.clock + result.after))
      && (!result.Again? ==> cluster.state.wake.None?)
    }

    /** One reconcile reads the object once. If it finds it, it continues the life of
        the object by one attempt, runs that to its end, and asks for the wake-up that
        belongs to it; if not, nothing begins, and it is the read that failed or found
        nothing. No further call is asked for exactly when the last write of a delete has
        succeeded, or the failure of an unregistered provider has been recorded. */
    method Reconcile() returns (result: Result)
      requires Valid() && cluster.state.pc.Idle?
      modifies cluster
      ensures Valid() && cluster.state.pc.Idle?
      ensures Extends(cluster.run, old(cluster.run))
      ensures |cluster.fetches| == |old(cluster.fetches)| + 1 && old(cluster.fetches) <= cluster.fetches
      ensures match cluster.fetches[|old(cluster.fetches)|]
              case Found(ec) =>
                && Begins(cluster.run) == Begins(old(cluster.run)) + 1 && Ended(result)
                && (result.Again? ==> ec.finalizer && !ec.deleting && cluster.cfg.Lookup(ec.spec.provider).Some?)
                && (result.NoFurtherCall? <==>
                      if ec.deleting then !ec.finalizer || cluster.Succeeded(true)
                      else ec.finalizer && cluster.cfg.Lookup(ec.spec.provider).None? && cluster.Succeeded(true))
              case NotFound =>
                && Begins(cluster.run) == Begins(old(cluster.run)) && cluster.state.wake == old(cluster.state.wake)
                && result.NoFurtherCall? && cluster.state.ec.None?
              case Unreachable =>
                && Begins(cluster.run) == Begins(old(cluster.run)) && cluster.state.wake == old(cluster.state.wake)
                && result.Retry?
    {
      cluster.Mark();
      var ec, gone := cluster.GetObject();
      if ec == null {
        return if gone then NoFurtherCall else Retry;
      }
      if ec.deleting {
        result := ReconcileDelete(ec);
      } else if !ec.finalizer {
        result := AdoptObject(ec);
      } else {
        var prov := registry.Get(ec.spec.provider, cluster.cfg.providers);
        if prov.None? {
          result := FailStatus(ec, ProviderNotFound, false);
        } else {
          result := KeepFresh(ec, prov.value);
        }
      }
    }

    /** The object gets its finalizer before anything is minted for it, and a status. */
    method AdoptObject(ec: Object) returns (result: Result)
      requires Valid() && cluster.state.pc == AddFinalizer(ec.View()) && cluster.state.wake.None?
      requires ec.Annotated(cluster.codec)
      modifies cluster`state, cluster`run, ec
      ensures Valid() && Ended(result) && result.Retry?
    {
      ec.finalizer := true;
      var ok := cluster.Update(ec);
      if !ok {
        return Retry;
      }
      if ec.status.state.Blank? {
        ec.status := ec.status.(state := Pending);
        ec.SetReadyCondition(false, ReasonPending);
        ok := cluster.UpdateStatus(ec);
      }
      result := Retry;
    }

    /** Mints if a mint is due or the Secret is missing. */
    method KeepFresh(ec: Object, prov: Provider) returns (result: Result)
      requires Valid() && cluster.state.pc == Decide(ec.View(), prov) && cluster.state.wake.None?
      requires ec.Annotated(cluster.codec)
      modifies cluster`state, cluster`run, ec
      ensures Valid() && Ended(result) && !result.NoFurtherCall?
    {
      var now := cluster.Now();
      var (rotateBefore, _) := ClampRotateBefore(RequestedRotateBefore(ec.spec), GrantedLifetime(ec.status));
      var needsMint :=
        || ec.status.expiresAt.None?
        || ec.generation != ec.status.observedGeneration
        || !(now + rotateBefore < ec.status.expiresAt.value);
      if !needsMint {
        var ok, found := cluster.TargetSecretExists();
        if !ok {
          return Retry;
        }
        if found {
          return Again(RequeueAfter(ec.status.expiresAt.value, rotateBefore, now));
        }
      }
      result := MintAndRecord(ec, prov, now);
    }

    method MintAndRecord(ec: Object, prov: Provider, now: Time) returns (result: Result)
      requires Valid() && cluster.state.pc == BuildScope(ec.View(), now, prov) && cluster.state.wake.None?
      requires ec.Annotated(cluster.codec)
      modifies cluster`state, cluster`run, ec
      ensures Valid() && Ended(result) && !result.NoFurtherCall?
    {
      cluster.codec.AnnotationIsRead(ec.handle);
      var previousHandle := cluster.codec.decode(ec.handleAnnotation);
      var isRotation := ec.status.expiresAt.Some?;
      var ok := cluster.ResolveScope();
      if !ok {
        result := FailStatus(ec, InvalidConfig, true);
        return;
      }
      var minted := cluster.MintWith(prov);
      if minted.None? {
        result := FailStatus(ec, if isRotation then RotationFailed else MintFailed, true);
        return;
      }
      var (token, handle, expiresAt) := minted.value;
      ok := cluster.WriteTargetSecret(token);
      if !ok {
        result := FailStatus(ec, SecretWriteFailed, true);
        return;
      }
      result := Record(ec, prov, now, token, handle, expiresAt, previousHandle);
    }

    /** Writes the handle, then the status, and only then revokes what came before. */
    method Record(ec: Object, prov: Provider, now: Time, ghost token: Token, handle: CredentialHandle,
                  expiresAt: Time, previousHandle: Option<CredentialHandle>)
      returns (result: Result)
      requires Valid() && cluster.state.wake.None? && ec.Annotated(cluster.codec)
      requires Reads(previousHandle, ec.handle) && handle == CredentialHandle(prov.name, cluster.codec.material(token))
      requires cluster.state.pc == WriteHandle(ec.View(), token, Grant(prov.name, now, expiresAt))
      modifies cluster`state, cluster`run, ec
      ensures Valid() && Ended(result) && !result.NoFurtherCall?
    {
      ghost var previous := ec.handle;
      ec.handleAnnotation, ec.handle := cluster.codec.encode(handle), Some(Handle(prov.name, token));
      var ok := cluster.Update(ec);
      if !ok {
        return Retry;
      }
      result := RecordStatus(ec, prov, now, token, expiresAt, previousHandle, previous);
    }

    method RecordStatus(ec: Object, prov: Provider, now: Time, ghost token: Token, expiresAt: Time,
                        previousHandle: Option<CredentialHandle>, ghost previous: Option<Handle>)
      returns (result: Result)
      requires Valid() && cluster.state.wake.None? && ec.Annotated(cluster.codec) && Reads(previousHandle, previous)
      requires cluster.state.pc == WriteStatus(ec.View(), token, Grant(prov.name, now, expiresAt), previous)
      modifies cluster`state, cluster`run, ec
      ensures Valid() && Ended(result) && !result.NoFurtherCall?
    {
      ec.SetActive(now, expiresAt);
      var ok := cluster.UpdateStatus(ec);
      if !ok {
        return Retry;
      }
      RevokePrevious(ec, prov, now, token, expiresAt, previousHandle, previous);
      var (nextRotateBefore, _) := ClampRotateBefore(RequestedRotateBefore(ec.spec), expiresAt - now);
      result := Again(RequeueAfter(expiresAt, nextRotateBefore, now));
    }

    /** Revokes the previous credential, if this provider minted it. */
    method RevokePrevious(ec: Object, prov: Provider, ghost now: Time, ghost token: Token, ghost expiresAt: Time,
                          previousHandle: Option<CredentialHandle>, ghost previous: Option<Handle>)
      requires Valid() && Reads(previousHandle, previous)
      requires var grant := Grant(prov.name, now, expiresAt);
               if previous.Some? && previous.value.provider == prov.name then
                 cluster.state.pc == RevokeOld(ec.View(), token, grant, previous.value)
               else
                 cluster.state.pc.Idle? && cluster.state.wake == Some(cluster.state.clock + AfterMint(ec.spec, grant))
      modifies cluster`state, cluster`run
      ensures Valid() && cluster.state.pc.Idle?
      ensures cluster.state.wake == Some(cluster.state.clock + AfterMint(ec.spec, Grant(prov.name, now, expiresAt)))
      ensures previous.Some? && previous.value.provider == prov.name ==>
        RevokeCall(prov.name, previous.value) in cluster.state.revoked
    {
      if previousHandle.Some? && previousHandle.value.providerName == prov.name {
        cluster.RevokeWith(prov.name, previousHandle.value);
      }
    }

    /** Revokes the last credential, deletes the Secret, lets the object go. */
    method ReconcileDelete(ec: Object) returns (result: Result)
      requires Valid() && ec.deleting && cluster.state.wake.None? && ec.Annotated(cluster.codec)
      requires cluster.state.pc == FirstPc(cluster.cfg, ec.View())
      modifies cluster`state, cluster`run, ec
      ensures Valid() && Ended(result) && !result.Again?
      ensures result.NoFurtherCall? <==> !old(ec.finalizer) || cluster.Succeeded(true)
    {
      if !ec.finalizer {
        return NoFurtherCall;
      }
      var prov := registry.Get(ec.spec.provider, cluster.cfg.providers);
      cluster.codec.AnnotationIsRead(ec.handle);
      var handle := cluster.codec.decode(ec.handleAnnotation);
      if prov.Some? && handle.Some? && handle.value.providerName == prov.value.name {
        cluster.RevokeWith(prov.value.name, handle.value);
      }
      var ok := cluster.DeleteTargetSecret();
      if !ok {
        return Retry;
      }
      ec.finalizer := false;
      ok := cluster.Update(ec);
      result := if ok then NoFurtherCall else Retry;
    }

    /** Records a failed attempt: as Expiring while the credential on record is valid,
        and otherwise as Failed, removing what may be left in the Secret. If that could be
        recorded, and trying again is pointless, no further call is asked for. */
    method FailStatus(ec: Object, reason: Reason, retryable: bool) returns (result: Result)
      requires Valid() && cluster.state.pc == Failing(ec.View(), reason) && cluster.state.wake.None?
      requires ec.Annotated(cluster.codec)
      modifies cluster`state, cluster`run, ec
      ensures Valid() && Ended(result) && !result.Again?
      ensures cluster.Succeeded(true) || cluster.Succeeded(false)
      ensures result.NoFurtherCall? <==> !retryable && cluster.Succeeded(true)
    {
      var now := cluster.Now();
      var stillValid := ec.status.expiresAt.Some? && now < ec.status.expiresAt.value;
      if stillValid {
        ec.status := ec.status.(state := Expiring);
        ec.SetReadyCondition(true, RotationFailed);
      } else {
        if ec.status.expiresAt.Some? {
          var _ := cluster.DeleteTargetSecret();
        }
        ec.status := ec.status.(state := Failed);
        ec.SetReadyCondition(false, reason);
      }
      var ok := cluster.UpdateStatus(ec);
      result := if ok && !retryable then NoFurtherCall else Retry;
    }
  }
}
