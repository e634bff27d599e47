/** Counting what happens over a run. */
module Tally {
  import opened Machine
  import opened Invariants

  datatype Kind =
    | Interruption    // a mint attempt ends early with its credential, or the one before, unsettled
    | Abandonment     // a handle is dropped because the spec no longer names its provider
    | SpecEdit
    | SecretDeletion  // by a third party
    | Landing         // the status of a mint is persisted

  /** Whether event `e` in state `s` is one of kind `k`. */
  predicate Happens(cfg: Config, s: State, e: Event, k: Kind) {
    match k
    case Interruption =>
      || (s.pc.Mint? && e.Return? && e.outcome.Lost?)
      || (InHand(s.pc) && (e.Crash? || (e.Return? && !e.outcome.Done?)))
      || (s.pc.RevokeOld? && e.Crash?)
    case Abandonment =>
      || (s.pc.WriteStatus? && e.Return? && e.outcome.Done?
          && s.pc.previous.Some? && s.pc.previous.value.provider != s.pc.grant.provider)
      || (s.pc.RemoveFinalizer? && e.Return? && !e.outcome.Refused?
          && s.pc.view.handle.Some? && !cfg.CanRevoke(s.pc.view.spec, s.pc.view.handle))
    case SpecEdit => e.EditSpec?
    case SecretDeletion => e.DeleteSecret?
    case Landing => s.pc.WriteStatus? && e.Return? && !e.outcome.Refused?
  }

  function Once(cfg: Config, s: State, e: Event, k: Kind): nat {
    if Happens(cfg, s, e, k) then 1 else 0
  }

  /** How often events of the kind happened. */
  ghost function Count(cfg: Config, run: Run, k: Kind): nat
    requires cfg.Valid() && run.Valid(cfg)
  {
    match run
    case Start(_) => 0
    case Then(before, e) => Count(cfg, before, k) + Once(cfg, before.Last(cfg), e, k)
  }
}
