/** How often the controller mints: whatever the spec asks for, the mints of a whole
    life are bounded by what provoked them and by the time that passed. */
module MintRate {
  import opened Api
  import opened Schedule
  import opened Machine
  import opened Invariants
  import opened Tally

  /** What the account is kept against: every grant lasts at least `lifetime`, and
      the life began at `start`. */
  datatype Terms = Terms(lifetime: Time, unit: nat, start: Time) {
    /** Twice the least time between a mint and the rotation that follows it. */
    function Gap(): Time {
      lifetime - 2 * (unit - 1)
    }

    ghost predicate Valid() {
      unit > 0 && Gap() > 0
    }

    /** The time passed up to `t` pays for `n` rotations. */
    ghost predicate Pays(n: int, t: Time) {
      Gap() * n <= 2 * (t - start)
    }

    lemma PaysNothing(n: int, t: Time)
      requires Valid() && n <= 0 && start <= t
      ensures Pays(n, t)
    {
      assert Gap() * -n >= 0;
    }

    lemma PaysLess(n: int, t: Time, n': int, t': Time)
      requires Valid() && Pays(n, t) && n' <= n && t <= t'
      ensures Pays(n', t')
    {
      assert Gap() * (n - n') >= 0;
    }

    lemma PaysOneMore(n: int, t: Time, t': Time)
      requires Valid() && Pays(n, t) && Gap() <= 2 * (t' - t)
      ensures Pays(n + 1, t')
    {
      assert Gap() * (n + 1) == Gap() * n + Gap();
    }
  }

  /** How often things happened: landings, deletions of the Secret, edits, interruptions. */
  datatype Tallies = Tallies(landings: nat, deletions: nat, edits: nat, interruptions: nat)

  function Next(cfg: Config, s: State, e: Event, n: Tallies): Tallies {
    Tallies(n.landings + Once(cfg, s, e, Landing), n.deletions + Once(cfg, s, e, SecretDeletion),
            n.edits + Once(cfg, s, e, SpecEdit), n.interruptions + Once(cfg, s, e, Interruption))
  }

  function One(b: bool): nat {
    if b then 1 else 0
  }

  ghost predicate GrantsLast(s: State, lifetime: Time) {
    forall g :: g in s.minted ==> g.expiresAt - g.at >= lifetime
  }

  // ---------------------------------------------------------------- counts and times

  ghost predicate CountInv(s: State, n: Tallies) {
    && (s.ec.Some? && !s.ec.value.deleting ==> s.ec.value.generation == 1 + n.edits)
    && (s.ec.Some? ==> 1 <= s.ec.value.generation)
    && (LivePath(s.pc) ==> 1 <= s.pc.view.generation <= 1 + n.edits)
    && |s.minted| <= n.landings + n.interruptions + One(InHand(s.pc))
    && (s.ec.Some? && s.described.None? ==> n.landings == 0)
  }

  lemma CountMoved(cfg: Config, s: State, e: Event, n: Tallies)
    requires cfg.Valid() && ViewInv(cfg, s) && CountInv(s, n) && Enabled(s, e) && e.Return? && Moves(s.pc)
    ensures CountInv(Apply(cfg, s, e), Next(cfg, s, e, n))
  {
  }

  lemma CountUnmoved(cfg: Config, s: State, e: Event, n: Tallies)
    requires cfg.Valid() && ViewInv(cfg, s) && CountInv(s, n) && Enabled(s, e) && e.Return? && !Moves(s.pc)
    ensures CountInv(Apply(cfg, s, e), Next(cfg, s, e, n))
  {
  }

  lemma CountStep(cfg: Config, s: State, e: Event, n: Tallies)
    requires cfg.Valid() && ViewInv(cfg, s) && CountInv(s, n) && Enabled(s, e)
    ensures CountInv(Apply(cfg, s, e), Next(cfg, s, e, n))
  {
    if e.Return? {
      if Moves(s.pc) {
        CountMoved(cfg, s, e, n);
      } else {
        CountUnmoved(cfg, s, e, n);
      }
    }
  }

  /** Mints fall between the start of the life and now. */
  ghost predicate TimeInv(terms: Terms, s: State) {
    && terms.start <= s.clock
    && (forall g :: g in s.minted ==> terms.start <= g.at <= s.clock)
    && (s.pc.CheckSecret? || s.pc.BuildScope? || s.pc.Mint? ==>
          terms.start <= s.pc.now <= s.clock && forall g :: g in s.minted ==> g.at <= s.pc.now)
  }

  lemma TimeMint(cfg: Config, terms: Terms, s: State, e: Event)
    requires cfg.Valid() && TimeInv(terms, s) && Enabled(s, e) && e.Return? && s.pc.Mint?
    ensures TimeInv(terms, Apply(cfg, s, e))
  {
  }

  lemma TimeStep(cfg: Config, terms: Terms, s: State, e: Event)
    requires cfg.Valid() && TimeInv(terms, s) && Enabled(s, e)
    ensures TimeInv(terms, Apply(cfg, s, e))
  {
    if e.Return? && s.pc.Mint? {
      TimeMint(cfg, terms, s, e);
    }
  }

  // ---------------------------------------------------------------- the account

  /** The Secret is gone although, by the status, it should hold a valid credential. */
  ghost predicate Missing(s: State, t: Time) {
    s.secret.None? && s.ec.Some? && s.ec.value.status.expiresAt.Some? && t < s.ec.value.status.expiresAt.value
  }

  /** When the credential that the status tells of was minted. */
  ghost function MintedAt(s: State): Time
    requires s.described.Some? && s.described.value < |s.minted|
  {
    s.minted[s.described.value].at
  }

  /** Time has paid for all landings that no edit and no deletion of the Secret
      accounts for. */
  ghost predicate Paid(terms: Terms, s: State, n: Tallies) {
    && terms.Pays(n.landings - 1 - n.edits - n.deletions, s.clock)
    && (s.ec.Some? && BeforeDeletion(s) && s.described.Some? && s.described.value < |s.minted| ==>
          terms.Pays(n.landings + One(Missing(s, s.clock)) - s.ec.value.status.observedGeneration - n.deletions,
                     MintedAt(s)))
  }

  /** The running attempt heads for another landing. */
  ghost predicate Heading(s: State) {
    (s.pc.CheckSecret? && s.secret.None?) || s.pc.BuildScope? || s.pc.Mint? || InHand(s.pc)
  }

  /** What must have been paid for then, and by when. */
  ghost function Needed(s: State, n: Tallies): int
    requires Heading(s)
  {
    n.landings + 1 + One((s.pc.WriteHandle? || s.pc.WriteStatus?) && s.secret.None?)
    - s.pc.view.generation - n.deletions
  }

  ghost function NeededAt(s: State): Time
    requires Heading(s)
  {
    if InHand(s.pc) then s.pc.grant.at else s.pc.now
  }

  ghost predicate Prepaid(terms: Terms, s: State, n: Tallies) {
    Heading(s) ==> terms.Pays(Needed(s, n), NeededAt(s))
  }

  ghost predicate RateInv(terms: Terms, s: State, n: Tallies) {
    CountInv(s, n) && TimeInv(terms, s) && Paid(terms, s, n) && Prepaid(terms, s, n)
  }

  // ---------------------------------------------------------------- one step

  predicate Lands(s: State, e: Event) {
    s.pc.WriteStatus? && e.Return? && !e.outcome.Refused?
  }

  /** The part of a state that the second clause of `Paid` speaks about. */
  ghost predicate Described(s: State) {
    s.ec.Some? && BeforeDeletion(s) && s.described.Some? && s.described.value < |s.minted|
  }

  /** `s'` has the status of `s`, telling of the same mint. */
  ghost predicate SameAccount(s: State, s': State) {
    && s.clock <= s'.clock
    && (Described(s') ==>
          && Described(s) && MintedAt(s') == MintedAt(s)
          && s'.ec.value.status.observedGeneration == s.ec.value.status.observedGeneration
          && s'.ec.value.status.expiresAt == s.ec.value.status.expiresAt)
  }

  lemma AccountReturn(cfg: Config, s: State, e: Event)
    requires cfg.Valid() && ViewInv(cfg, s) && Known(s, s.described) && Enabled(s, e) && !Lands(s, e) && e.Return?
    ensures SameAccount(s, Apply(cfg, s, e))
  {
  }

  /** But for a landing, the status goes on to tell of the same mint. */
  lemma AccountKept(cfg: Config, s: State, e: Event)
    requires cfg.Valid() && ViewInv(cfg, s) && Known(s, s.described) && Enabled(s, e) && !Lands(s, e)
    ensures SameAccount(s, Apply(cfg, s, e))
  {
    if e.Return? {
      AccountReturn(cfg, s, e);
    }
  }

  /** Only a third party makes a Secret missing that should be there: the controller
      drops one before deletion only when it has expired. */
  lemma LossIsForeign(cfg: Config, s: State, e: Event)
    requires cfg.Valid() && ViewInv(cfg, s) && LifecycleInv(s) && Enabled(s, e) && BeforeDeletion(Apply(cfg, s, e))
    requires Apply(cfg, s, e).secret.None? && s.secret.Some? && !e.DeleteSecret?
    ensures s.ec.Some? && s.ec.value.status.expiresAt.Some? && s.ec.value.status.expiresAt.value <= s.clock
  {
  }

  /** A Secret is newly missing only by a deletion that is counted. */
  lemma MissingCounted(cfg: Config, s: State, e: Event)
    requires cfg.Valid() && ViewInv(cfg, s) && LifecycleInv(s) && Enabled(s, e)
    requires SameAccount(s, Apply(cfg, s, e)) && Described(Apply(cfg, s, e))
    ensures var s' := Apply(cfg, s, e);
            One(Missing(s', s'.clock)) <= One(Missing(s, s.clock)) + Once(cfg, s, e, SecretDeletion)
  {
    var s' := Apply(cfg, s, e);
    if s'.secret.None? && s.secret.Some? && !e.DeleteSecret? {
      LossIsForeign(cfg, s, e);
    }
  }

  lemma PaidStep(cfg: Config, terms: Terms, s: State, e: Event, n: Tallies)
    requires cfg.Valid() && terms.Valid() && Inv(cfg, s) && Paid(terms, s, n) && Enabled(s, e) && !Lands(s, e)
    ensures Paid(terms, Apply(cfg, s, e), Next(cfg, s, e, n))
  {
    var s', n' := Apply(cfg, s, e), Next(cfg, s, e, n);
    AccountKept(cfg, s, e);
    if Described(s') {
      MissingCounted(cfg, s, e);
    }
    PaidOn(terms, s, s', n, n');
  }

  /** What was paid for stays so, when nothing lands and every loss is counted. */
  lemma PaidOn(terms: Terms, s: State, s': State, n: Tallies, n': Tallies)
    requires terms.Valid() && Paid(terms, s, n) && SameAccount(s, s')
    requires n'.landings == n.landings && n'.edits >= n.edits && n'.deletions >= n.deletions
    requires Described(s') ==>
      One(Missing(s', s'.clock)) <= One(Missing(s, s.clock)) + n'.deletions - n.deletions
    ensures Paid(terms, s', n')
  {
    terms.PaysLess(n.landings - 1 - n.edits - n.deletions, s.clock,
                   n'.landings - 1 - n'.edits - n'.deletions, s'.clock);
    if Described(s') {
      var observed := s.ec.value.status.observedGeneration;
      terms.PaysLess(n.landings + One(Missing(s, s.clock)) - observed - n.deletions, MintedAt(s),
                     n'.landings + One(Missing(s', s'.clock)) - observed - n'.deletions, MintedAt(s'));
    }
  }

  /** An attempt that heads for a landing was heading for it before, unless it has
      just decided to, or just lost the Secret it is about to look for. */
  lemma HeadingKept(cfg: Config, s: State, e: Event, n: Tallies)
    requires cfg.Valid() && ViewInv(cfg, s) && Enabled(s, e) && !Lands(s, e)
    ensures var s' := Apply(cfg, s, e);
            Heading(s') ==>
              || (s.pc.Decide? && e.ReadClock?)
              || (s.pc.CheckSecret? && e.DeleteSecret?)
              || (Heading(s) && Needed(s', Next(cfg, s, e, n)) <= Needed(s, n) && NeededAt(s') == NeededAt(s))
  {
    if e.Return? {
      HeadingReturned(cfg, s, e, n);
    }
  }

  lemma HeadingReturned(cfg: Config, s: State, e: Event, n: Tallies)
    requires cfg.Valid() && ViewInv(cfg, s) && Enabled(s, e) && !Lands(s, e) && e.Return?
    ensures var s' := Apply(cfg, s, e);
            Heading(s') ==>
              Heading(s) && Needed(s', Next(cfg, s, e, n)) <= Needed(s, n) && NeededAt(s') == NeededAt(s)
  {
  }

  /** Each reason for which `NeedsMint` holds, and a missing Secret, is paid for. */
  lemma DecisionIsPaid(cfg: Config, terms: Terms, s: State, n: Tallies)
    requires cfg.Valid() && terms.Valid() && terms.unit == cfg.unit
    requires Inv(cfg, s) && RateInv(terms, s, n) && GrantsLast(s, terms.lifetime) && s.pc.Decide?
    requires NeedsMint(s.pc.view, s.clock) || s.secret.None?
    ensures terms.Pays(n.landings + 1 - s.pc.view.generation - n.deletions, s.clock)
  {
    var view := s.pc.view;
    var needed := n.landings + 1 - view.generation - n.deletions;
    if view.status.expiresAt.None? {
      terms.PaysNothing(needed, s.clock);
    } else {
      var observed, grant := view.status.observedGeneration, s.minted[s.described.value];
      var paid := n.landings + One(Missing(s, s.clock)) - observed - n.deletions;
      assert terms.Pays(paid, MintedAt(s));
      if view.generation == observed && NeedsMint(view, s.clock) {
        RotationGap(cfg.unit, view, grant.at, grant.expiresAt, s.clock);
        terms.PaysOneMore(paid, MintedAt(s), s.clock);
        terms.PaysLess(paid + 1, s.clock, needed, s.clock);
      } else {
        terms.PaysLess(paid, MintedAt(s), needed, s.clock);
      }
    }
  }

  lemma PrepaidStep(cfg: Config, terms: Terms, s: State, e: Event, n: Tallies)
    requires cfg.Valid() && terms.Valid() && terms.unit == cfg.unit
    requires Inv(cfg, s) && RateInv(terms, s, n) && GrantsLast(s, terms.lifetime) && Enabled(s, e) && !Lands(s, e)
    ensures Prepaid(terms, Apply(cfg, s, e), Next(cfg, s, e, n))
  {
    var s', n' := Apply(cfg, s, e), Next(cfg, s, e, n);
    HeadingKept(cfg, s, e, n);
    if Heading(s') {
      if s.pc.Decide? && e.ReadClock? {
        DecisionIsPaid(cfg, terms, s, n);
      } else if s.pc.CheckSecret? && e.DeleteSecret? {
        LossIsPaid(cfg, terms, s, n);
      } else {
        terms.PaysLess(Needed(s, n), NeededAt(s), Needed(s', n'), NeededAt(s'));
      }
    }
  }

  /** The deletion of the Secret itself pays for the mint that restores it. */
  lemma LossIsPaid(cfg: Config, terms: Terms, s: State, n: Tallies)
    requires cfg.Valid() && terms.Valid() && Inv(cfg, s) && RateInv(terms, s, n)
    requires s.pc.CheckSecret? && s.secret.Some?
    ensures terms.Pays(n.landings - s.pc.view.generation - n.deletions, s.pc.now)
  {
    var needed := n.landings - s.pc.view.generation - n.deletions;
    if s.described.None? {
      terms.PaysNothing(needed, s.pc.now);
    } else {
      terms.PaysLess(n.landings - s.ec.value.status.observedGeneration - n.deletions, MintedAt(s),
                     needed, s.pc.now);
    }
  }

  /** What the status tells once it is written. */
  lemma Landed(cfg: Config, s: State, outcome: Outcome, expiresAt: Time)
    requires cfg.Valid() && Inv(cfg, s) && s.pc.WriteStatus? && !outcome.Refused?
    requires Enabled(s, Return(outcome, expiresAt))
    ensures var s' := Returned(cfg, s, outcome, expiresAt);
            && s'.clock == s.clock && s'.secret == s.secret && !Heading(s')
            && s.pc.grant.at <= s.clock
            && Described(s') && MintedAt(s') == s.pc.grant.at
            && s'.ec.value.status.observedGeneration == s.pc.view.generation
  {
    assert s.minted[s.pc.token] in s.minted;
  }

  lemma LandingStep(cfg: Config, terms: Terms, s: State, e: Event, n: Tallies)
    requires cfg.Valid() && terms.Valid() && Inv(cfg, s) && RateInv(terms, s, n) && Enabled(s, e) && Lands(s, e)
    ensures Paid(terms, Apply(cfg, s, e), Next(cfg, s, e, n))
    ensures Prepaid(terms, Apply(cfg, s, e), Next(cfg, s, e, n))
  {
    var s', n' := Apply(cfg, s, e), Next(cfg, s, e, n);
    Landed(cfg, s, e.outcome, e.expiresAt);
    terms.PaysLess(Needed(s, n), s.pc.grant.at, n'.landings - 1 - n'.edits - n'.deletions, s'.clock);
    terms.PaysLess(Needed(s, n), s.pc.grant.at,
                   n'.landings + One(Missing(s', s'.clock)) - s.pc.view.generation - n'.deletions, s.pc.grant.at);
  }

  lemma RateStep(cfg: Config, terms: Terms, s: State, e: Event, n: Tallies)
    requires cfg.Valid() && terms.Valid() && terms.unit == cfg.unit
    requires Inv(cfg, s) && RateInv(terms, s, n) && GrantsLast(s, terms.lifetime) && Enabled(s, e)
    ensures RateInv(terms, Apply(cfg, s, e), Next(cfg, s, e, n))
  {
    CountStep(cfg, s, e, n);
    TimeStep(cfg, terms, s, e);
    if Lands(s, e) {
      LandingStep(cfg, terms, s, e, n);
    } else {
      PaidStep(cfg, terms, s, e, n);
      PrepaidStep(cfg, terms, s, e, n);
    }
  }

  // ---------------------------------------------------------------- whole lives

  ghost function TalliesOf(cfg: Config, run: Run): Tallies
    requires cfg.Valid() && run.Valid(cfg)
  {
    Tallies(Count(cfg, run, Landing), Count(cfg, run, SecretDeletion),
            Count(cfg, run, SpecEdit), Count(cfg, run, Interruption))
  }

  /** The ledger only grows, so what holds of all grants held of them before. */
  lemma LedgerGrows(cfg: Config, s: State, e: Event, lifetime: Time)
    requires cfg.Valid() && Enabled(s, e)
    ensures s.minted <= Apply(cfg, s, e).minted
    ensures GrantsLast(Apply(cfg, s, e), lifetime) ==> GrantsLast(s, lifetime)
  {
    var s' := Apply(cfg, s, e);
    assert s.minted <= s'.minted;
    assert forall g :: g in s.minted ==> g in s'.minted;
  }

  lemma PaidAtFirst(cfg: Config, terms: Terms, s: State)
    requires cfg.Valid() && terms.Valid() && Fresh(s) && terms.start == s.clock
    ensures RateInv(terms, s, Tallies(0, 0, 0, 0))
  {
    terms.PaysNothing(-1, terms.start);
  }

  lemma {:induction false} AlwaysPaid(cfg: Config, terms: Terms, run: Run)
    requires Life(cfg, run) && terms.Valid() && terms.unit == cfg.unit && terms.start == run.First().clock
    requires GrantsLast(run.Last(cfg), terms.lifetime)
    ensures RateInv(terms, run.Last(cfg), TalliesOf(cfg, run))
  {
    match run
    case Start(s) =>
      PaidAtFirst(cfg, terms, s);
    case Then(before, e) =>
      var s := before.Last(cfg);
      assert run.Last(cfg) == Apply(cfg, s, e);
      LedgerGrows(cfg, s, e, terms.lifetime);
      AlwaysPaid(cfg, terms, before);
      Always(cfg, before);
      RateStep(cfg, terms, s, e, TalliesOf(cfg, before));
      assert TalliesOf(cfg, run) == Next(cfg, s, e, TalliesOf(cfg, before));
  }

  /** If every credential is granted for at least `lifetime`, the number of mints is
      at most one, plus the spec edits, the deletions of the Secret by third parties
      and the interrupted attempts, plus one for each half lifetime that passed, less
      what truncation of the status times can take away: strictly less than one
      unit of that half. The spec's own numbers do not matter. */
  lemma MintRateBound(cfg: Config, run: Run, lifetime: Time)
    requires Life(cfg, run) && GrantsLast(run.Last(cfg), lifetime)
    requires lifetime > 2 * (cfg.unit - 1)
    ensures var elapsed, gap := run.Last(cfg).clock - run.First().clock, lifetime - 2 * (cfg.unit - 1);
            |run.Last(cfg).minted| <=
              1 + Count(cfg, run, SpecEdit) + Count(cfg, run, SecretDeletion) + Count(cfg, run, Interruption)
              + 2 * elapsed / gap
  {
    var terms := Terms(lifetime, cfg.unit, run.First().clock);
    ExcessBounded(cfg, terms, run);
  }

  /** The mints that only the passing of time accounts for. */
  ghost function Excess(cfg: Config, run: Run): int
    requires cfg.Valid() && run.Valid(cfg)
  {
    |run.Last(cfg).minted| - 1 - Count(cfg, run, SpecEdit) - Count(cfg, run, SecretDeletion)
    - Count(cfg, run, Interruption)
  }

  lemma ExcessBounded(cfg: Config, terms: Terms, run: Run)
    requires Life(cfg, run) && terms.Valid() && terms.unit == cfg.unit && terms.start == run.First().clock
    requires GrantsLast(run.Last(cfg), terms.lifetime)
    ensures Excess(cfg, run) <= 2 * (run.Last(cfg).clock - terms.start) / terms.Gap()
  {
    AllPaid(cfg, terms, run);
    QuotientBound(terms.Gap(), Excess(cfg, run), 2 * (run.Last(cfg).clock - terms.start));
  }

  lemma AllPaid(cfg: Config, terms: Terms, run: Run)
    requires Life(cfg, run) && terms.Valid() && terms.unit == cfg.unit && terms.start == run.First().clock
    requires GrantsLast(run.Last(cfg), terms.lifetime)
    ensures terms.Pays(Excess(cfg, run), run.Last(cfg).clock)
  {
    AlwaysPaid(cfg, terms, run);
    Always(cfg, run);
    MintsPaid(cfg, terms, run.Last(cfg), TalliesOf(cfg, run));
  }

  lemma MintsPaid(cfg: Config, terms: Terms, s: State, n: Tallies)
    requires cfg.Valid() && terms.Valid() && Inv(cfg, s) && RateInv(terms, s, n)
    ensures terms.Pays(|s.minted| - 1 - n.edits - n.deletions - n.interruptions, s.clock)
  {
    var excess := |s.minted| - 1 - n.edits - n.deletions - n.interruptions;
    if InHand(s.pc) {
      assert s.pc.grant in s.minted;
      terms.PaysLess(Needed(s, n), NeededAt(s), excess, s.clock);
    } else {
      terms.PaysLess(n.landings - 1 - n.edits - n.deletions, s.clock, excess, s.clock);
    }
  }

  lemma QuotientBound(d: int, n: int, m: int)
    requires d > 0 && d * n <= m
    ensures n <= m / d
  {
    if n > m / d {
      BeyondQuotient(d, m / d, n);
    }
  }

  lemma BeyondQuotient(d: int, q: int, n: int)
    requires d > 0 && q < n
    ensures d * q + d <= d * n
  {
    MultiplesOrdered(d, q + 1, n);
  }
}
