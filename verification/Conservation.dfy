/** No credential is lost: every one that was minted has been handed to Revoke, is on
    record in the handle, or is accounted for by an interruption. */
module Conservation {
  import opened Api
  import opened Machine
  import opened Invariants
  import opened Tally
  import opened Safety

  ghost function RevokedTokens(calls: seq<RevokeCall>): set<Token> {
    set call | call in calls :: call.handle.token
  }

  ghost function HandleTokens(s: State): set<Token> {
    if HandleToken(s).Some? then {HandleToken(s).value} else {}
  }

  ghost function AllTokens(n: nat): (r: set<Token>)
    ensures |r| == n && forall t: Token :: t in r <==> t < n
  {
    if n == 0 then {} else AllTokens(n - 1) + {n - 1}
  }

  /** Minted, neither revoked nor on record. */
  ghost function Orphans(s: State): set<Token> {
    AllTokens(|s.minted|) - RevokedTokens(s.revoked) - HandleTokens(s)
  }

  /** The running attempt still owes one credential its record or its revocation. */
  function Owed(pc: Pc): nat {
    if pc.WriteSecret? || pc.WriteHandle? || pc.RevokeOld? || (pc.WriteStatus? && pc.previous.Some?) then 1
    else 0
  }

  // ---------------------------------------------------------------- finite sets

  lemma Appended(calls: seq<RevokeCall>, call: RevokeCall)
    ensures RevokedTokens(calls + [call]) == RevokedTokens(calls) + {call.handle.token}
  {
    assert call in calls + [call];
    assert forall c :: c in calls ==> c in calls + [call];
  }

  /** Revoked in increasing order, none was revoked twice. */
  lemma {:induction false} IncreasingCount(calls: seq<RevokeCall>)
    requires Increasing(calls)
    ensures |RevokedTokens(calls)| == |calls|
  {
    if calls != [] {
      var front, last := calls[..|calls| - 1], calls[|calls| - 1];
      assert calls == front + [last];
      IncreasingCount(front);
      Appended(front, last);
      assert last.handle.token !in RevokedTokens(front);
    }
  }

  /** The tokens that need no further attention. */
  ghost function Settled(s: State): set<Token> {
    RevokedTokens(s.revoked) + HandleTokens(s)
  }

  // ---------------------------------------------------------------- one step

  /** A step that moves no credential changes the account only by an interruption, or
      by the removal of an object whose handle cannot be revoked. */
  lemma QuietBalance(cfg: Config, s: State, e: Event)
    requires cfg.Valid() && Inv(cfg, s) && Enabled(s, e) && !(e.Return? && Moves(s.pc))
    ensures var s' := Apply(cfg, s, e);
            |Settled(s)| + Owed(s.pc) <= |Settled(s')| + Owed(s'.pc)
              + Once(cfg, s, e, Interruption) + Once(cfg, s, e, Abandonment)
  {
    var s' := Apply(cfg, s, e);
    QuietOwes(cfg, s, e);
    if s'.ec.None? && HandleToken(s).Some? {
      EndBalance(cfg, s, e);
    } else {
      QuietStep(cfg, s, e);
      SettledKept(s, s');
    }
  }

  lemma SettledKept(s: State, s': State)
    requires Quiet(s, s') && (s'.ec.None? ==> HandleToken(s).None?)
    ensures Settled(s') == Settled(s)
  {
  }

  lemma EndBalance(cfg: Config, s: State, e: Event)
    requires cfg.Valid() && Inv(cfg, s) && Enabled(s, e)
    requires Apply(cfg, s, e).ec.None? && HandleToken(s).Some?
    ensures |Settled(s)| <= |Settled(Apply(cfg, s, e))| + Once(cfg, s, e, Abandonment)
  {
    RemovesOnlyAtTheEnd(cfg, s, e);
    RemovalBalance(cfg, s, Apply(cfg, s, e));
  }

  /** Removing the object loses its handle, unless that has been revoked. */
  lemma RemovalBalance(cfg: Config, s: State, s': State)
    requires s.pc.RemoveFinalizer? && LastRevoked(cfg, s, s.pc.view)
    requires s.ec == Some(s.pc.view) && HandleToken(s).Some?
    requires s'.ec.None? && s'.revoked == s.revoked
    ensures |Settled(s)| <= |Settled(s')| + if cfg.CanRevoke(s.pc.view.spec, s.pc.view.handle) then 0 else 1
  {
    var h := s.ec.value.handle.value;
    if cfg.CanRevoke(s.ec.value.spec, s.ec.value.handle) {
      assert RevokeCall(h.provider, h) in s.revoked;
      assert Settled(s) == Settled(s');
    } else {
      assert Settled(s) == Settled(s') + {h.token};
    }
  }

  lemma QuietOwes(cfg: Config, s: State, e: Event)
    requires cfg.Valid() && Enabled(s, e) && !(e.Return? && Moves(s.pc))
    ensures Owed(s.pc) <= Owed(Apply(cfg, s, e).pc) + Once(cfg, s, e, Interruption)
  {
  }

  /** A mint adds a credential, which is then owed or, if the answer is lost, gone. */
  lemma MintBalance(cfg: Config, s: State, outcome: Outcome, expiresAt: Time)
    requires cfg.Valid() && Inv(cfg, s) && (s.pc.Mint? || s.pc.WriteSecret?)
    requires Enabled(s, Return(outcome, expiresAt))
    ensures var e, s' := Return(outcome, expiresAt), Returned(cfg, s, outcome, expiresAt);
            && Settled(s') == Settled(s)
            && |s'.minted| + Owed(s.pc) <= |s.minted| + Owed(s'.pc) + Once(cfg, s, e, Interruption)
  {
  }

  /** What recording the new handle changes. */
  lemma HandleRecorded(cfg: Config, s: State, outcome: Outcome, expiresAt: Time)
    requires cfg.Valid() && ViewInv(cfg, s) && s.pc.WriteHandle? && Enabled(s, Return(outcome, expiresAt))
    ensures var s' := Returned(cfg, s, outcome, expiresAt);
            && s'.minted == s.minted && s'.revoked == s.revoked
            && HandleTokens(s') == (if outcome.Refused? then HandleTokens(s) else {s.pc.token})
            && Owed(s'.pc) == (if outcome.Done? then |HandleTokens(s)| else 0)
  {
  }

  /** Recording the new handle exchanges it for the previous one, which is then owed. */
  lemma HandleBalance(cfg: Config, s: State, outcome: Outcome, expiresAt: Time)
    requires cfg.Valid() && ViewInv(cfg, s) && RecordInv(s) && s.pc.WriteHandle?
    requires Enabled(s, Return(outcome, expiresAt))
    ensures var e, s' := Return(outcome, expiresAt), Returned(cfg, s, outcome, expiresAt);
            && s'.minted == s.minted
            && |Settled(s)| + Owed(s.pc) <= |Settled(s')| + Owed(s'.pc) + Once(cfg, s, e, Interruption)
  {
    HandleRecorded(cfg, s, outcome, expiresAt);
    var revoked := RevokedTokens(s.revoked);
    assert s.pc.token !in revoked by {
      assert RevokedOlder(s, s.described);
    }
    assert |revoked + {s.pc.token}| == |revoked| + 1;
    assert |Settled(s)| <= |revoked| + |HandleTokens(s)|;
  }

  /** Writing the status keeps the account, or abandons a handle of another provider. */
  lemma StatusBalance(cfg: Config, s: State, outcome: Outcome, expiresAt: Time)
    requires cfg.Valid() && Inv(cfg, s) && s.pc.WriteStatus?
    requires Enabled(s, Return(outcome, expiresAt))
    ensures var e, s' := Return(outcome, expiresAt), Returned(cfg, s, outcome, expiresAt);
            && s'.minted == s.minted && Settled(s') == Settled(s)
            && Owed(s.pc) <= Owed(s'.pc) + Once(cfg, s, e, Interruption) + Once(cfg, s, e, Abandonment)
  {
  }

  /** A Revoke call settles what was owed. */
  lemma RevokeBalance(cfg: Config, s: State, outcome: Outcome, expiresAt: Time)
    requires cfg.Valid() && OrderInv(s) && RevokeInv(s) && s.pc.RevokeOld?
    ensures var s' := Returned(cfg, s, outcome, expiresAt);
            s'.minted == s.minted && |Settled(s)| + Owed(s.pc) <= |Settled(s')| + Owed(s'.pc)
  {
    var s' := Returned(cfg, s, outcome, expiresAt);
    Appended(s.revoked, RevokeCall(s.pc.grant.provider, s.pc.target));
    assert s.pc.target.token !in Settled(s);
    assert Settled(s') == Settled(s) + {s.pc.target.token};
  }

  /** The last one is of the credential on record. */
  lemma LastRevokeBalance(cfg: Config, s: State, outcome: Outcome, expiresAt: Time)
    requires cfg.Valid() && ViewInv(cfg, s) && ProviderInv(cfg, s) && s.pc.RevokeLast?
    ensures var s' := Returned(cfg, s, outcome, expiresAt);
            s'.minted == s.minted && |Settled(s)| + Owed(s.pc) <= |Settled(s')| + Owed(s'.pc)
  {
    var s' := Returned(cfg, s, outcome, expiresAt);
    Appended(s.revoked, RevokeCall(s.pc.prov.name, s.pc.target));
    assert Settled(s') == Settled(s);
  }

  lemma StepBalance(cfg: Config, s: State, e: Event)
    requires cfg.Valid() && Inv(cfg, s) && Enabled(s, e)
    ensures var s' := Apply(cfg, s, e);
            |s'.minted| - |s.minted| + |Settled(s)| + Owed(s.pc) <= |Settled(s')| + Owed(s'.pc)
              + Once(cfg, s, e, Interruption) + Once(cfg, s, e, Abandonment)
  {
    if e.Return? && Moves(s.pc) {
      if s.pc.Mint? || s.pc.WriteSecret? {
        MintBalance(cfg, s, e.outcome, e.expiresAt);
      } else if s.pc.WriteHandle? {
        HandleBalance(cfg, s, e.outcome, e.expiresAt);
      } else if s.pc.WriteStatus? {
        StatusBalance(cfg, s, e.outcome, e.expiresAt);
      } else if s.pc.RevokeOld? {
        RevokeBalance(cfg, s, e.outcome, e.expiresAt);
      } else {
        LastRevokeBalance(cfg, s, e.outcome, e.expiresAt);
      }
    } else {
      QuietStep(cfg, s, e);
      QuietBalance(cfg, s, e);
    }
  }

  // ---------------------------------------------------------------- whole lives

  ghost function Losses(cfg: Config, run: Run): nat
    requires cfg.Valid() && run.Valid(cfg)
  {
    Count(cfg, run, Interruption) + Count(cfg, run, Abandonment)
  }

  lemma {:induction false} Balance(cfg: Config, run: Run)
    requires Life(cfg, run)
    ensures var s := run.Last(cfg);
            |s.minted| <= |Settled(s)| + Owed(s.pc) + Losses(cfg, run)
  {
    if run.Then? {
      Balance(cfg, run.before);
      Always(cfg, run.before);
      StepBalance(cfg, run.before.Last(cfg), run.event);
    }
  }

  /** Before deletion the minted tokens are, without overlap, those handed to Revoke
      (each once, in mint order), the one on record, and the orphans; and there are
      no more orphans than interruptions and abandonments, besides one that the
      running attempt may still settle. */
  lemma TokenConservation(cfg: Config, run: Run)
    requires Life(cfg, run)
    requires run.Last(cfg).ec.Some? && !run.Last(cfg).ec.value.deleting
    ensures var s := run.Last(cfg);
            && AllTokens(|s.minted|) == RevokedTokens(s.revoked) + HandleTokens(s) + Orphans(s)
            && RevokedTokens(s.revoked) !! HandleTokens(s)
            && Increasing(s.revoked) && |RevokedTokens(s.revoked)| == |s.revoked|
            && |Orphans(s)| <= Owed(s.pc) + Count(cfg, run, Interruption) + Count(cfg, run, Abandonment)
  {
    var s := run.Last(cfg);
    Always(cfg, run);
    Balance(cfg, run);
    IncreasingCount(s.revoked);
    Partitioned(s);
  }

  /** What is revoked or on record was minted, and the orphans are the rest. */
  lemma Partitioned(s: State)
    requires LedgerInv(s) && RevokeInv(s)
    ensures AllTokens(|s.minted|) == RevokedTokens(s.revoked) + HandleTokens(s) + Orphans(s)
    ensures |Orphans(s)| == |s.minted| - |Settled(s)|
  {
    forall t | t in RevokedTokens(s.revoked) ensures t < |s.minted| {
      var call :| call in s.revoked && call.handle.token == t;
      assert Genuine(s, call.handle);
    }
    Rest(AllTokens(|s.minted|), RevokedTokens(s.revoked), HandleTokens(s));
  }

  lemma Rest(all: set<Token>, a: set<Token>, b: set<Token>)
    requires a <= all && b <= all
    ensures all == a + b + (all - a - b)
    ensures |all - a - b| == |all| - |a + b|
  {
    assert all - a - b == all - (a + b);
    assert all == (all - (a + b)) + (a + b);
  }

  /** With nothing interrupted or abandoned, between reconciles exactly the newest
      credential is outstanding, and all others were revoked, in mint order. */
  lemma SteadyState(cfg: Config, run: Run)
    requires Life(cfg, run) && Losses(cfg, run) == 0
    requires run.Last(cfg).ec.Some? && !run.Last(cfg).ec.value.deleting && run.Last(cfg).pc.Idle?
    requires run.Last(cfg).minted != []
    ensures var s, newest := run.Last(cfg), |run.Last(cfg).minted| - 1;
            && |s.revoked| == newest
            && (forall i :: 0 <= i < newest ==> s.revoked[i].handle.token == i)
            && s.ec.value.handle.Some? && s.ec.value.handle.value.token == newest
  {
    var s := run.Last(cfg);
    Always(cfg, run);
    Balance(cfg, run);
    IncreasingCount(s.revoked);
    var h := HandleToken(s);
    if h.Some? {
      assert |Settled(s)| <= |s.revoked| + 1;
      if s.revoked != [] {
        IncreasingBounds(s.revoked, |s.revoked| - 1);
        assert s.revoked[|s.revoked| - 1] in s.revoked;
      }
      forall i | 0 <= i < |s.revoked| ensures s.revoked[i].handle.token == i {
        IncreasingBounds(s.revoked, i);
      }
    }
  }

  /** An increasing sequence of naturals runs at least as fast as its index. */
  lemma {:induction false} IncreasingBounds(calls: seq<RevokeCall>, i: nat)
    requires Increasing(calls) && i < |calls|
    ensures i <= calls[i].handle.token
    ensures calls[i].handle.token + (|calls| - 1 - i) <= calls[|calls| - 1].handle.token
    decreases i
  {
    if i > 0 {
      IncreasingBounds(calls, i - 1);
    }
    var j := i;
    while j < |calls| - 1
      invariant i <= j < |calls|
      invariant calls[i].handle.token + (j - i) <= calls[j].handle.token
    {
      j := j + 1;
    }
  }

  /** Once the object is gone, all that was minted for it has been handed to Revoke,
      but for at most one credential per interruption or abandonment. */
  lemma NothingLeftBehind(cfg: Config, run: Run)
    requires Life(cfg, run) && run.Last(cfg).ec.None?
    ensures var s := run.Last(cfg);
            && s.secret.None?
            && |AllTokens(|s.minted|) - RevokedTokens(s.revoked)|
                 <= Count(cfg, run, Interruption) + Count(cfg, run, Abandonment)
  {
    var s := run.Last(cfg);
    Always(cfg, run);
    Balance(cfg, run);
    var revoked := RevokedTokens(s.revoked);
    assert Settled(s) == revoked;
    assert revoked <= AllTokens(|s.minted|);
    assert AllTokens(|s.minted|) == (AllTokens(|s.minted|) - revoked) + revoked;
  }
}
