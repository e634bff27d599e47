/** The protocol and the keys of the Secret together: a life of the machine in which
    each Secret write is the write of the minted outputs, key by key, and others edit
    the Secret in between. */
module SecretContents {
  import opened Api
  import opened Machine
  import opened Invariants
  import opened Safety
  import opened SecretKeys
  import Provenance

  type Data = map<string, Provenance.Bytes>

  /** What happens to the contents of the Secret when `e` happens in `s`: a Secret write
      that lands writes the outputs of its token, in the order of visiting `order`. */
  ghost function Effect(cfg: Config, outputs: Token -> Data, s: State, e: Event,
                        mapping: map<string, string>, order: seq<string>): Option<Provenance.Op>
    requires cfg.Valid() && Enabled(s, e)
  {
    if WritesInto(s, e) then Some(Provenance.MintInto(outputs(s.pc.token), mapping, order))
    else if s.secret.Some? && Apply(cfg, s, e).secret.None? then Some(Provenance.Vanish)
    else None
  }

  /** A write of the Secret lands. */
  predicate WritesInto(s: State, e: Event) {
    s.pc.WriteSecret? && e.Return? && !e.outcome.Refused?
  }

  /** A life of the object and of its Secret: steps of the machine, each with the key
      mapping in force and the order in which the runtime visits the outputs, and edits
      of the Secret by others. */
  datatype Story =
    | Opening(state: State)
    | Step(before: Story, event: Event, mapping: map<string, string>, order: seq<string>)
    | Meddling(before: Story, op: Provenance.Op)
  {
    ghost function Run(): Run {
      match this
      case Opening(s) => Start(s)
      case Step(before, e, _, _) => Then(before.Run(), e)
      case Meddling(before, _) => before.Run()
    }

    ghost predicate Valid(cfg: Config, outputs: Token -> Data)
      decreases this, 0
    {
      && Life(cfg, Run())
      && match this
         case Opening(_) => true
         case Step(before, e, mapping, order) =>
           && before.Valid(cfg, outputs)
           && var op := Effect(cfg, outputs, before.Run().Last(cfg), e, mapping, order);
              op.Some? ==> Provenance.Possible(before.Contents(cfg, outputs), op.value)
         case Meddling(before, op) =>
           && before.Valid(cfg, outputs) && Run().Last(cfg).secret.Some?
           && (op.Put? || op.Remove? || op.Annotate?)
           && Provenance.Possible(before.Contents(cfg, outputs), op)
    }

    ghost function Contents(cfg: Config, outputs: Token -> Data): Provenance.Contents
      requires Valid(cfg, outputs)
      decreases this, 1
    {
      match this
      case Opening(_) => Provenance.EMPTY
      case Step(before, e, mapping, order) =>
        var c := before.Contents(cfg, outputs);
        var op := Effect(cfg, outputs, before.Run().Last(cfg), e, mapping, order);
        if op.Some? then Provenance.Apply(c, op.value) else c
      case Meddling(before, op) => Provenance.Apply(before.Contents(cfg, outputs), op)
    }

    /** The tokens that were written into the Secret, in order. */
    ghost function Written(cfg: Config): seq<Token>
      requires Life(cfg, Run())
    {
      match this
      case Opening(_) => []
      case Step(before, e, _, _) =>
        var s := before.Run().Last(cfg);
        before.Written(cfg) + if WritesInto(s, e) then [s.pc.token] else []
      case Meddling(before, _) => before.Written(cfg)
    }
  }

  // ---------------------------------------------------------------- one step

  /** Tokens written so far are below this. */
  ghost function Bound(s: State): nat {
    if s.pc.WriteSecret? then s.pc.token else |s.minted|
  }

  /** What a step does to the Secret as the machine sees it. */
  lemma SecretStep(cfg: Config, s: State, e: Event)
    requires cfg.Valid() && LedgerInv(s) && Enabled(s, e)
    ensures var s' := Apply(cfg, s, e);
            && Bound(s) <= Bound(s')
            && if WritesInto(s, e) then s'.secret == Some(s.pc.token) && s.pc.token < Bound(s')
               else s'.secret.Some? ==> s'.secret == s.secret
  {
    if e.Return? {
      SecretReturn(cfg, s, e.outcome, e.expiresAt);
    }
  }

  lemma SecretReturn(cfg: Config, s: State, outcome: Outcome, expiresAt: Time)
    requires cfg.Valid() && LedgerInv(s)
    ensures var s' := Returned(cfg, s, outcome, expiresAt);
            && Bound(s) <= Bound(s')
            && if s.pc.WriteSecret? && !outcome.Refused? then s'.secret == Some(s.pc.token) && s.pc.token < Bound(s')
               else s'.secret.Some? ==> s'.secret == s.secret
  {
    if !s.pc.WriteSecret? && !s.pc.Mint? {
      SecretKept(cfg, s, outcome, expiresAt);
    }
  }

  lemma SecretKept(cfg: Config, s: State, outcome: Outcome, expiresAt: Time)
    requires cfg.Valid() && !s.pc.WriteSecret? && !s.pc.Mint?
    ensures var s' := Returned(cfg, s, outcome, expiresAt);
            s'.minted == s.minted && !s'.pc.WriteSecret? && (s'.secret.Some? ==> s'.secret == s.secret)
  {
  }

  // ---------------------------------------------------------------- the invariant

  /** `tokens` are in mint order and below `bound`. */
  ghost predicate InMintOrder(tokens: seq<Token>, bound: nat) {
    && (forall i, j :: 0 <= i < j < |tokens| ==> tokens[i] < tokens[j])
    && (forall i :: 0 <= i < |tokens| ==> tokens[i] < bound)
  }

  /** The contents are accounted for, and are those of the latest token written, which
      is the one that the machine sees in the Secret; without a Secret there are none. */
  ghost predicate Matches(outputs: Token -> Data, s: State, c: Provenance.Contents, written: seq<Token>) {
    && Provenance.Accounted(c) && c.mints == |written| && InMintOrder(written, Bound(s))
    && match s.secret
       case None => c.data == map[]
       case Some(t) => written != [] && written[|written| - 1] == t && c.latest == outputs(t)
  }

  /** A write of the outputs of a new token. */
  lemma MatchesWrite(outputs: Token -> Data, s: State, s': State, c: Provenance.Contents, written: seq<Token>,
                     op: Provenance.Op)
    requires Matches(outputs, s, c, written) && s.pc.WriteSecret?
    requires op.MintInto? && op.mint == outputs(s.pc.token) && Provenance.Possible(c, op)
    requires s'.secret == Some(s.pc.token) && s.pc.token < Bound(s')
    ensures Matches(outputs, s', Provenance.Apply(c, op), written + [s.pc.token])
  {
    Provenance.AccountedStep(c, op);
  }

  /** Any other step, with or without a change by others. */
  lemma MatchesRest(outputs: Token -> Data, s: State, s': State, c: Provenance.Contents, written: seq<Token>,
                    op: Option<Provenance.Op>)
    requires Matches(outputs, s, c, written) && Bound(s) <= Bound(s')
    requires op.Some? ==> !op.value.MintInto? && Provenance.Possible(c, op.value)
    requires if op.Some? && op.value.Vanish? then s'.secret.None? else s'.secret == s.secret
    requires op.Some? && !op.value.Vanish? ==> s.secret.Some?
    ensures Matches(outputs, s', if op.Some? then Provenance.Apply(c, op.value) else c, written)
  {
    if op.Some? {
      Provenance.AccountedStep(c, op.value);
    }
  }

  lemma MatchesStep(cfg: Config, outputs: Token -> Data, s: State, e: Event, mapping: map<string, string>,
                    order: seq<string>, c: Provenance.Contents, written: seq<Token>)
    requires cfg.Valid() && LedgerInv(s) && Enabled(s, e) && Matches(outputs, s, c, written)
    requires var op := Effect(cfg, outputs, s, e, mapping, order);
             op.Some? ==> Provenance.Possible(c, op.value)
    ensures var op := Effect(cfg, outputs, s, e, mapping, order);
            Matches(outputs, Apply(cfg, s, e), if op.Some? then Provenance.Apply(c, op.value) else c,
                    written + if WritesInto(s, e) then [s.pc.token] else [])
  {
    var op := Effect(cfg, outputs, s, e, mapping, order);
    SecretStep(cfg, s, e);
    if WritesInto(s, e) {
      MatchesWrite(outputs, s, Apply(cfg, s, e), c, written, op.value);
    } else {
      assert written + [] == written;
      MatchesRest(outputs, s, Apply(cfg, s, e), c, written, op);
    }
  }

  lemma {:induction false} AlwaysMatches(cfg: Config, outputs: Token -> Data, story: Story)
    requires story.Valid(cfg, outputs)
    ensures Matches(outputs, story.Run().Last(cfg), story.Contents(cfg, outputs), story.Written(cfg))
  {
    match story
    case Opening(_) =>
    case Step(before, e, mapping, order) =>
      AlwaysMatches(cfg, outputs, before);
      Always(cfg, before.Run());
      MatchesStep(cfg, outputs, before.Run().Last(cfg), e, mapping, order,
                  before.Contents(cfg, outputs), before.Written(cfg));
    case Meddling(before, op) =>
      var s := before.Run().Last(cfg);
      AlwaysMatches(cfg, outputs, before);
      MatchesRest(outputs, s, s, before.Contents(cfg, outputs), before.Written(cfg), Some(op));
  }

  // ---------------------------------------------------------------- what it means

  /** The value under `k` was written with token `t`: it is the output of `t` that the
      mapping in force sends there. */
  ghost predicate BelongsTo(outputs: Token -> Data, c: Provenance.Contents, written: seq<Token>, k: string, t: Token)
    requires k in c.data
  {
    && c.data[k].origin.Broker?
    && 0 < c.data[k].origin.mint <= |written| && written[c.data[k].origin.mint - 1] == t
    && exists l :: l in outputs(t) && TargetKey(c.mapping, l) == k && c.data[k].bytes == outputs(t)[l]
  }

  /** In every life, through crashes, lost writes, rotations, changes of the mapping and
      others' edits: no token is written twice, and tokens are written in mint order;
      all values of the broker in the Secret belong to the one token that the protocol
      takes to be there, under exactly the keys on the list; and all outputs of that
      token are there. Without a Secret there are no values. */
  lemma SecretHoldsItsToken(cfg: Config, outputs: Token -> Data, story: Story)
    requires story.Valid(cfg, outputs)
    ensures var s, c, written := story.Run().Last(cfg), story.Contents(cfg, outputs), story.Written(cfg);
            && (forall i, j :: 0 <= i < j < |written| ==> written[i] < written[j])
            && (forall k :: k in c.Managed() <==> k in c.data && c.data[k].origin.Broker?)
            && match s.secret
               case None => c.data == map[]
               case Some(t) =>
                 && (forall k :: k in c.Managed() ==> k in c.data && BelongsTo(outputs, c, written, k, t))
                 && (forall l :: l in outputs(t) ==> TargetKey(c.mapping, l) in c.Managed())
  {
    AlwaysMatches(cfg, outputs, story);
    var c, written := story.Contents(cfg, outputs), story.Written(cfg);
    forall k | k in c.data
      ensures k in c.Managed() ==> Provenance.FromLatest(c, k)
      ensures k !in c.Managed() ==> Provenance.FromOthers(c, k)
    {
    }
    forall k | k in c.Managed() ensures k in c.data {
      assert Provenance.FromLatest(c, k);
    }
  }

  /** So no key of a live object's Secret holds a value of a credential that was handed
      to Revoke, and once the object is gone no key holds anything. */
  lemma NoKeyHoldsRevoked(cfg: Config, outputs: Token -> Data, story: Story, k: string)
    requires story.Valid(cfg, outputs) && k in story.Contents(cfg, outputs).data
    ensures var s, c, written := story.Run().Last(cfg), story.Contents(cfg, outputs), story.Written(cfg);
            && s.ec.Some?
            && (c.data[k].origin.Broker? && !s.ec.value.deleting ==>
                  && 0 < c.data[k].origin.mint <= |written|
                  && !Revoked(s, written[c.data[k].origin.mint - 1]))
  {
    SecretHoldsItsToken(cfg, outputs, story);
    RevokesOnlySuperseded(cfg, story.Run());
    Always(cfg, story.Run());
  }
}
