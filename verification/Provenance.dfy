/** Where every value in the target Secret came from, over any sequence of mints,
    changes of the key mapping, and edits by others. */
module Provenance {
  import opened KeyList
  import opened SecretKeys

  type Bytes = seq<int>

  datatype Origin = Broker(mint: nat) | Foreign

  /** A value with a mark, which no code looks at, of who made it. */
  datatype Value = Value(bytes: Bytes, origin: Origin)

  /** The Secret, and what should be in it: the output of the latest mint with the
      mapping in force then, and what others put there and the broker left alone. */
  datatype Contents = Contents(
    data: map<string, Value>,
    annotations: map<string, string>,
    mints: nat,
    latest: map<string, Bytes>,
    mapping: map<string, string>,
    foreign: map<string, Bytes>
  ) {
    function Managed(): seq<string> {
      ManagedKeys(annotations)
    }
  }

  const EMPTY := Contents(map[], map[], 0, map[], map[], map[])

  datatype Op =
    | MintInto(mint: map<string, Bytes>, mapping: map<string, string>, order: seq<string>)
    | Put(key: string, bytes: Bytes)
    | Remove(key: string)
    | Annotate(name: string, text: string)
    | Vanish  // the Secret is deleted, by whomever

  /** Others keep off the managed keys and their annotation; and the API server accepts
      no data key that is empty or contains a comma. */
  ghost predicate Possible(c: Contents, op: Op) {
    match op
    case MintInto(mint, mapping, order) =>
      && Enumerates(order, mint)
      && forall l :: l in mint ==> TargetKey(mapping, l) != "" && CommaFree(TargetKey(mapping, l))
    case Put(key, _) => key !in c.Managed()
    case Remove(key) => key !in c.Managed()
    case Annotate(name, _) => name != MANAGED_KEYS
    case Vanish => true
  }

  ghost function Tagged(mint: map<string, Bytes>, n: nat): map<string, Value> {
    map l | l in mint :: Value(mint[l], Broker(n))
  }

  ghost function Apply(c: Contents, op: Op): Contents
    requires Possible(c, op)
  {
    match op
    case MintInto(mint, mapping, order) =>
      var targets := Targets(mapping, order);
      Contents(
        FinalData(c.data, c.Managed(), mapping, Tagged(mint, c.mints + 1), order),
        c.annotations[MANAGED_KEYS := Join(Sort(targets))],
        c.mints + 1, mint, mapping,
        c.foreign - set k | k in targets)
    case Put(key, bytes) =>
      c.(data := c.data[key := Value(bytes, Foreign)], foreign := c.foreign[key := bytes])
    case Remove(key) => c.(data := c.data - {key}, foreign := c.foreign - {key})
    case Annotate(name, text) => c.(annotations := c.annotations[name := text])
    case Vanish => c.(data := map[], annotations := map[], latest := map[], foreign := map[])
  }

  datatype History = New | After(before: History, op: Op) {
    ghost predicate Valid()
      decreases this, 0
    {
      After? ==> before.Valid() && Possible(before.Now(), op)
    }

    ghost function Now(): Contents
      requires Valid()
      decreases this, 1
    {
      match this
      case New => EMPTY
      case After(before, op) => Apply(before.Now(), op)
    }
  }

  // ---------------------------------------------------------------- the invariant

  /** `k` holds, from the latest mint, the value of an output that maps to it. */
  ghost predicate FromLatest(c: Contents, k: string) {
    && k in c.data && c.data[k].origin == Broker(c.mints)
    && exists l :: l in c.latest && TargetKey(c.mapping, l) == k && c.data[k].bytes == c.latest[l]
  }

  ghost predicate FromOthers(c: Contents, k: string) {
    k in c.data && k in c.foreign && c.data[k] == Value(c.foreign[k], Foreign)
  }

  ghost predicate Accounted(c: Contents) {
    && (forall k :: k in c.Managed() ==> FromLatest(c, k))
    && (forall k :: k in c.data && k !in c.Managed() ==> FromOthers(c, k))
    && (forall k :: k in c.foreign ==> k in c.data && k !in c.Managed())
    && (forall l :: l in c.latest ==> TargetKey(c.mapping, l) in c.Managed())
  }

  /** The list written is the list read back. */
  lemma WrittenIsManaged(annotations: map<string, string>, mint: map<string, Bytes>,
                         mapping: map<string, string>, order: seq<string>)
    requires Enumerates(order, mint)
    requires forall l :: l in mint ==> TargetKey(mapping, l) != "" && CommaFree(TargetKey(mapping, l))
    ensures forall k ::
      k in ManagedKeys(annotations[MANAGED_KEYS := Join(Sort(Targets(mapping, order)))])
      <==> k in Targets(mapping, order)
  {
    var targets := Targets(mapping, order);
    var sorted := Sort(targets);
    forall k ensures k in sorted <==> k in targets {
      SortKeeps(targets, k);
    }
    forall i | 0 <= i < |sorted| ensures CommaFree(sorted[i]) && sorted[i] != "" {
      assert sorted[i] in sorted;
      TargetsMembers(mapping, mint, order, sorted[i]);
    }
    ListRoundTrip(sorted);
  }

  /** So the list names exactly where the outputs went. */
  lemma ListsDestinations(annotations: map<string, string>, mint: map<string, Bytes>,
                          mapping: map<string, string>, order: seq<string>, k: string)
    requires Enumerates(order, mint)
    requires forall l :: l in mint ==> TargetKey(mapping, l) != "" && CommaFree(TargetKey(mapping, l))
    ensures k in ManagedKeys(annotations[MANAGED_KEYS := Join(Sort(Targets(mapping, order)))])
       <==> Destination(mapping, mint, k)
  {
    WrittenIsManaged(annotations, mint, mapping, order);
    DestinationsAreTargets(mapping, mint, order, k);
  }

  /** `c'` is `c` after a mint whose outputs went to `targets`. */
  ghost predicate Rewritten(c: Contents, c': Contents, targets: seq<string>) {
    && (forall k :: k in c'.Managed() <==> k in targets)
    && (forall k :: k in c'.data <==> k in targets || (k in c.data && k !in c.Managed()))
    && (forall k :: k in c'.data && k !in targets ==> c'.data[k] == c.data[k])
    && (forall k :: k in targets ==> FromLatest(c', k))
    && (forall l :: l in c'.latest ==> TargetKey(c'.mapping, l) in targets)
    && c'.foreign == c.foreign - set k | k in targets
  }

  /** What a mint does to one key. */
  lemma KeyRewritten(c: Contents, mint: map<string, Bytes>, mapping: map<string, string>, order: seq<string>, k: string)
    requires Possible(c, MintInto(mint, mapping, order))
    ensures var c', targets := Apply(c, MintInto(mint, mapping, order)), Targets(mapping, order);
            && (k in c'.data <==> k in targets || (k in c.data && k !in c.Managed()))
            && (k in c'.data && k !in targets ==> c'.data[k] == c.data[k])
            && (k in targets ==> FromLatest(c', k))
  {
    var tagged := Tagged(mint, c.mints + 1);
    var c' := Apply(c, MintInto(mint, mapping, order));
    assert c'.data == FinalData(c.data, c.Managed(), mapping, tagged, order);
    WriteMeans(c.data, c.Managed(), mapping, tagged, order, k);
    if k in Targets(mapping, order) {
      var l :| l in tagged && TargetKey(mapping, l) == k && c'.data[k] == tagged[l];
      LatestWitness(c', k, l);
    }
  }

  lemma LatestWitness(c: Contents, k: string, l: string)
    requires k in c.data && l in c.latest && TargetKey(c.mapping, l) == k
    requires c.data[k] == Value(c.latest[l], Broker(c.mints))
    ensures FromLatest(c, k)
  {
  }

  lemma MintRewrites(c: Contents, mint: map<string, Bytes>, mapping: map<string, string>, order: seq<string>)
    requires Possible(c, MintInto(mint, mapping, order))
    ensures Rewritten(c, Apply(c, MintInto(mint, mapping, order)), Targets(mapping, order))
  {
    var targets, c' := Targets(mapping, order), Apply(c, MintInto(mint, mapping, order));
    WrittenIsManaged(c.annotations, mint, mapping, order);
    forall k
      ensures k in c'.data <==> k in targets || (k in c.data && k !in c.Managed())
      ensures k in c'.data && k !in targets ==> c'.data[k] == c.data[k]
      ensures k in targets ==> FromLatest(c', k)
    {
      KeyRewritten(c, mint, mapping, order, k);
    }
    forall l | l in c'.latest ensures TargetKey(mapping, l) in targets {
      TargetsMembers(mapping, mint, order, TargetKey(mapping, l));
    }
  }

  lemma RewrittenAccounted(c: Contents, c': Contents, targets: seq<string>)
    requires Accounted(c) && Rewritten(c, c', targets)
    ensures Accounted(c')
  {
    forall k | k in c'.data && k !in c'.Managed() ensures FromOthers(c', k) {
      assert FromOthers(c, k);
    }
  }

  lemma AccountedStep(c: Contents, op: Op)
    requires Accounted(c) && Possible(c, op)
    ensures Accounted(Apply(c, op))
  {
    match op
    case MintInto(mint, mapping, order) =>
      MintRewrites(c, mint, mapping, order);
      RewrittenAccounted(c, Apply(c, op), Targets(mapping, order));
    case Put(key, bytes) =>
      OthersAccounted(c, op);
    case Remove(key) =>
      OthersAccounted(c, op);
    case Annotate(name, text) =>
      OthersAccounted(c, op);
    case Vanish =>
  }

  lemma OthersAccounted(c: Contents, op: Op)
    requires Accounted(c) && Possible(c, op) && (op.Put? || op.Remove? || op.Annotate?)
    ensures Accounted(Apply(c, op))
  {
    var c' := Apply(c, op);
    assert c'.Managed() == c.Managed();
    forall k | k in c.Managed() ensures FromLatest(c', k) {
      assert FromLatest(c, k);
    }
    forall k | k in c'.data && k !in c.Managed() ensures FromOthers(c', k) {
      assert k in c.data ==> FromOthers(c, k);
    }
  }

  lemma {:induction false} AlwaysAccounted(h: History)
    requires h.Valid()
    ensures Accounted(h.Now())
  {
    if h.After? {
      AlwaysAccounted(h.before);
      AccountedStep(h.before.Now(), h.op);
    }
  }

  /** At any time the values made by the broker are exactly those under the keys listed
      in the annotation, all of the latest mint and under the mapping in force then;
      so no earlier credential survives under any key. All other values are what
      others put there last. */
  lemma ManagedKeyProvenance(h: History)
    requires h.Valid()
    ensures var c := h.Now();
            && (forall k :: k in c.Managed() <==> k in c.data && c.data[k].origin.Broker?)
            && (forall k :: k in c.data && c.data[k].origin.Broker? ==>
                  && c.data[k].origin.mint == c.mints
                  && exists l :: l in c.latest && TargetKey(c.mapping, l) == k && c.data[k].bytes == c.latest[l])
            && (forall l :: l in c.latest ==> TargetKey(c.mapping, l) in c.data)
            && (forall k :: k in c.foreign <==> k in c.data && c.data[k].origin.Foreign?)
            && (forall k :: k in c.foreign ==> c.data[k].bytes == c.foreign[k])
  {
    AlwaysAccounted(h);
    var c := h.Now();
    forall k | k in c.data
      ensures k in c.Managed() ==> FromLatest(c, k)
      ensures k !in c.Managed() ==> FromOthers(c, k)
    {
    }
  }
}
