/** How a mint is written into the target Secret, key by key, and which keys the
    controller owns there (internal/controller/ephemeralcredential_controller.go). */
module SecretKeys {
  import opened KeyList

  const MANAGED_KEYS := "broker.shivansh-sinha.dev/managed-keys"

  /** The Secret key under which a logical output key is written. */
  function TargetKey(mapping: map<string, string>, logical: string): string {
    if logical in mapping && mapping[logical] != "" then mapping[logical] else logical
  }

  function ManagedKeys(annotations: map<string, string>): seq<string> {
    Parse(if MANAGED_KEYS in annotations then annotations[MANAGED_KEYS] else "")
  }

  ghost predicate Distinct(order: seq<string>) {
    forall i, j :: 0 <= i < j < |order| ==> order[i] != order[j]
  }

  /** `order` is one of the orders in which the keys of the mint can be visited. */
  ghost predicate Enumerates<V>(order: seq<string>, mint: map<string, V>) {
    && Distinct(order)
    && (forall k :: k in order <==> k in mint)
  }

  /** Outputs that go under one key have one value; an injective mapping is the case in
      which no two outputs go under one key. */
  ghost predicate Agreeing<V>(mapping: map<string, string>, mint: map<string, V>) {
    forall k, k' :: k in mint && k' in mint && TargetKey(mapping, k) == TargetKey(mapping, k') ==>
      mint[k] == mint[k']
  }

  // ---------------------------------------------------------------- what the loops compute

  /** The data after the first loop has visited `order`. */
  function WriteAll<V>(data: map<string, V>, mapping: map<string, string>, mint: map<string, V>,
                       order: seq<string>): map<string, V>
    requires forall i :: 0 <= i < |order| ==> order[i] in mint
  {
    if order == [] then data
    else
      var front, last := order[..|order| - 1], order[|order| - 1];
      WriteAll(data, mapping, mint, front)[TargetKey(mapping, last) := mint[last]]
  }

  /** The Secret keys that the first loop collects. */
  function Targets(mapping: map<string, string>, order: seq<string>): (r: seq<string>)
    ensures |r| == |order|
    ensures forall i :: 0 <= i < |order| ==> r[i] == TargetKey(mapping, order[i])
  {
    seq(|order|, i requires 0 <= i < |order| => TargetKey(mapping, order[i]))
  }

  /** The stale keys: managed before, and not written now. */
  function Stale(managed: seq<string>, written: seq<string>): set<string> {
    set k | k in managed && k !in written
  }

  function FinalData<V>(data: map<string, V>, managed: seq<string>, mapping: map<string, string>,
                        mint: map<string, V>, order: seq<string>): map<string, V>
    requires forall i :: 0 <= i < |order| ==> order[i] in mint
  {
    WriteAll(data, mapping, mint, order) - Stale(managed, Targets(mapping, order))
  }

  // ---------------------------------------------------------------- the Secret

  class TargetSecret<V> {
    var data: map<string, V>
    var annotations: map<string, string>

    constructor ()
      ensures data == map[] && annotations == map[]
    {
      data, annotations := map[], map[];
    }

    /** The first loop: every value of the mint goes under its Secret key. */
    method WriteValues(mapping: map<string, string>, mint: map<string, V>, order: seq<string>)
      returns (written: seq<string>)
      requires Enumerates(order, mint)
      modifies this`data
      ensures data == WriteAll(old(data), mapping, mint, order)
      ensures written == Targets(mapping, order)
    {
      written := [];
      for i := 0 to |order|
        invariant data == WriteAll(old(data), mapping, mint, order[..i])
        invariant written == Targets(mapping, order[..i])
      {
        VisitNext(old(data), mapping, mint, order, i);
        var logicalKey := order[i];
        var secretKey := TargetKey(mapping, logicalKey);
        data := data[secretKey := mint[logicalKey]];
        written := written + [secretKey];
      }
      assert order[..|order|] == order;
    }

    /** The second loop: managed keys that were not written go. */
    method DropStale(written: seq<string>)
      modifies this`data
      ensures data == old(data) - Stale(ManagedKeys(annotations), written)
    {
      var managed := ManagedKeys(annotations);
      for i := 0 to |managed|
        invariant data == old(data) - Stale(managed[..i], written)
      {
        StaleNext(managed, i, written);
        if managed[i] !in written {
          data := data - {managed[i]};
        }
      }
      assert managed[..|managed|] == managed;
    }

    /** The mutation of writeTargetSecret. `order` is whichever order the runtime
        visits the keys of the mint in. */
    method Write(mapping: map<string, string>, mint: map<string, V>, order: seq<string>)
      requires Enumerates(order, mint)
      modifies this
      ensures data == FinalData(old(data), ManagedKeys(old(annotations)), mapping, mint, order)
      ensures annotations == old(annotations)[MANAGED_KEYS := Join(Sort(Targets(mapping, order)))]
    {
      var written := WriteValues(mapping, mint, order);
      var sorted := Sort(written);
      SortStale(ManagedKeys(annotations), written);
      DropStale(sorted);
      annotations := annotations[MANAGED_KEYS := Join(sorted)];
    }
  }

  /** What one more visit adds. */
  lemma VisitNext<V>(data: map<string, V>, mapping: map<string, string>, mint: map<string, V>,
                     order: seq<string>, i: nat)
    requires i < |order| && forall j :: 0 <= j < |order| ==> order[j] in mint
    ensures WriteAll(data, mapping, mint, order[..i + 1]) ==
      WriteAll(data, mapping, mint, order[..i])[TargetKey(mapping, order[i]) := mint[order[i]]]
    ensures Targets(mapping, order[..i + 1]) == Targets(mapping, order[..i]) + [TargetKey(mapping, order[i])]
  {
    assert order[..i + 1][..i] == order[..i];
  }

  /** Sorting the written keys makes no difference to which ones are stale. */
  lemma SortStale(managed: seq<string>, written: seq<string>)
    ensures Stale(managed, Sort(written)) == Stale(managed, written)
  {
    forall k | k in managed ensures k in Sort(written) <==> k in written {
      SortKeeps(written, k);
    }
  }

  lemma SortKeeps(keys: seq<string>, key: string)
    ensures key in Sort(keys) <==> key in keys
  {
    assert key in Sort(keys) <==> key in multiset(Sort(keys));
    assert key in keys <==> key in multiset(keys);
  }

  lemma StaleNext(managed: seq<string>, i: nat, written: seq<string>)
    requires i < |managed|
    ensures Stale(managed[..i + 1], written) ==
      Stale(managed[..i], written) + if managed[i] in written then {} else {managed[i]}
  {
    assert managed[..i + 1] == managed[..i] + [managed[i]];
  }

  // ---------------------------------------------------------------- what that means

  /** The value under `k` is that of a logical key which maps to `k`. */
  ghost predicate FromOrder<V>(d: map<string, V>, mapping: map<string, string>, mint: map<string, V>,
                               order: seq<string>, k: string)
    requires forall i :: 0 <= i < |order| ==> order[i] in mint
  {
    k in d && exists i :: 0 <= i < |order| && TargetKey(mapping, order[i]) == k && d[k] == mint[order[i]]
  }

  /** Each target key holds the value of a logical key that maps to it, and no other key
      is touched. */
  lemma {:induction false} WriteAllMeans<V>(data: map<string, V>, mapping: map<string, string>,
                                           mint: map<string, V>, order: seq<string>, k: string)
    requires forall i :: 0 <= i < |order| ==> order[i] in mint
    ensures var d := WriteAll(data, mapping, mint, order);
            if k in Targets(mapping, order) then FromOrder(d, mapping, mint, order, k)
            else (k in d <==> k in data) && (k in d ==> d[k] == data[k])
  {
    if order != [] {
      var front, last := order[..|order| - 1], order[|order| - 1];
      WriteAllMeans(data, mapping, mint, front, k);
      assert Targets(mapping, order) == Targets(mapping, front) + [TargetKey(mapping, last)];
      if k == TargetKey(mapping, last) {
        assert order[|order| - 1] == last;
      } else if k in Targets(mapping, front) {
        var i :| 0 <= i < |front| && TargetKey(mapping, front[i]) == k
                 && WriteAll(data, mapping, mint, front)[k] == mint[front[i]];
        assert order[i] == front[i];
      }
    }
  }

  lemma TargetsMembers<V>(mapping: map<string, string>, mint: map<string, V>, order: seq<string>, k: string)
    requires Enumerates(order, mint)
    ensures k in Targets(mapping, order) <==> exists l :: l in mint && TargetKey(mapping, l) == k
  {
    var targets := Targets(mapping, order);
    if k in targets {
      var i :| 0 <= i < |targets| && targets[i] == k;
      assert order[i] in mint && TargetKey(mapping, order[i]) == k;
    }
    if l :| l in mint && TargetKey(mapping, l) == k {
      assert l in order;
      var i :| 0 <= i < |order| && order[i] == l;
      assert targets[i] == k;
    }
  }

  /** The data in the end: under every target key a value of the mint that maps to it,
      and besides that the old data without what was managed. */
  lemma WriteMeans<V>(data: map<string, V>, managed: seq<string>, mapping: map<string, string>,
                      mint: map<string, V>, order: seq<string>, k: string)
    requires Enumerates(order, mint)
    ensures var final := FinalData(data, managed, mapping, mint, order);
            if k in Targets(mapping, order) then
              k in final && exists l :: l in mint && TargetKey(mapping, l) == k && final[k] == mint[l]
            else
              (k in final <==> k in data && k !in managed) && (k in final ==> final[k] == data[k])
    ensures k in Targets(mapping, order) <==> exists l :: l in mint && TargetKey(mapping, l) == k
  {
    var d := WriteAll(data, mapping, mint, order);
    TargetsMembers(mapping, mint, order, k);
    WriteAllMeans(data, mapping, mint, order, k);
    if k in Targets(mapping, order) {
      var i :| 0 <= i < |order| && TargetKey(mapping, order[i]) == k && d[k] == mint[order[i]];
      assert order[i] in mint;
    }
  }

  /** The spec gives the logical key `l` a name of its own. */
  predicate Renamed(mapping: map<string, string>, l: string) {
    l in mapping && mapping[l] != ""
  }

  /** `k` is a name that the spec gives to an output, or an output that it does not name. */
  ghost predicate Destination<V>(mapping: map<string, string>, mint: map<string, V>, k: string) {
    || (exists l :: l in mint && Renamed(mapping, l) && mapping[l] == k)
    || (k in mint && !Renamed(mapping, k))
  }

  lemma DestinationsAreTargets<V>(mapping: map<string, string>, mint: map<string, V>, order: seq<string>, k: string)
    requires Enumerates(order, mint)
    ensures k in Targets(mapping, order) <==> Destination(mapping, mint, k)
  {
    TargetsMembers(mapping, mint, order, k);
    if l :| l in mint && TargetKey(mapping, l) == k {
      assert Renamed(mapping, l) || k == l;
    }
    if Destination(mapping, mint, k) {
      if l :| l in mint && Renamed(mapping, l) && mapping[l] == k {
        assert TargetKey(mapping, l) == k;
      } else {
        assert TargetKey(mapping, k) == k;
      }
    }
  }

  /** Where the outputs go: each under the name that the spec gives it, or under its own
      name if the spec gives it none or an empty one. Every other key is as before, unless
      it was managed and goes. */
  lemma OutputsGoWhereNamed<V>(data: map<string, V>, managed: seq<string>, mapping: map<string, string>,
                               mint: map<string, V>, order: seq<string>)
    requires Enumerates(order, mint) && Agreeing(mapping, mint)
    ensures var final := FinalData(data, managed, mapping, mint, order);
            && (forall l :: l in mint && l in mapping && mapping[l] != "" ==>
                  mapping[l] in final && final[mapping[l]] == mint[l])
            && (forall l :: l in mint && (l !in mapping || mapping[l] == "") ==> l in final && final[l] == mint[l])
            && (forall k :: !Destination(mapping, mint, k) ==>
                  (k in final <==> k in data && k !in managed) && (k in final ==> final[k] == data[k]))
  {
    var final := FinalData(data, managed, mapping, mint, order);
    forall l | l in mint
      ensures var k := TargetKey(mapping, l); k in final && final[k] == mint[l]
    {
      WriteMeans(data, managed, mapping, mint, order, TargetKey(mapping, l));
    }
    forall k | !Destination(mapping, mint, k)
      ensures (k in final <==> k in data && k !in managed) && (k in final ==> final[k] == data[k])
    {
      DestinationsAreTargets(mapping, mint, order, k);
      WriteMeans(data, managed, mapping, mint, order, k);
    }
  }

  // ---------------------------------------------------------------- order independence

  /** What the write amounts to: the old data without the managed keys, overlaid with
      the mapped mint. */
  ghost function Overlaid<V>(data: map<string, V>, managed: seq<string>, mapping: map<string, string>,
                             mint: map<string, V>): map<string, V>
    requires Agreeing(mapping, mint)
  {
    (data - set k | k in managed) +
    map l | l in mint :: TargetKey(mapping, l) := mint[l]
  }

  /** With such a mapping the data written does not depend on the order. */
  lemma WriteIsOverlay<V>(data: map<string, V>, managed: seq<string>, mapping: map<string, string>,
                          mint: map<string, V>, order: seq<string>)
    requires Enumerates(order, mint) && Agreeing(mapping, mint)
    ensures FinalData(data, managed, mapping, mint, order) == Overlaid(data, managed, mapping, mint)
  {
    var final, overlaid := FinalData(data, managed, mapping, mint, order), Overlaid(data, managed, mapping, mint);
    forall k
      ensures k in final <==> k in overlaid
      ensures k in final ==> final[k] == overlaid[k]
    {
      WriteMeans(data, managed, mapping, mint, order, k);
      if k in Targets(mapping, order) {
        var l :| l in mint && TargetKey(mapping, l) == k && final[k] == mint[l];
        assert overlaid[TargetKey(mapping, l)] == mint[l];
      }
    }
  }

  /** Nor does the annotation. */
  lemma ListIsOrderFree<V>(mapping: map<string, string>, mint: map<string, V>, order: seq<string>, order': seq<string>)
    requires Enumerates(order, mint) && Enumerates(order', mint)
    ensures Join(Sort(Targets(mapping, order))) == Join(Sort(Targets(mapping, order')))
  {
    SameElements(mapping, order, order');
    SortSorted(Targets(mapping, order));
    SortSorted(Targets(mapping, order'));
    SortedUnique(Sort(Targets(mapping, order)), Sort(Targets(mapping, order')));
  }

  /** Two orders of the same keys collect the same targets, equally often. */
  lemma {:induction false} SameElements(mapping: map<string, string>, order: seq<string>, order': seq<string>)
    requires Distinct(order) && Distinct(order') && forall k :: k in order <==> k in order'
    ensures multiset(Targets(mapping, order)) == multiset(Targets(mapping, order'))
    decreases |order|
  {
    if order == [] {
      Occupied(order');
    } else {
      var n := |order| - 1;
      assert order[n] in order';
      var i :| 0 <= i < |order'| && order'[i] == order[n];
      OmitSame(order, n, order', i);
      SameElements(mapping, Omit(order, n), Omit(order', i));
      TargetsOmit(mapping, order, n);
      TargetsOmit(mapping, order', i);
    }
  }

  lemma OmitSame(order: seq<string>, n: nat, order': seq<string>, i: nat)
    requires Distinct(order) && Distinct(order') && forall k :: k in order <==> k in order'
    requires n < |order| && i < |order'| && order[n] == order'[i]
    ensures Distinct(Omit(order, n)) && Distinct(Omit(order', i))
    ensures forall k :: k in Omit(order, n) <==> k in Omit(order', i)
    ensures |Omit(order, n)| < |order|
  {
    Without(order, n);
    Without(order', i);
  }

  lemma Occupied(order: seq<string>)
    ensures order != [] ==> exists k :: k in order
  {
    if order != [] {
      assert order[0] in order;
    }
  }

  ghost function Omit(order: seq<string>, i: nat): seq<string>
    requires i < |order|
  {
    order[..i] + order[i + 1..]
  }

  lemma Without(order: seq<string>, i: nat)
    requires i < |order| && Distinct(order)
    ensures Distinct(Omit(order, i))
    ensures forall k :: k in Omit(order, i) <==> k in order && k != order[i]
  {
    forall k | k in order && k != order[i] ensures k in Omit(order, i) {
      var j :| 0 <= j < |order| && order[j] == k;
      assert Omit(order, i)[if j < i then j else j - 1] == k;
    }
  }

  lemma TargetsOmit(mapping: map<string, string>, order: seq<string>, i: nat)
    requires i < |order|
    ensures multiset(Targets(mapping, order)) ==
      multiset(Targets(mapping, Omit(order, i))) + multiset{TargetKey(mapping, order[i])}
  {
    OmitTargets(mapping, order, i);
    OmitCounts(Targets(mapping, order), i);
  }

  lemma OmitTargets(mapping: map<string, string>, order: seq<string>, i: nat)
    requires i < |order|
    ensures Targets(mapping, Omit(order, i)) == Omit(Targets(mapping, order), i)
  {
  }

  lemma OmitCounts(keys: seq<string>, i: nat)
    requires i < |keys|
    ensures multiset(keys) == multiset(Omit(keys, i)) + multiset{keys[i]}
  {
    assert keys == keys[..i] + [keys[i]] + keys[i + 1..];
  }

  /** When two outputs with different values go under one key, the order shows: the
      last one visited wins, and either can be last. */
  lemma CollisionsShowOrder<V>(data: map<string, V>, managed: seq<string>, mapping: map<string, string>,
                               mint: map<string, V>, order: seq<string>, k: string, k': string)
    requires Enumerates(order, mint) && k in mint && k' in mint
    requires TargetKey(mapping, k) == TargetKey(mapping, k') && mint[k] != mint[k']
    ensures exists a, b ::
      && Enumerates(a, mint) && Enumerates(b, mint)
      && FinalData(data, managed, mapping, mint, a) != FinalData(data, managed, mapping, mint, b)
  {
    var a := LastWins(data, managed, mapping, mint, order, k);
    var b := LastWins(data, managed, mapping, mint, order, k');
    assert Enumerates(a, mint) && Enumerates(b, mint);
  }

  lemma LastWins<V>(data: map<string, V>, managed: seq<string>, mapping: map<string, string>,
                    mint: map<string, V>, order: seq<string>, k: string) returns (last: seq<string>)
    requires Enumerates(order, mint) && k in mint
    ensures Enumerates(last, mint)
    ensures TargetKey(mapping, k) in FinalData(data, managed, mapping, mint, last)
    ensures FinalData(data, managed, mapping, mint, last)[TargetKey(mapping, k)] == mint[k]
  {
    assert k in order;
    var i :| 0 <= i < |order| && order[i] == k;
    Without(order, i);
    var front := Omit(order, i);
    last := front + [k];
    assert Enumerates(last, mint) by {
      assert forall l :: l in last <==> l in front || l == k;
    }
    LastValue(data, managed, mapping, mint, front, k);
  }

  lemma LastValue<V>(data: map<string, V>, managed: seq<string>, mapping: map<string, string>,
                     mint: map<string, V>, front: seq<string>, k: string)
    requires k in mint && forall i :: 0 <= i < |front| ==> front[i] in mint
    ensures TargetKey(mapping, k) in FinalData(data, managed, mapping, mint, front + [k])
    ensures FinalData(data, managed, mapping, mint, front + [k])[TargetKey(mapping, k)] == mint[k]
  {
    var order := front + [k];
    assert order[..|order| - 1] == front;
    assert Targets(mapping, order)[|front|] == TargetKey(mapping, k);
  }
}
