/** The provider registry (internal/provider/provider.go). */
module Registry {
  import opened Api

  /** An implementation of the Provider interface: what `Name()` returns, and an
      identity that tells two implementations of the same name apart. */
  datatype Provider = Provider(name: string, id: nat)

  /** The last provider of the list that bears the name. */
  function LastNamed(ps: seq<Provider>, name: string): Option<Provider> {
    if ps == [] then None
    else if ps[|ps| - 1].name == name then Some(ps[|ps| - 1])
    else LastNamed(ps[..|ps| - 1], name)
  }

  /** Position `i` holds the name, and no later position does. */
  ghost predicate LastAt(ps: seq<Provider>, name: string, i: nat) {
    i < |ps| && ps[i].name == name && forall j :: i < j < |ps| ==> ps[j].name != name
  }

  /** `LastNamed` in terms of positions: nothing is found exactly when no entry has
      the name, and otherwise the entry at the last position that has it. */
  lemma {:induction false} LastNamedIsLast(ps: seq<Provider>, name: string)
    ensures LastNamed(ps, name).None? <==> forall i :: 0 <= i < |ps| ==> ps[i].name != name
    ensures forall i: nat :: LastAt(ps, name, i) ==> LastNamed(ps, name) == Some(ps[i])
    ensures LastNamed(ps, name).Some? ==>
      exists i: nat :: LastAt(ps, name, i) && LastNamed(ps, name) == Some(ps[i])
  {
    if ps != [] {
      var last := |ps| - 1;
      var front := ps[..last];
      if ps[last].name == name {
        assert LastAt(ps, name, last);
      } else {
        LastNamedIsLast(front, name);
        if i: nat :| LastAt(front, name, i) {
          assert LastAt(ps, name, i);
        }
        forall i: nat | LastAt(ps, name, i)
          ensures LastNamed(ps, name) == Some(ps[i])
        {
          assert LastAt(front, name, i);
        }
      }
    }
  }

  /** A name resolves only to a provider that answers to it. */
  lemma Coherent(ps: seq<Provider>, name: string)
    ensures LastNamed(ps, name).Some? ==> LastNamed(ps, name).value.name == name
  {
    LastNamedIsLast(ps, name);
  }

  class ProviderRegistry {
    var providers: map<string, Provider>

    /** The registry answers every name as the list it was built from does. */
    ghost predicate Serves(ps: seq<Provider>)
      reads this
    {
      forall name :: LastNamed(ps, name) ==
        if name in providers then Some(providers[name]) else None
    }

    constructor (ps: seq<Provider>)
      ensures Serves(ps)
    {
      providers := map[];
      new;
      for i := 0 to |ps|
        invariant Serves(ps[..i])
      {
        assert ps[..i + 1][..i] == ps[..i];
        providers := providers[ps[i].name := ps[i]];
      }
      assert ps[..|ps|] == ps;
    }

    method Get(name: string, ghost ps: seq<Provider>) returns (found: Option<Provider>)
      requires Serves(ps)
      ensures found == LastNamed(ps, name)
      ensures found.Some? ==> found.value.name == name
    {
      Coherent(ps, name);
      found := if name in providers then Some(providers[name]) else None;
    }
  }
}
