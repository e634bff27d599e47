/** The managed-keys annotation: a sorted list of Secret keys, printed with commas and
    parsed back (internal/controller/ephemeralcredential_controller.go). */
module KeyList {

  // ---------------------------------------------------------------- print and parse

  function Join(keys: seq<string>): string {
    if |keys| == 0 then ""
    else if |keys| == 1 then keys[0]
    else keys[0] + "," + Join(keys[1..])
  }

  function Split(text: string): (parts: seq<string>)
    ensures |parts| >= 1
  {
    if text == "" then [""]
    else
      var rest := Split(text[1..]);
      if text[0] == ',' then [""] + rest
      else [[text[0]] + rest[0]] + rest[1..]
  }

  predicate CommaFree(key: string) {
    ',' !in key
  }

  ghost predicate AllCommaFree(keys: seq<string>) {
    forall i :: 0 <= i < |keys| ==> CommaFree(keys[i])
  }

  /** What the next write reads back from the annotation. */
  function Parse(text: string): seq<string> {
    if text == "" then [] else Split(text)
  }

  lemma {:induction false} SplitPieces(text: string)
    ensures AllCommaFree(Split(text))
  {
    if text != "" {
      SplitPieces(text[1..]);
    }
  }

  lemma {:induction false} SplitWhole(key: string)
    requires CommaFree(key)
    ensures Split(key) == [key]
  {
    if key != "" {
      SplitWhole(key[1..]);
      assert key == [key[0]] + key[1..];
    }
  }

  lemma {:induction false} SplitFirst(key: string, rest: string)
    requires CommaFree(key)
    ensures Split(key + "," + rest) == [key] + Split(rest)
  {
    var text := key + "," + rest;
    if key == "" {
      assert text[1..] == rest;
    } else {
      assert text[1..] == key[1..] + "," + rest;
      SplitFirst(key[1..], rest);
      assert key == [key[0]] + key[1..];
    }
  }

  lemma {:induction false} SplitJoin(keys: seq<string>)
    requires |keys| >= 1 && AllCommaFree(keys)
    ensures Split(Join(keys)) == keys
  {
    if |keys| == 1 {
      SplitWhole(keys[0]);
    } else {
      SplitFirst(keys[0], Join(keys[1..]));
      SplitJoin(keys[1..]);
    }
  }

  lemma JoinEmpty(keys: seq<string>)
    ensures Join(keys) == "" <==> keys == [] || keys == [""]
  {
    if |keys| > 1 {
      assert ',' in Join(keys);
    }
  }

  /** The list is recovered exactly when no key has a comma in it and it is not the
      list of just the empty key. */
  lemma ListRoundTrip(keys: seq<string>)
    ensures Parse(Join(keys)) == keys <==> AllCommaFree(keys) && keys != [""]
  {
    JoinEmpty(keys);
    SplitPieces(Join(keys));
    if AllCommaFree(keys) && keys != [] {
      SplitJoin(keys);
    }
  }

  /** Splitting a text takes it apart at all of its commas and loses nothing else. */
  lemma {:induction false} JoinSplit(text: string)
    ensures Join(Split(text)) == text && AllCommaFree(Split(text))
  {
    SplitPieces(text);
    if text != "" {
      var parts := Split(text[1..]);
      JoinSplit(text[1..]);
      if text[0] == ',' {
        assert ([""] + parts)[1..] == parts;
      } else if |parts| > 1 {
        assert ([[text[0]] + parts[0]] + parts[1..])[1..] == parts[1..];
        assert [text[0]] + (parts[0] + "," + Join(parts[1..])) == [text[0]] + parts[0] + "," + Join(parts[1..]);
      }
    }
  }

  // ---------------------------------------------------------------- sorting

  /** Byte-wise order of strings. */
  predicate Leq(a: string, b: string) {
    a == "" || (b != "" && (a[0] < b[0] || (a[0] == b[0] && Leq(a[1..], b[1..]))))
  }

  /** `a` and `b` agree before position `i`, where `a` has the smaller character. */
  ghost predicate DecidesAt(a: string, b: string, i: nat) {
    i < |a| && i < |b| && a[..i] == b[..i] && a[i] < b[i]
  }

  lemma FirstAgrees(a: string, b: string, i: nat)
    requires DecidesAt(a, b, i)
    ensures i == 0 || a[0] == b[0]
  {
    if i > 0 {
      assert a[..i][0] == b[..i][0];
    }
  }

  /** A string comes before those that continue it, and otherwise the first difference
      decides, the smaller character coming first. */
  lemma {:induction false} LeqMeans(a: string, b: string)
    ensures Leq(a, b) <==> a <= b || exists i: nat :: DecidesAt(a, b, i)
  {
    if a != "" && b != "" {
      forall i: nat | DecidesAt(a, b, i) ensures i == 0 || a[0] == b[0] {
        FirstAgrees(a, b, i);
      }
      if a[0] != b[0] {
        assert a[0] < b[0] ==> DecidesAt(a, b, 0);
      } else {
        LeqMeans(a[1..], b[1..]);
        assert a <= b <==> a[1..] <= b[1..];
        if i: nat :| DecidesAt(a[1..], b[1..], i) {
          assert a[..i + 1] == [a[0]] + a[1..][..i] && b[..i + 1] == [b[0]] + b[1..][..i];
          assert DecidesAt(a, b, i + 1);
        }
        if i: nat :| DecidesAt(a, b, i) {
          assert a[1..][..i - 1] == a[..i][1..] && b[1..][..i - 1] == b[..i][1..];
          assert DecidesAt(a[1..], b[1..], i - 1);
        }
      }
    }
  }

  lemma {:induction false} LeqTotal(a: string, b: string)
    ensures Leq(a, b) || Leq(b, a)
    ensures Leq(a, b) && Leq(b, a) ==> a == b
  {
    if a != "" && b != "" && a[0] == b[0] {
      LeqTotal(a[1..], b[1..]);
      assert a == [a[0]] + a[1..] && b == [b[0]] + b[1..];
    }
  }

  lemma {:induction false} LeqTransitive(a: string, b: string, c: string)
    requires Leq(a, b) && Leq(b, c)
    ensures Leq(a, c)
  {
    if a != "" && a[0] == b[0] == c[0] {
      LeqTransitive(a[1..], b[1..], c[1..]);
    }
  }

  ghost predicate IsSorted(keys: seq<string>) {
    forall i, j :: 0 <= i < j < |keys| ==> Leq(keys[i], keys[j])
  }

  function Insert(key: string, keys: seq<string>): (r: seq<string>)
    ensures multiset(r) == multiset(keys) + multiset{key}
  {
    if keys == [] then [key]
    else if Leq(key, keys[0]) then [key] + keys
    else
      assert keys == [keys[0]] + keys[1..];
      [keys[0]] + Insert(key, keys[1..])
  }

  function Sort(keys: seq<string>): (r: seq<string>)
    ensures multiset(r) == multiset(keys)
  {
    if keys == [] then []
    else
      assert keys == [keys[0]] + keys[1..];
      Insert(keys[0], Sort(keys[1..]))
  }

  /** `key` is at most everything in the list. */
  ghost predicate Below(key: string, keys: seq<string>) {
    forall k :: k in multiset(keys) ==> Leq(key, k)
  }

  lemma SortedCons(key: string, keys: seq<string>)
    ensures IsSorted([key] + keys) <==> Below(key, keys) && IsSorted(keys)
  {
    var all := [key] + keys;
    if IsSorted(all) {
      forall i, j | 0 <= i < j < |keys| ensures Leq(keys[i], keys[j]) {
        assert all[i + 1] == keys[i] && all[j + 1] == keys[j];
      }
      forall k | k in multiset(keys) ensures Leq(key, k) {
        var j :| 0 <= j < |keys| && keys[j] == k;
        assert all[0] == key && all[j + 1] == k;
      }
    }
  }

  lemma {:induction false} InsertSorted(key: string, keys: seq<string>)
    requires IsSorted(keys)
    ensures IsSorted(Insert(key, keys))
  {
    if keys == [] {
    } else {
      var head, tail := keys[0], keys[1..];
      assert keys == [head] + tail;
      SortedCons(head, tail);
      if Leq(key, head) {
        forall k | k in multiset(keys) ensures Leq(key, k) {
          if k != head {
            LeqTransitive(key, head, k);
          }
        }
        SortedCons(key, keys);
      } else {
        LeqTotal(key, head);
        InsertSorted(key, tail);
        SortedCons(head, Insert(key, tail));
      }
    }
  }

  lemma {:induction false} SortSorted(keys: seq<string>)
    ensures IsSorted(Sort(keys))
  {
    if keys != [] {
      SortSorted(keys[1..]);
      InsertSorted(keys[0], Sort(keys[1..]));
    }
  }

  /** Sorted lists of the same keys begin alike. */
  lemma SameLeast(a: seq<string>, b: seq<string>)
    requires IsSorted(a) && IsSorted(b) && multiset(a) == multiset(b) && a != [] && b != []
    ensures a[0] == b[0]
  {
    assert a == [a[0]] + a[1..] && b == [b[0]] + b[1..];
    SortedCons(a[0], a[1..]);
    SortedCons(b[0], b[1..]);
    assert a[0] in multiset(b) && b[0] in multiset(a);
    LeqTotal(a[0], a[0]);
    LeqTotal(a[0], b[0]);
  }

  lemma TailCounts(keys: seq<string>)
    requires keys != []
    ensures multiset(keys[1..]) == multiset(keys) - multiset{keys[0]}
  {
    assert keys == [keys[0]] + keys[1..];
  }

  lemma TailSorted(keys: seq<string>)
    requires keys != [] && IsSorted(keys)
    ensures IsSorted(keys[1..])
  {
    assert keys == [keys[0]] + keys[1..];
    SortedCons(keys[0], keys[1..]);
  }

  /** There is one way to sort a collection of keys. */
  lemma {:induction false} SortedUnique(a: seq<string>, b: seq<string>)
    requires IsSorted(a) && IsSorted(b) && multiset(a) == multiset(b)
    ensures a == b
  {
    if a == [] || b == [] {
      assert |multiset(a)| == |a| && |multiset(b)| == |b|;
    } else {
      SameLeast(a, b);
      TailCounts(a);
      TailCounts(b);
      TailSorted(a);
      TailSorted(b);
      SortedUnique(a[1..], b[1..]);
      assert a == [a[0]] + a[1..] && b == [b[0]] + b[1..];
    }
  }
}
