/**
 * Lists of client records identified by a key (`_id`, `userId`), updated the
 * way the React components do it: `find`/`some`, `filter`, `map` and spread.
 * The key is a parameter so that one definition serves every record type.
 */
module Records {
  import opened Wrappers
  import opened IdLists

  /** `s.some(e => key(e) === x)`. */
  predicate HasKey<T>(s: seq<T>, key: T -> Id, x: Id) {
    exists i :: 0 <= i < |s| && key(s[i]) == x
  }

  /** The keys of the list, in order (`s.map(key)`). */
  function Keys<T>(s: seq<T>, key: T -> Id): (r: seq<Id>)
    ensures |r| == |s|
    ensures forall i :: 0 <= i < |s| ==> r[i] == key(s[i])
  {
    seq(|s|, i requires 0 <= i < |s| => key(s[i]))
  }

  /** No two records share a key. */
  predicate UniqueKeys<T>(s: seq<T>, key: T -> Id) {
    NoDup(Keys(s, key))
  }

  /** `s.filter(e => key(e) !== x)`: exactly the records with another key stay. */
  function DropKey<T>(s: seq<T>, key: T -> Id, x: Id): (r: seq<T>)
    ensures forall i :: 0 <= i < |r| ==> r[i] in s && key(r[i]) != x
    ensures forall i :: 0 <= i < |s| && key(s[i]) != x ==> s[i] in r
    ensures !HasKey(r, key, x)
    ensures |r| <= |s|
    ensures HasKey(s, key, x) ==> |r| < |s|
  {
    if s == [] then []
    else
      assert s == [s[0]] + s[1..];
      assert forall i :: 1 <= i < |s| ==> s[i] == s[1..][i - 1];
      (if key(s[0]) == x then [] else [s[0]]) + DropKey(s[1..], key, x)
  }

  /** Filtering by key keeps every other record as many times as it occurs. */
  lemma {:induction false} DropKeyCount<T>(s: seq<T>, key: T -> Id, x: Id, y: T)
    requires key(y) != x
    ensures multiset(DropKey(s, key, x))[y] == multiset(s)[y]
  {
    if s != [] {
      DropKeyCount(s[1..], key, x, y);
      assert s == [s[0]] + s[1..];
    }
  }

  /** Filtering a concatenation filters each side, so the kept records keep their order. */
  lemma {:induction false} DropKeyAppend<T>(a: seq<T>, b: seq<T>, key: T -> Id, x: Id)
    ensures DropKey(a + b, key, x) == DropKey(a, key, x) + DropKey(b, key, x)
  {
    if a == [] {
      assert a + b == b;
    } else {
      assert (a + b)[1..] == a[1..] + b;
      DropKeyAppend(a[1..], b, key, x);
    }
  }

  /** Filtering out a key nobody has changes nothing. */
  lemma {:induction false} DropKeyAbsent<T>(s: seq<T>, key: T -> Id, x: Id)
    requires !HasKey(s, key, x)
    ensures DropKey(s, key, x) == s
  {
    if s != [] {
      assert !HasKey(s[1..], key, x) by {
        forall i | 0 <= i < |s| - 1 ensures key(s[1..][i]) != x { assert s[1..][i] == s[i + 1]; }
      }
      DropKeyAbsent(s[1..], key, x);
    }
  }

  /** The tail of a list with unique keys has unique keys and lacks the head's key. */
  lemma UniqueTail<T>(s: seq<T>, key: T -> Id)
    requires UniqueKeys(s, key) && s != []
    ensures UniqueKeys(s[1..], key) && !HasKey(s[1..], key, key(s[0]))
  {
    var ks := Keys(s, key);
    var kt := Keys(s[1..], key);
    assert forall k :: 0 <= k < |kt| ==> kt[k] == ks[k + 1];
  }

  /** Filtering keeps unique keys unique. */
  lemma {:induction false} DropKeyUnique<T>(s: seq<T>, key: T -> Id, x: Id)
    requires UniqueKeys(s, key)
    ensures UniqueKeys(DropKey(s, key, x), key)
  {
    if s != [] {
      var t := s[1..];
      UniqueTail(s, key);
      DropKeyUnique(t, key, x);
      var rest := DropKey(t, key, x);
      if key(s[0]) != x {
        assert !HasKey(rest, key, key(s[0])) by {
          forall j | 0 <= j < |rest| ensures key(rest[j]) != key(s[0]) {
            assert rest[j] in t;
          }
        }
        PrependUnique(s[0], rest, key);
        assert DropKey(s, key, x) == [s[0]] + rest;
      } else {
        assert DropKey(s, key, x) == rest;
      }
    }
  }

  /** With unique keys, filtering a key held at index `i` drops exactly that slot. */
  lemma DropKeyAt<T>(s: seq<T>, key: T -> Id, i: nat)
    requires UniqueKeys(s, key) && i < |s|
    ensures DropKey(s, key, key(s[i])) == s[..i] + s[i + 1..]
  {
    var x, before, after := key(s[i]), s[..i], s[i + 1..];
    var ks := Keys(s, key);
    assert !HasKey(before, key, x) by {
      forall k | 0 <= k < |before| ensures key(before[k]) != x { assert before[k] == s[k] && ks[k] != ks[i]; }
    }
    assert !HasKey(after, key, x) by {
      forall k | 0 <= k < |after| ensures key(after[k]) != x { assert after[k] == s[i + 1 + k] && ks[i] != ks[i + 1 + k]; }
    }
    DropKeySlot(before, s[i], after, key);
    SplitAt(s, i);
  }

  /** Filtering the key of `e` out of a list that has it only at `e` drops that slot. */
  lemma DropKeySlot<T>(before: seq<T>, e: T, after: seq<T>, key: T -> Id)
    requires !HasKey(before, key, key(e)) && !HasKey(after, key, key(e))
    ensures DropKey(before + ([e] + after), key, key(e)) == before + after
  {
    var x := key(e);
    calc {
      DropKey(before + ([e] + after), key, x);
      { DropKeyAppend(before, [e] + after, key, x); }
      DropKey(before, key, x) + DropKey([e] + after, key, x);
      { DropKeyAppend([e], after, key, x); }
      DropKey(before, key, x) + (DropKey([e], key, x) + DropKey(after, key, x));
      { DropKeyAbsent(before, key, x); DropKeyAbsent(after, key, x); assert DropKey([e], key, x) == []; }
      before + ([] + after);
      { assert [] + after == after; }
      before + after;
    }
  }

  /** `s.find(e => key(e) === x)`: the first record with key `x`, if any. */
  function FindKey<T(==)>(s: seq<T>, key: T -> Id, x: Id): (r: Option<T>)
    ensures r.Some? <==> HasKey(s, key, x)
    ensures r.Some? ==> exists i :: 0 <= i < |s| && s[i] == r.value && key(s[i]) == x
                                   && forall j :: 0 <= j < i ==> key(s[j]) != x
  {
    if s == [] then None
    else if key(s[0]) == x then Some(s[0])
    else
      var r := FindKey(s[1..], key, x);
      assert HasKey(s[1..], key, x) ==> HasKey(s, key, x) by {
        if HasKey(s[1..], key, x) {
          var k :| 0 <= k < |s| - 1 && key(s[1..][k]) == x;
          assert s[k + 1] == s[1..][k];
        }
      }
      assert HasKey(s, key, x) ==> HasKey(s[1..], key, x) by {
        if HasKey(s, key, x) {
          var k :| 0 <= k < |s| && key(s[k]) == x;
          assert s[1..][k - 1] == s[k];
        }
      }
      if r.Some? then
        var i :| 0 <= i < |s| - 1 && s[1..][i] == r.value && key(s[1..][i]) == x
                 && forall j :: 0 <= j < i ==> key(s[1..][j]) != x;
        assert s[i + 1] == r.value;
        assert forall j :: 1 <= j < i + 1 ==> s[j] == s[1..][j - 1];
        r
      else r
  }

  /** Taking the record at index `i` to the front of a list with unique keys keeps every record once. */
  lemma FrontAt<T>(s: seq<T>, key: T -> Id, i: nat)
    requires UniqueKeys(s, key) && i < |s|
    ensures var r := [s[i]] + (s[..i] + s[i + 1..]);
            multiset(r) == multiset(s) && UniqueKeys(r, key)
  {
    FrontAtSameRecords(s, i);
    FrontAtKeys(s, key, i);
  }

  /** Moving the record at `i` to the front is a permutation. */
  lemma FrontAtSameRecords<T>(s: seq<T>, i: nat)
    requires i < |s|
    ensures multiset([s[i]] + (s[..i] + s[i + 1..])) == multiset(s)
  {
    assert s == s[..i] + [s[i]] + s[i + 1..];
  }

  /** Moving the record at `i` to the front keeps the keys unique. */
  lemma FrontAtKeys<T>(s: seq<T>, key: T -> Id, i: nat)
    requires UniqueKeys(s, key) && i < |s|
    ensures UniqueKeys([s[i]] + (s[..i] + s[i + 1..]), key)
  {
    var r := [s[i]] + (s[..i] + s[i + 1..]);
    var ks := Keys(s, key);
    var kr := Keys(r, key);
    forall a, b | 0 <= a < b < |kr| ensures kr[a] != kr[b] {
      var ia := if a == 0 then i else if a - 1 < i then a - 1 else a;
      var ib := if b - 1 < i then b - 1 else b;
      assert r[a] == s[ia] && r[b] == s[ib];
      assert kr[a] == ks[ia] && kr[b] == ks[ib];
    }
  }

  /** A record whose key the list lacks can go in front without breaking uniqueness. */
  lemma PrependUnique<T>(x: T, s: seq<T>, key: T -> Id)
    requires UniqueKeys(s, key) && !HasKey(s, key, key(x))
    ensures UniqueKeys([x] + s, key)
  {
    var r := [x] + s;
    var kr := Keys(r, key);
    var ks := Keys(s, key);
    forall a, b | 0 <= a < b < |kr| ensures kr[a] != kr[b] {
      assert kr[b] == ks[b - 1];
      if a > 0 {
        assert kr[a] == ks[a - 1];
      }
    }
  }
}
