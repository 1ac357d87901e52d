/**
 * Lists of ids with set-like updates, as both tiers write them: MongoDB's
 * `$pull`/`$addToSet`/`$push` on the server and `filter`/spread on the client.
 */
module IdLists {

  /** A document id (a hex ObjectId string) or any other compared-by-value key. */
  type Id = string

  /** No element occurs twice. */
  predicate NoDup(s: seq<Id>) {
    forall i, j :: 0 <= i < j < |s| ==> s[i] != s[j]
  }

  /** `s.filter(y => y !== x)`, and MongoDB's `$pull`: every occurrence of `x` goes. */
  function Without(s: seq<Id>, x: Id): (r: seq<Id>)
    ensures forall y :: y in r <==> y in s && y != x
    ensures multiset(r) == multiset(s)[x := 0]
  {
    if s == [] then []
    else
      assert s == [s[0]] + s[1..];
      (if s[0] == x then [] else [s[0]]) + Without(s[1..], x)
  }

  /** Removing from a concatenation removes from each side: the kept elements keep their order. */
  lemma {:induction false} WithoutAppend(a: seq<Id>, b: seq<Id>, x: Id)
    ensures Without(a + b, x) == Without(a, x) + Without(b, x)
  {
    if a == [] {
      assert a + b == b;
    } else {
      var head := if a[0] == x then [] else [a[0]];
      calc {
        Without(a + b, x);
        { assert (a + b)[0] == a[0] && (a + b)[1..] == a[1..] + b; }
        head + Without(a[1..] + b, x);
        { WithoutAppend(a[1..], b, x); }
        head + (Without(a[1..], x) + Without(b, x));
        (head + Without(a[1..], x)) + Without(b, x);
      }
    }
  }

  /** A list without `x` is left as it is. */
  lemma {:induction false} WithoutAbsent(s: seq<Id>, x: Id)
    requires x !in s
    ensures Without(s, x) == s
  {
    if s != [] {
      WithoutAbsent(s[1..], x);
    }
  }

  /** In a duplicate-free list, removing `x` found at index `i` drops exactly that slot. */
  lemma WithoutAt(s: seq<Id>, i: nat)
    requires NoDup(s) && i < |s|
    ensures Without(s, s[i]) == s[..i] + s[i + 1..]
  {
    OnlySlot(s, i);
    WithoutSlot(s[..i], s[i], s[i + 1..]);
    SplitAt(s, i);
  }

  /** A list is what comes before index `i`, the element at `i`, and what comes after. */
  lemma SplitAt<T>(s: seq<T>, i: nat)
    requires i < |s|
    ensures s == s[..i] + ([s[i]] + s[i + 1..])
  {
  }

  /** In a duplicate-free list the element at `i` occurs neither before nor after `i`. */
  lemma OnlySlot(s: seq<Id>, i: nat)
    requires NoDup(s) && i < |s|
    ensures s[i] !in s[..i] && s[i] !in s[i + 1..]
  {
    var before, after := s[..i], s[i + 1..];
    forall k | 0 <= k < |before| ensures before[k] != s[i] { assert before[k] == s[k]; }
    forall k | 0 <= k < |after| ensures after[k] != s[i] { assert after[k] == s[i + 1 + k]; }
  }

  /** Removing `x` from a list that holds it in one slot only drops that slot. */
  lemma WithoutSlot(before: seq<Id>, x: Id, after: seq<Id>)
    requires x !in before && x !in after
    ensures Without(before + ([x] + after), x) == before + after
  {
    calc {
      Without(before + ([x] + after), x);
      { WithoutAppend(before, [x] + after, x); }
      Without(before, x) + Without([x] + after, x);
      { WithoutAppend([x], after, x); }
      Without(before, x) + (Without([x], x) + Without(after, x));
      { WithoutAbsent(before, x); WithoutAbsent(after, x); assert Without([x], x) == []; }
      before + ([] + after);
      { assert [] + after == after; }
      before + after;
    }
  }

  /** Removing keeps a duplicate-free list duplicate-free. */
  lemma {:induction false} WithoutNoDup(s: seq<Id>, x: Id)
    requires NoDup(s)
    ensures NoDup(Without(s, x))
  {
    if s != [] {
      WithoutNoDup(s[1..], x);
      assert s[0] !in s[1..];
    }
  }

  /** MongoDB's `$addToSet`: append `x` unless it is already there. */
  function AddToSet(s: seq<Id>, x: Id): (r: seq<Id>)
    ensures x in r
    ensures forall y :: y in r <==> y in s || y == x
    ensures s <= r && |r| <= |s| + 1
    ensures NoDup(s) ==> NoDup(r)
    ensures x in s ==> r == s
  {
    if x in s then s else s + [x]
  }

  /**
   * The client's toggle: with `present` set, filter `x` out; otherwise append
   * it. `present` is the caller's belief that `x` is in `s`, which the source
   * keeps in a separate flag.
   */
  function Toggle(s: seq<Id>, present: bool, x: Id): seq<Id> {
    if present then Without(s, x) else s + [x]
  }

  /** When the flag is right, the toggle flips the membership of `x` and of nothing else. */
  lemma ToggleFlips(s: seq<Id>, x: Id)
    ensures (x in Toggle(s, x in s, x)) == (x !in s)
    ensures forall y :: y != x ==> (y in Toggle(s, x in s, x) <==> y in s)
  {
  }

  /** A correct toggle keeps a duplicate-free list duplicate-free. */
  lemma ToggleNoDup(s: seq<Id>, x: Id)
    requires NoDup(s)
    ensures NoDup(Toggle(s, x in s, x))
  {
    if x in s {
      WithoutNoDup(s, x);
    }
  }

  /** Two correct toggles restore the list up to order, and exactly when `x` started outside it. */
  lemma ToggleTwice(s: seq<Id>, x: Id)
    requires NoDup(s)
    ensures var once := Toggle(s, x in s, x);
            var twice := Toggle(once, x in once, x);
            multiset(twice) == multiset(s) && (x !in s ==> twice == s)
  {
    if x in s {
      var once := Without(s, x);
      OnceInNoDup(s, x);
      var m := multiset(s);
      assert multiset(once + [x]) == m[x := 0] + multiset{x};
      assert m[x := 0] + multiset{x} == m;
    } else {
      WithoutAppend(s, [x], x);
      WithoutAbsent(s, x);
      assert Without([x], x) == [];
    }
  }

  /** A duplicate-free list holds each of its elements exactly once. */
  lemma {:induction false} OnceInNoDup(s: seq<Id>, x: Id)
    requires NoDup(s) && x in s
    ensures multiset(s)[x] == 1
  {
    assert s == [s[0]] + s[1..];
    if s[0] == x {
      assert x !in s[1..] by {
        forall k | 0 <= k < |s| - 1 ensures s[1..][k] != x { assert s[1..][k] == s[k + 1]; }
      }
    } else {
      OnceInNoDup(s[1..], x);
    }
  }
}
