/**
 * Room naming: a user's personal room is named by the user id, and a
 * conversation room by the two ids sorted and joined with "-". The server's
 * socket layer, the message controller and the chat page all compute the
 * pair name the same way.
 */
module Rooms {
  import Text

  /** JavaScript's default string order (`a < b`), compared one character at a time. */
  predicate Below(a: string, b: string) {
    if |a| == 0 then |b| > 0
    else |b| > 0 && (a[0] < b[0] || (a[0] == b[0] && Below(a[1..], b[1..])))
  }

  /** The order is strict and total: of two different strings exactly one sorts first. */
  lemma {:induction false} BelowTrichotomy(a: string, b: string)
    ensures a == b <==> !Below(a, b) && !Below(b, a)
    ensures !(Below(a, b) && Below(b, a))
  {
    if |a| > 0 && |b| > 0 {
      BelowTrichotomy(a[1..], b[1..]);
      if a[0] == b[0] && a[1..] == b[1..] {
        assert a == [a[0]] + a[1..] && b == [b[0]] + b[1..];
      }
    }
  }

  /** `[a, b].sort()`: the stable default sort swaps the pair only when the second sorts first. */
  function SortPair(a: string, b: string): (r: (string, string))
    ensures !Below(r.1, r.0)
    ensures (r.0 == a && r.1 == b) || (r.0 == b && r.1 == a)
  {
    if Below(b, a) then
      BelowTrichotomy(a, b);
      (b, a)
    else (a, b)
  }

  /** `[a, b].sort().join("-")`. */
  function PairRoom(a: string, b: string): string {
    var p := SortPair(a, b);
    p.0 + "-" + p.1
  }

  /** Both participants compute the same room name. */
  lemma PairRoomCommutes(a: string, b: string)
    ensures PairRoom(a, b) == PairRoom(b, a)
  {
    BelowTrichotomy(a, b);
  }

  /** For ids without "-" (ObjectIds are hex), the room name determines the pair. */
  lemma PairRoomDeterminesPair(a: string, b: string, c: string, d: string)
    requires '-' !in a && '-' !in b && '-' !in c && '-' !in d
    requires PairRoom(a, b) == PairRoom(c, d)
    ensures (a == c && b == d) || (a == d && b == c)
  {
    var p, q := SortPair(a, b), SortPair(c, d);
    SplitsIntoPair(p.0, p.1);
    SplitsIntoPair(q.0, q.1);
  }

  lemma SplitsIntoPair(lo: string, hi: string)
    requires '-' !in lo && '-' !in hi
    ensures Text.Split(lo + "-" + hi, '-') == [lo, hi]
  {
    Text.SplitAround(lo, '-', hi);
    Text.SplitFree(lo, '-');
    Text.SplitFree(hi, '-');
  }

  /** A conversation room never collides with a personal room named by a dash-free id. */
  lemma PairRoomNotPersonal(a: string, b: string, userId: string)
    requires '-' !in userId
    ensures PairRoom(a, b) != userId
  {
    var p := SortPair(a, b);
    assert (p.0 + "-" + p.1)[|p.0|] == '-';
  }
}
