/** `level_stash`: the priority levels in use, kept in an array with `lstash_ptr` entries. A stash here has one entry
    more than the array: the byte of memory behind it, which the code reads, and writes, when the array is full. */
module LevelStash {

  /** Level 0 first, strictly increasing, and zero from n on; nothing is said of the byte behind. */
  ghost predicate Sorted(a: seq<nat>, n: nat) {
    && 0 < n < |a| && a[0] == 0
    && (forall i, j :: 0 <= i < j < n ==> a[i] < a[j])
    && (forall i :: n <= i < |a| - 1 ==> a[i] == 0)
  }

  /** Every entry of the array lists a level. */
  predicate Full(a: seq<nat>, n: nat) { n == |a| - 1 }

  predicate Listed(a: seq<nat>, n: nat, p: nat)
    requires n <= |a|
  {
    p in a[..n]
  }

  datatype Probe = Found | Missing(last: nat)

  /** The binary search of task creation on a[lo..hi], both ends included; `last` is the index probed last.
      Its upper end starts at n itself, one past the listed levels. */
  function Search(a: seq<nat>, p: nat, lo: nat, hi: int, last: nat): (r: Probe)
    requires hi < |a|
    decreases hi - lo + 1
  {
    if lo > hi then Missing(last)
    else
      var m := lo + (hi - lo) / 2;
      if a[m] == p then Found
      else if a[m] < p then Search(a, p, m + 1, hi, m)
      else Search(a, p, lo, m - 1, m)
  }

  /** The number of levels below p: where p belongs. */
  function Rank(a: seq<nat>, n: nat, p: nat): (r: nat)
    requires n <= |a|
    ensures r <= n
  {
    if n == 0 then 0 else if a[n - 1] < p then n else Rank(a, n - 1, p)
  }

  lemma {:induction false} RankSplits(a: seq<nat>, n: nat, p: nat)
    requires n <= |a| && (forall i, j :: 0 <= i < j < n ==> a[i] < a[j])
    ensures var r := Rank(a, n, p);
            && (forall i :: 0 <= i < r ==> a[i] < p)
            && (forall i :: r <= i < n ==> p <= a[i])
  {
    if n > 0 && p <= a[n - 1] {
      RankSplits(a, n - 1, p);
    }
  }

  /** Is x a leaf of the midpoint tree the search descends on lo..hi? */
  predicate Leaf(lo: int, hi: int, x: int)
    decreases hi - lo + 1
  {
    if lo > hi then false
    else
      var m := lo + (hi - lo) / 2;
      if x == m then lo == hi else if x < m then Leaf(lo, m - 1, x) else Leaf(m + 1, hi, x)
  }

  /** The midpoint rounds down, so the rightmost index of a range has nothing below it. */
  lemma {:induction false} RightmostIsLeaf(lo: int, hi: int)
    requires lo <= hi
    ensures Leaf(lo, hi, hi)
    decreases hi - lo
  {
    if lo < hi {
      RightmostIsLeaf(lo + (hi - lo) / 2 + 1, hi);
    }
  }

  /** Next to it there is no other leaf. */
  lemma {:induction false} OneBelowIsNoLeaf(lo: int, hi: int)
    requires lo < hi
    ensures !Leaf(lo, hi, hi - 1)
    decreases hi - lo
  {
    var m := lo + (hi - lo) / 2;
    if m < hi - 1 {
      OneBelowIsNoLeaf(m + 1, hi);
    }
  }

  /** What the search ends on when a[lo..q) is below p and a[q..hi) is above it. */
  lemma {:induction false} SearchEnds(a: seq<nat>, p: nat, lo: nat, hi: int, last: nat, q: nat)
    requires hi < |a| && lo <= q <= hi + 1 && lo <= hi
    requires forall i :: lo <= i < q ==> a[i] < p
    requires forall i :: q <= i < hi ==> p < a[i]
    requires q == hi ==> p < a[hi]
    ensures Search(a, p, lo, hi, last) ==
            Missing(if q > hi then q - 1
                    else if q > lo && Leaf(lo, hi, q - 1) then q - 1
                    else q)
    decreases hi - lo
  {
    var m := lo + (hi - lo) / 2;
    if a[m] < p {
      if m + 1 <= hi {
        SearchEnds(a, p, m + 1, hi, m, q);
      }
    } else if lo <= m - 1 {
      SearchEnds(a, p, lo, m - 1, m, q);
      RightmostIsLeaf(lo, m - 1);
    }
  }

  /** A listed level is found. */
  lemma {:induction false} SearchFinds(a: seq<nat>, p: nat, n: nat, lo: nat, hi: int, last: nat, x: nat)
    requires lo <= x <= hi <= n < |a| && x < n && a[x] == p && Sorted(a, n)
    ensures Search(a, p, lo, hi, last) == Found
    decreases hi - lo
  {
    var m := lo + (hi - lo) / 2;
    if a[m] != p {
      if a[m] < p { SearchFinds(a, p, n, m + 1, hi, m, x); } else { SearchFinds(a, p, n, lo, m - 1, m, x); }
    }
  }

  /** The index creation inserts at: the place of p, or exactly one below it. */
  predicate Misplaced(a: seq<nat>, n: nat, p: nat)
    requires n <= |a|
  {
    var q := Rank(a, n, p);
    q < n && Leaf(0, n, q - 1)
  }

  /** The search of a full array for a level above all of its own takes the byte behind for one. */
  predicate Mistaken(a: seq<nat>, n: nat, p: nat)
    requires n < |a|
  {
    Full(a, n) && !Listed(a, n, p) && Rank(a, n, p) == n && a[n] == p
  }

  lemma SearchResult(a: seq<nat>, n: nat, p: nat)
    requires Sorted(a, n)
    ensures Listed(a, n, p) || Mistaken(a, n, p) ==> Search(a, p, 0, n, 0) == Found
    ensures !Listed(a, n, p) && !Mistaken(a, n, p) ==>
              var q := Rank(a, n, p);
              0 < q && Search(a, p, 0, n, 0) == Missing(if Misplaced(a, n, p) then q - 1 else q)
  {
    if Listed(a, n, p) {
      var x :| 0 <= x < n && a[..n][x] == p;
      SearchFinds(a, p, n, 0, n, 0, x);
    } else {
      RankSplits(a, n, p);
      var q := Rank(a, n, p);
      assert a[..n][0] == 0;
      forall i | q <= i < n ensures p < a[i] {
        assert a[i] == a[..n][i];
      }
      if q < n || a[n] != p {
        SearchEnds(a, p, 0, n, 0, if q == n && a[n] < p then n + 1 else q);
        OneBelowIsNoLeaf(0, n);
      } else {
        SearchLast(a, p, 0, n, 0);
      }
    }
  }

  /** A level above all others of the range is looked for at its end. */
  lemma {:induction false} SearchLast(a: seq<nat>, p: nat, lo: nat, hi: nat, last: nat)
    requires lo <= hi < |a| && a[hi] == p && forall i :: lo <= i < hi ==> a[i] < p
    ensures Search(a, p, lo, hi, last) == Found && Probes(a, p, lo, hi, hi)
    decreases hi - lo
  {
    var m := lo + (hi - lo) / 2;
    if m < hi {
      SearchLast(a, p, m + 1, hi, m);
    }
  }

  // ----- the byte behind the array

  /** Does the search look at entry x? */
  predicate Probes(a: seq<nat>, p: nat, lo: nat, hi: int, x: nat)
    requires hi < |a|
    decreases hi - lo + 1
  {
    lo <= hi &&
    (var m := lo + (hi - lo) / 2;
     || m == x
     || (a[m] < p && Probes(a, p, m + 1, hi, x))
     || (p < a[m] && Probes(a, p, lo, m - 1, x)))
  }

  /** Does creation read or write the byte behind the array? It reads what it probes, and writes every entry from the
      last one probed to the one behind the listed levels. */
  predicate Trespasses(a: seq<nat>, n: nat, p: nat)
    requires n < |a|
  {
    Probes(a, p, 0, n, |a| - 1) || (Search(a, p, 0, n, 0).Missing? && n == |a| - 1)
  }

  lemma {:induction false} ProbesWithin(a: seq<nat>, p: nat, lo: nat, hi: int, x: nat)
    requires hi < |a| && hi < x
    ensures !Probes(a, p, lo, hi, x)
    decreases hi - lo + 1
  {
    if lo <= hi {
      var m := lo + (hi - lo) / 2;
      ProbesWithin(a, p, m + 1, hi, x);
      if p < a[m] { ProbesWithin(a, p, lo, m - 1, x); }
    }
  }

  lemma {:induction false} ListedNotBehind(a: seq<nat>, n: nat, p: nat, lo: nat, hi: int, x: nat)
    requires lo <= x <= hi <= n < |a| && x < n && a[x] == p && forall i, j :: 0 <= i < j < n ==> a[i] < a[j]
    ensures !Probes(a, p, lo, hi, n)
    decreases hi - lo
  {
    var m := lo + (hi - lo) / 2;
    if a[m] < p {
      ListedNotBehind(a, n, p, m + 1, hi, x);
    } else if p < a[m] {
      ListedNotBehind(a, n, p, lo, m - 1, x);
    }
  }

  /** Creation leaves the byte behind the array alone if and only if the array is not full or the level is listed. */
  lemma StaysInside(a: seq<nat>, n: nat, p: nat)
    requires Sorted(a, n)
    ensures !Trespasses(a, n, p) <==> !Full(a, n) || Listed(a, n, p)
  {
    SearchResult(a, n, p);
    if !Full(a, n) {
      ProbesWithin(a, p, 0, n, |a| - 1);
    } else if Listed(a, n, p) {
      var x :| 0 <= x < n && a[..n][x] == p;
      ListedNotBehind(a, n, p, 0, n, x);
    } else if Mistaken(a, n, p) {
      RankSplits(a, n, p);
      SearchLast(a, p, 0, n, 0);
    }
  }

  // ----- insertion

  /** Shift a[s..n) up by one and put p at s. */
  function Insert(a: seq<nat>, n: nat, s: nat, p: nat): (r: seq<nat>)
    requires s <= n < |a|
    ensures |r| == |a|
  {
    a[..s] + [p] + a[s..n] + a[n + 1..]
  }

  /** The stash after creation has searched for p and inserted it at the index probed last. */
  function Added(a: seq<nat>, n: nat, p: nat): (r: (seq<nat>, nat))
    requires n < |a|
    requires Search(a, p, 0, n, 0).Missing? ==> Search(a, p, 0, n, 0).last <= n
    ensures |r.0| == |a|
  {
    match Search(a, p, 0, n, 0)
    case Found => (a, n)
    case Missing(s) => (Insert(a, n, s, p), n + 1)
  }

  /** Where the search lands is at most the entry behind the listed levels. */
  lemma SearchSafe(a: seq<nat>, n: nat, p: nat)
    requires Sorted(a, n)
    ensures Search(a, p, 0, n, 0).Missing? ==> Search(a, p, 0, n, 0).last <= n
  {
    SearchResult(a, n, p);
  }

  /** Inserting p at its place keeps the order. */
  lemma InsertInPlace(a: seq<nat>, n: nat, q: nat, p: nat)
    requires Sorted(a, n) && 0 < q <= n && !Full(a, n)
    requires forall i :: 0 <= i < q ==> a[i] < p
    requires forall i :: q <= i < n ==> p < a[i]
    ensures Sorted(Insert(a, n, q, p), n + 1)
  {
    var b := Insert(a, n, q, p);
    assert forall i :: 0 <= i < q ==> b[i] == a[i];
    assert b[q] == p;
    assert forall i :: q < i <= n ==> b[i] == a[i - 1];
    assert forall i :: n < i < |a| ==> b[i] == a[i];
  }

  lemma InsertLists(a: seq<nat>, n: nat, s: nat, p: nat)
    requires s <= n < |a|
    ensures forall x :: x in Insert(a, n, s, p)[..n + 1] <==> x in a[..n] || x == p
  {
    assert Insert(a, n, s, p)[..n + 1] == a[..s] + [p] + a[s..n];
    assert a[..n] == a[..s] + a[s..n];
  }

  /** With room in the array, creation lists p and keeps the rest. */
  lemma AddLists(a: seq<nat>, n: nat, p: nat)
    requires Sorted(a, n) && (Listed(a, n, p) || !Full(a, n))
    ensures Search(a, p, 0, n, 0).Missing? ==> Search(a, p, 0, n, 0).last <= n
    ensures var (b, m) := Added(a, n, p);
            m <= |b| && forall x :: x in b[..m] <==> x in a[..n] || x == p
  {
    SearchResult(a, n, p);
    if !Listed(a, n, p) {
      var q := Rank(a, n, p);
      InsertLists(a, n, if Misplaced(a, n, p) then q - 1 else q, p);
    }
  }

  /** Creation lists p, keeps the rest and keeps the stash sorted if and only if p was listed, or the array is not full
      and p is above every listed level or the slot below its place is not a leaf of the search. */
  lemma AddKeepsSorted(a: seq<nat>, n: nat, p: nat)
    requires Sorted(a, n)
    ensures Search(a, p, 0, n, 0).Missing? ==> Search(a, p, 0, n, 0).last <= n
    ensures var (b, m) := Added(a, n, p);
            && m <= |b|
            && (Sorted(b, m) && p in b[..m] <==> Listed(a, n, p) || (!Full(a, n) && !Misplaced(a, n, p)))
  {
    SearchResult(a, n, p);
    if Listed(a, n, p) || !Full(a, n) { AddLists(a, n, p); }
    if !Listed(a, n, p) && !Full(a, n) {
      RankSplits(a, n, p);
      var q := Rank(a, n, p);
      var s := if Misplaced(a, n, p) then q - 1 else q;
      if Misplaced(a, n, p) {
        var b := Insert(a, n, s, p);
        assert b[s] == p && b[s + 1] == a[s] < p;
      } else {
        forall i | q <= i < n ensures p < a[i] {
          assert a[i] == a[..n][i];
        }
        InsertInPlace(a, n, q, p);
      }
    }
  }

  /** The stash [0, 5] plus level 3 becomes [3, 0, 5]. */
  lemma MisplacedExample()
    ensures Sorted([0, 5, 0, 0], 2) && !Full([0, 5, 0, 0], 2)
    ensures Search([0, 5, 0, 0], 3, 0, 2, 0) == Missing(0)
    ensures Added([0, 5, 0, 0], 2, 3) == ([3, 0, 5, 0], 3)
    ensures !Sorted([3, 0, 5, 0], 3)
  {
    var a: seq<nat> := [0, 5, 0, 0];
    assert Search(a, 3, 0, 2, 0) == Search(a, 3, 0, 0, 1) == Search(a, 3, 1, 0, 0);
    assert Insert(a, 2, 0, 3) == [3, 0, 5, 0];
    var b: seq<nat> := [3, 0, 5, 0];
    assert b[0] != 0;
  }

  /** The stash after a kill has shifted out level p: everything after p moves down by one. */
  function Removed(a: seq<nat>, n: nat, p: nat): (r: seq<nat>)
    requires n < |a|
    ensures |r| == |a|
  {
    if Listed(a, n, p) then
      var x := IndexOf(a, n, p);
      a[..x] + a[x + 1..n + 1] + a[n..]
    else a
  }

  function IndexOf(a: seq<nat>, n: nat, p: nat): (x: nat)
    requires n <= |a| && Listed(a, n, p)
    ensures x < n && a[x] == p && forall i :: 0 <= i < x ==> a[i] != p
  {
    if Listed(a, n - 1, p) then IndexOf(a, n - 1, p)
    else
      assert forall i :: 0 <= i < n - 1 ==> a[i] == a[..n - 1][i];
      assert forall i :: 0 <= i < n ==> a[i] == a[..n][i];
      n - 1
  }

  lemma RemoveInPlace(a: seq<nat>, n: nat, x: nat)
    requires Sorted(a, n) && 0 < x < n
    ensures Sorted(a[..x] + a[x + 1..n + 1] + a[n..], n - 1) <==> !Full(a, n) || a[n] == 0
  {
    var b := a[..x] + a[x + 1..n + 1] + a[n..];
    assert forall i :: 0 <= i < x ==> b[i] == a[i];
    assert forall i :: x <= i < n ==> b[i] == a[i + 1];
    assert forall i :: n <= i < |a| ==> b[i] == a[i];
    assert b[n - 1] == a[n];
  }

  lemma RemoveLists(a: seq<nat>, n: nat, x: nat, y: nat)
    requires Sorted(a, n) && x < n
    ensures y in (a[..x] + a[x + 1..n + 1] + a[n..])[..n - 1] <==> y in a[..n] && y != a[x]
  {
    var b := a[..x] + a[x + 1..n + 1] + a[n..];
    assert forall i :: 0 <= i < x ==> b[i] == a[i];
    assert forall i :: x <= i < n - 1 ==> b[i] == a[i + 1];
    if y in a[..n] && y != a[x] {
      var i :| 0 <= i < n && a[i] == y;
      assert b[..n - 1][if i < x then i else i - 1] == y;
    }
    if y in b[..n - 1] {
      var i :| 0 <= i < n - 1 && b[..n - 1][i] == y;
      assert a[..n][if i < x then i else i + 1] == y;
    }
  }

  /** Removing a listed level other than 0 drops exactly that level. It moves the byte behind a full array into it, so
      the stash stays sorted if and only if the array was not full or that byte is 0. */
  lemma RemoveKeepsSorted(a: seq<nat>, n: nat, p: nat)
    requires Sorted(a, n) && p > 0 && Listed(a, n, p)
    ensures Sorted(Removed(a, n, p), n - 1) <==> !Full(a, n) || a[n] == 0
    ensures forall x :: x in Removed(a, n, p)[..n - 1] <==> x in a[..n] && x != p
  {
    var x := IndexOf(a, n, p);
    RemoveInPlace(a, n, x);
    assert Removed(a, n, p) == a[..x] + a[x + 1..n + 1] + a[n..];
    hide Removed, Sorted;
    forall y ensures y in Removed(a, n, p)[..n - 1] <==> y in a[..n] && y != p {
      RemoveLists(a, n, x, y);
    }
  }
}
