/** The availability pool's ordering, as pure functions on the sequence of pooled drivers:
    the sort order, where `addDriver`'s shifting loop puts a new driver, and what the
    insertion does to the pool. */
module Pool {
  import opened Int32
  import opened Model

  /** Sorted by experience, descending: no driver has more experience than one before it. */
  predicate SortedDesc(s: seq<Driver>)
  {
    forall i, j :: 0 <= i < j < |s| ==> s[i].experienceYears >= s[j].experienceYears
  }

  /** The slot the shifting loop vacates for a driver with experience `e`: scanning from the
      tail, it passes every entry with strictly less experience and stops at the first one with
      at least `e` (or at the head). */
  function Position(s: seq<Driver>, e: int32): (k: nat)
    ensures k <= |s|
    ensures forall j :: k <= j < |s| ==> s[j].experienceYears < e
    ensures k > 0 ==> s[k - 1].experienceYears >= e
  {
    if s == [] || s[|s| - 1].experienceYears >= e then |s|
    else Position(s[..|s| - 1], e)
  }

  /** The pool after inserting `d`: the entries before its slot, then `d`, then the shifted ones. */
  function Insert(s: seq<Driver>, d: Driver): (r: seq<Driver>)
  {
    var k := Position(s, d.experienceYears);
    s[..k] + [d] + s[k..]
  }

  /** The sequence with the entry at `k` taken out. */
  function RemoveAt(s: seq<Driver>, k: nat): seq<Driver>
    requires k < |s|
  {
    s[..k] + s[k + 1..]
  }

  /** The stopping facts of the loop determine the slot: any `k` at which the loop would stop
      is `Position(s, e)`. */
  lemma PositionUnique(s: seq<Driver>, e: int32, k: nat)
    requires k <= |s|
    requires forall j :: k <= j < |s| ==> s[j].experienceYears < e
    requires k > 0 ==> s[k - 1].experienceYears >= e
    ensures Position(s, e) == k
  {
  }

  /** A sequence that agrees with `s` before the slot, holds `d` in the slot and the shifted
      entries after it, is the insertion of `d` into `s`. */
  lemma InsertShape(s: seq<Driver>, d: Driver, t: seq<Driver>)
    requires |t| == |s| + 1
    requires forall j :: 0 <= j < Position(s, d.experienceYears) ==> t[j] == s[j]
    requires t[Position(s, d.experienceYears)] == d
    requires forall j :: Position(s, d.experienceYears) < j < |t| ==> t[j] == s[j - 1]
    ensures t == Insert(s, d)
  {
  }

  /** Tie order: in a sorted pool, an old entry stays ahead of the new driver exactly when its
      experience is at least the new driver's. Equal experience therefore keeps the earlier
      entry first, and the new driver lands last among its equals. */
  lemma {:induction false} InsertTieOrder(s: seq<Driver>, d: Driver)
    requires SortedDesc(s)
    ensures forall j :: 0 <= j < |s| ==>
      (j < Position(s, d.experienceYears) <==> s[j].experienceYears >= d.experienceYears)
  {
    var k := Position(s, d.experienceYears);
    forall j | 0 <= j < |s|
      ensures j < k <==> s[j].experienceYears >= d.experienceYears
    {
      if j < k {
        assert s[j].experienceYears >= s[k - 1].experienceYears;
      }
    }
  }

  /** Inserting into a sorted pool keeps it sorted and makes it one longer. */
  lemma {:induction false} InsertKeepsSorted(s: seq<Driver>, d: Driver)
    requires SortedDesc(s)
    ensures |Insert(s, d)| == |s| + 1
    ensures SortedDesc(Insert(s, d))
  {
    var k := Position(s, d.experienceYears);
    var r := Insert(s, d);
    InsertTieOrder(s, d);
    assert forall j :: 0 <= j < k ==> r[j] == s[j];
    assert r[k] == d;
    assert forall j :: k < j < |r| ==> r[j] == s[j - 1];
    forall i, j | 0 <= i < j < |r|
      ensures r[i].experienceYears >= r[j].experienceYears
    {
      if j < k || i > k {
      } else if i == k {
        assert r[j] == s[j - 1];
      } else if j == k {
        assert r[i] == s[i];
      } else {
        assert r[i] == s[i] && r[j] == s[j - 1];
      }
    }
  }

  /** Insertion is a permutation that adds exactly `d`: no entry is lost or duplicated, and
      taking `d` out of its slot again gives back the old pool in its old order. */
  lemma InsertIsPermutation(s: seq<Driver>, d: Driver)
    ensures multiset(Insert(s, d)) == multiset(s) + multiset{d}
    ensures Position(s, d.experienceYears) < |Insert(s, d)|
    ensures Insert(s, d)[Position(s, d.experienceYears)] == d
    ensures RemoveAt(Insert(s, d), Position(s, d.experienceYears)) == s
  {
    var k := Position(s, d.experienceYears);
    var r := Insert(s, d);
    assert s == s[..k] + s[k..];
    assert r[..k] == s[..k];
    assert r[k + 1..] == s[k..];
  }

  /** Every member of the new pool is an old member or the new driver. */
  lemma InsertMembers(s: seq<Driver>, d: Driver)
    ensures forall x :: x in Insert(s, d) ==> x in s || x == d
  {
    InsertIsPermutation(s, d);
    forall x | x in Insert(s, d) ensures x in s || x == d {
      assert x in multiset(Insert(s, d));
    }
  }

  /** Removing the tail of a sorted pool leaves it sorted. */
  lemma PopKeepsSorted(s: seq<Driver>)
    requires SortedDesc(s) && s != []
    ensures SortedDesc(s[..|s| - 1])
  {
  }

  /** The tail of a sorted pool has the least experience in it. */
  lemma {:induction false} TailIsLeastExperienced(s: seq<Driver>)
    requires SortedDesc(s) && s != []
    ensures forall j :: 0 <= j < |s| ==> s[|s| - 1].experienceYears <= s[j].experienceYears
  {
  }

  /** A driver with no more experience than anyone in the pool goes to the tail, so the next
      assignment takes the most recently registered of the least experienced drivers. */
  lemma InsertLeastGoesToTail(s: seq<Driver>, d: Driver)
    requires forall j :: 0 <= j < |s| ==> s[j].experienceYears >= d.experienceYears
    ensures Insert(s, d) == s + [d]
  {
    assert s[..|s|] == s;
  }

  /** Registering A(5), B(8) and C(5) in that order gives the pool [B, A, C]. */
  lemma InsertScenario(a: Driver, b: Driver, c: Driver)
    requires a.experienceYears == 5 && b.experienceYears == 8 && c.experienceYears == 5
    ensures Insert([], a) == [a]
    ensures Insert([a], b) == [b, a]
    ensures Insert([b, a], c) == [b, a, c]
  {
    assert Insert([], a) == [a];
    assert Position([a], 8) == 0 by {
      assert Position([a][..0], 8) == 0;
    }
    assert Insert([a], b) == [b, a];
    assert Position([b, a], 5) == 2;
  }
}
