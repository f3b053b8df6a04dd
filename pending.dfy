/**
 * A pending set of the correlator: a JavaScript object used as a dictionary
 * from a device timestamp to a reading waiting for its partner.
 *
 * The object is modelled as its own-property list, in the order `for…in`
 * enumerates it: keys that are array indices (integers 0 .. 2^32 - 2) come
 * first in ascending numeric order, every other key follows in insertion
 * order. Assigning to an existing key keeps its position; a new index key is
 * placed by value, a new non-index key goes last. `delete` removes the
 * property and leaves the order of the rest unchanged.
 */
module PendingSet {
  import opened Js

  /** The largest array index, 2^32 - 2. */
  const MaxIndex: int := 0xFFFF_FFFE

  /** Matching tolerance, one second in device microseconds. */
  const Tolerance: int := 1_000_000

  /** Age beyond which a pending entry is evicted, ten seconds in device microseconds. */
  const MaxAge: int := 10_000_000

  predicate IsIndex(k: int)
  {
    0 <= k <= MaxIndex
  }

  /** `Math.abs(k - t) <= tolerance`. */
  predicate Within(k: int, t: int)
  {
    -Tolerance <= k - t <= Tolerance
  }

  /** `now - k > maxAge`: the entry is evicted by a reading stamped `now`. */
  predicate Stale(k: int, now: int)
  {
    now - k > MaxAge
  }

  /** `x` may be enumerated before `y`: distinct keys, and an index key is
      never preceded by a non-index key or by a larger index key. */
  predicate Precedes<E>(x: (int, E), y: (int, E))
  {
    x.0 != y.0 && (IsIndex(y.0) ==> IsIndex(x.0) && x.0 < y.0)
  }

  /** The shape every pending set keeps: unique keys in enumeration order. */
  predicate PropertyOrder<E>(s: seq<(int, E)>)
  {
    forall i, j :: 0 <= i < j < |s| ==> Precedes(s[i], s[j])
  }

  predicate HasKey<E>(s: seq<(int, E)>, k: int)
  {
    exists i :: 0 <= i < |s| && s[i].0 == k
  }

  /** `obj[k]`: the value stored under `k`, if any. */
  function Lookup<E>(s: seq<(int, E)>, k: int): (r: Option<E>)
    ensures r.Some? <==> HasKey(s, k)
  {
    if |s| == 0 then None
    else if s[0].0 == k then Some(s[0].1)
    else
      assert forall i :: 1 <= i < |s| ==> s[i] == s[1..][i - 1];
      Lookup(s[1..], k)
  }

  /** `obj[k] = e`. */
  function Put<E>(s: seq<(int, E)>, k: int, e: E): seq<(int, E)>
  {
    if |s| == 0 then [(k, e)]
    else if s[0].0 == k then [(k, e)] + s[1..]
    else if IsIndex(k) && (!IsIndex(s[0].0) || k < s[0].0) then [(k, e)] + s
    else [s[0]] + Put(s[1..], k, e)
  }

  /** `delete obj[k]`. */
  function RemoveKey<E>(s: seq<(int, E)>, k: int): seq<(int, E)>
  {
    if |s| == 0 then []
    else (if s[0].0 == k then [] else [s[0]]) + RemoveKey(s[1..], k)
  }

  /** The entries a sweep at `now` keeps, in their order. */
  function KeepFresh<E>(s: seq<(int, E)>, now: int): seq<(int, E)>
  {
    if |s| == 0 then []
    else
      var r := KeepFresh(s[..|s| - 1], now);
      if Stale(s[|s| - 1].0, now) then r else r + [s[|s| - 1]]
  }

  /** The position of the first entry, in enumeration order, whose key is
      within tolerance of `t`: where the `for…in` scan breaks. */
  function FirstWithin<E>(s: seq<(int, E)>, t: int): (r: Option<nat>)
    ensures r.Some? ==> r.value < |s| && Within(s[r.value].0, t)
    ensures r.Some? ==> forall j :: 0 <= j < r.value ==> !Within(s[j].0, t)
    ensures r.None? ==> forall j :: 0 <= j < |s| ==> !Within(s[j].0, t)
  {
    if |s| == 0 then None
    else if Within(s[0].0, t) then Some(0)
    else
      var r := FirstWithin(s[1..], t);
      if r.Some? then Some(r.value + 1) else None
  }

  // ---------------------------------------------------------------------
  // The enumeration order is kept by every operation.

  lemma OrderCons<E>(x: (int, E), s: seq<(int, E)>)
    ensures PropertyOrder([x] + s) <==>
            PropertyOrder(s) && forall j :: 0 <= j < |s| ==> Precedes(x, s[j])
  {
    var t := [x] + s;
    assert forall j :: 0 <= j < |s| ==> t[j + 1] == s[j];
    if PropertyOrder(t) {
      forall i, j | 0 <= i < j < |s| ensures Precedes(s[i], s[j]) {
        assert Precedes(t[i + 1], t[j + 1]);
      }
      forall j | 0 <= j < |s| ensures Precedes(x, s[j]) {
        assert Precedes(t[0], t[j + 1]);
      }
    }
    if PropertyOrder(s) && forall j :: 0 <= j < |s| ==> Precedes(x, s[j]) {
      forall i, j | 0 <= i < j < |t| ensures Precedes(t[i], t[j]) {
        if i > 0 {
          assert t[i] == s[i - 1] && t[j] == s[j - 1];
        } else {
          assert t[j] == s[j - 1];
        }
      }
    }
  }

  lemma OrderTail<E>(s: seq<(int, E)>)
    requires |s| > 0 && PropertyOrder(s)
    ensures PropertyOrder(s[1..])
    ensures forall j :: 0 <= j < |s[1..]| ==> Precedes(s[0], s[1..][j])
  {
    assert s == [s[0]] + s[1..];
    OrderCons(s[0], s[1..]);
  }

  /** Every entry of `d` is an entry of `s` (as a key-and-value pair). */
  ghost predicate EntriesOf<E>(d: seq<(int, E)>, s: seq<(int, E)>)
  {
    forall j :: 0 <= j < |d| ==> exists i :: 0 <= i < |s| && d[j] == s[i]
  }

  lemma {:induction false} RemoveKeyEntries<E>(s: seq<(int, E)>, k: int)
    ensures EntriesOf(RemoveKey(s, k), s)
    ensures forall j :: 0 <= j < |RemoveKey(s, k)| ==> RemoveKey(s, k)[j].0 != k
    ensures |RemoveKey(s, k)| <= |s|
  {
    if |s| > 0 {
      RemoveKeyEntries(s[1..], k);
      var head: seq<(int, E)> := if s[0].0 == k then [] else [s[0]];
      var r := RemoveKey(s, k);
      assert r == head + RemoveKey(s[1..], k);
      forall j | 0 <= j < |r| ensures exists i :: 0 <= i < |s| && r[j] == s[i] {
        if j < |head| {
          assert r[j] == s[0];
        } else {
          var i :| 0 <= i < |s[1..]| && RemoveKey(s[1..], k)[j - |head|] == s[1..][i];
          assert r[j] == s[i + 1];
        }
      }
    }
  }

  lemma {:induction false} RemoveKeyOrder<E>(s: seq<(int, E)>, k: int)
    requires PropertyOrder(s)
    ensures PropertyOrder(RemoveKey(s, k))
  {
    if |s| > 0 {
      OrderTail(s);
      RemoveKeyOrder(s[1..], k);
      RemoveKeyEntries(s[1..], k);
      var rest := RemoveKey(s[1..], k);
      if s[0].0 != k {
        forall j | 0 <= j < |rest| ensures Precedes(s[0], rest[j]) {
          var i :| 0 <= i < |s[1..]| && rest[j] == s[1..][i];
        }
        OrderCons(s[0], rest);
      }
    }
  }

  /** Removing a key that is absent changes nothing. */
  lemma {:induction false} RemoveAbsent<E>(s: seq<(int, E)>, k: int)
    requires forall j :: 0 <= j < |s| ==> s[j].0 != k
    ensures RemoveKey(s, k) == s
  {
    if |s| > 0 {
      RemoveAbsent(s[1..], k);
      assert [s[0]] + s[1..] == s;
    }
  }

  lemma {:induction false} RemoveKeyAppend<E>(a: seq<(int, E)>, b: seq<(int, E)>, k: int)
    ensures RemoveKey(a + b, k) == RemoveKey(a, k) + RemoveKey(b, k)
  {
    if |a| > 0 {
      assert (a + b)[1..] == a[1..] + b;
      RemoveKeyAppend(a[1..], b, k);
    } else {
      assert a + b == b;
    }
  }

  /** In an ordered set, deleting a present key removes exactly that entry. */
  lemma {:induction false} RemoveKeyAt<E>(s: seq<(int, E)>, i: nat)
    requires PropertyOrder(s) && i < |s|
    ensures RemoveKey(s, s[i].0) == s[..i] + s[i + 1..]
  {
    var k := s[i].0;
    var a, b := s[..i], s[i + 1..];
    assert s == a + ([s[i]] + b);
    KeysDifferAt(s, i);
    assert forall j :: 0 <= j < |a| ==> a[j] == s[j];
    assert forall j :: 0 <= j < |b| ==> b[j] == s[i + 1 + j];
    RemoveAbsent(a, k);
    RemoveAbsent(b, k);
    RemoveKeyAppend(a, [s[i]] + b, k);
    assert RemoveKey([s[i]] + b, k) == RemoveKey(b, k) by {
      assert ([s[i]] + b)[1..] == b;
    }
  }

  /** In an ordered set no other entry has the key of entry `i`. */
  lemma KeysDifferAt<E>(s: seq<(int, E)>, i: nat)
    requires PropertyOrder(s) && i < |s|
    ensures forall j :: 0 <= j < |s| && j != i ==> s[j].0 != s[i].0
  {
    forall j | 0 <= j < |s| && j != i ensures s[j].0 != s[i].0 {
      if j < i {
        assert Precedes(s[j], s[i]);
      } else {
        assert Precedes(s[i], s[j]);
      }
    }
  }

  lemma {:induction false} KeepFreshEntries<E>(s: seq<(int, E)>, now: int)
    ensures EntriesOf(KeepFresh(s, now), s)
    ensures forall j :: 0 <= j < |KeepFresh(s, now)| ==> !Stale(KeepFresh(s, now)[j].0, now)
  {
    if |s| > 0 {
      var init := s[..|s| - 1];
      KeepFreshEntries(init, now);
      var r := KeepFresh(s, now);
      forall j | 0 <= j < |r| ensures exists i :: 0 <= i < |s| && r[j] == s[i] {
        if j < |KeepFresh(init, now)| {
          var i :| 0 <= i < |init| && KeepFresh(init, now)[j] == init[i];
          assert r[j] == s[i];
        } else {
          assert r[j] == s[|s| - 1];
        }
      }
    }
  }

  /** A fresh entry survives the sweep. */
  lemma {:induction false} KeepFreshKeeps<E>(s: seq<(int, E)>, now: int, i: nat)
    requires i < |s| && !Stale(s[i].0, now)
    ensures exists j :: 0 <= j < |KeepFresh(s, now)| && KeepFresh(s, now)[j] == s[i]
  {
    var init := s[..|s| - 1];
    var r := KeepFresh(s, now);
    if i == |s| - 1 {
      assert r[|r| - 1] == s[i];
    } else {
      KeepFreshKeeps(init, now, i);
      var j :| 0 <= j < |KeepFresh(init, now)| && KeepFresh(init, now)[j] == init[i];
      assert r[j] == s[i];
    }
  }

  /** The sweep keeps the enumeration order. */
  lemma {:induction false} KeepFreshOrder<E>(s: seq<(int, E)>, now: int)
    requires PropertyOrder(s)
    ensures PropertyOrder(KeepFresh(s, now))
  {
    if |s| > 0 {
      var init := s[..|s| - 1];
      assert PropertyOrder(init) by {
        assert forall j :: 0 <= j < |init| ==> init[j] == s[j];
      }
      KeepFreshOrder(init, now);
      if !Stale(s[|s| - 1].0, now) {
        var r0 := KeepFresh(init, now);
        KeepFreshEntries(init, now);
        var r := r0 + [s[|s| - 1]];
        forall i, j | 0 <= i < j < |r| ensures Precedes(r[i], r[j]) {
          if j < |r0| {
            assert r[i] == r0[i] && r[j] == r0[j];
          } else {
            var i' :| 0 <= i' < |init| && r0[i] == init[i'];
            assert r[i] == s[i'] && r[j] == s[|s| - 1];
          }
        }
      }
    }
  }

  /** Putting a new key before an entry it precedes keeps the order. */
  lemma {:induction false} PutOrder<E>(s: seq<(int, E)>, k: int, e: E)
    requires PropertyOrder(s)
    ensures PropertyOrder(Put(s, k, e))
    ensures forall j :: 0 <= j < |Put(s, k, e)| ==> Put(s, k, e)[j].0 == k || HasKey(s, Put(s, k, e)[j].0)
  {
    if |s| == 0 {
    } else if s[0].0 == k {
      OrderTail(s);
      var t := Put(s, k, e);
      assert t[1..] == s[1..];
      forall j | 0 <= j < |s[1..]| ensures Precedes((k, e), s[1..][j]) {
        assert Precedes(s[0], s[1..][j]);
      }
      OrderCons((k, e), s[1..]);
      forall j | 0 <= j < |t| ensures t[j].0 == k || HasKey(s, t[j].0) {
        if j > 0 { assert t[j] == s[j]; }
      }
    } else if IsIndex(k) && (!IsIndex(s[0].0) || k < s[0].0) {
      var t := Put(s, k, e);
      assert t == [(k, e)] + s;
      forall j | 0 <= j < |s| ensures Precedes((k, e), s[j]) {
        if j > 0 {
          assert Precedes(s[0], s[j]);
        }
      }
      OrderCons((k, e), s);
      forall j | 0 <= j < |t| ensures t[j].0 == k || HasKey(s, t[j].0) {
        if j > 0 { assert t[j] == s[j - 1]; }
      }
    } else {
      OrderTail(s);
      PutOrder(s[1..], k, e);
      var rest := Put(s[1..], k, e);
      forall j | 0 <= j < |rest| ensures Precedes(s[0], rest[j]) {
        if rest[j].0 == k {
        } else {
          var i :| 0 <= i < |s[1..]| && s[1..][i].0 == rest[j].0;
          assert Precedes(s[0], s[1..][i]);
        }
      }
      OrderCons(s[0], rest);
      var t := Put(s, k, e);
      forall j | 0 <= j < |t| ensures t[j].0 == k || HasKey(s, t[j].0) {
        if j > 0 {
          assert t[j] == rest[j - 1];
          if rest[j - 1].0 != k {
            var i :| 0 <= i < |s[1..]| && s[1..][i].0 == rest[j - 1].0;
            assert s[i + 1].0 == t[j].0;
          }
        }
      }
    }
  }

  /** After `obj[k] = e`, `obj[k]` is `e` and every other key reads as before. */
  lemma {:induction false} PutLookup<E>(s: seq<(int, E)>, k: int, e: E, k': int)
    requires PropertyOrder(s)
    ensures Lookup(Put(s, k, e), k') == if k' == k then Some(e) else Lookup(s, k')
  {
    if |s| == 0 {
    } else if s[0].0 == k {
      var t := Put(s, k, e);
      assert t[1..] == s[1..];
    } else if IsIndex(k) && (!IsIndex(s[0].0) || k < s[0].0) {
      var t := Put(s, k, e);
      assert t[1..] == s;
      if k' != k && HasKey(s, k') {
        assert Lookup(t, k') == Lookup(s, k');
      }
    } else {
      OrderTail(s);
      PutLookup(s[1..], k, e, k');
      var t := Put(s, k, e);
      assert t[1..] == Put(s[1..], k, e);
    }
  }

  /** Overwriting an existing key keeps the entry in its position. */
  lemma {:induction false} PutInPlace<E>(s: seq<(int, E)>, i: nat, e: E)
    requires PropertyOrder(s) && i < |s|
    ensures Put(s, s[i].0, e) == s[i := (s[i].0, e)]
  {
    var k := s[i].0;
    if i == 0 {
      assert s[i := (k, e)] == [(k, e)] + s[1..];
    } else {
      assert Precedes(s[0], s[i]);
      assert !(IsIndex(k) && (!IsIndex(s[0].0) || k < s[0].0));
      OrderTail(s);
      assert s[1..][i - 1] == s[i];
      PutInPlace(s[1..], i - 1, e);
      assert s[i := (k, e)] == [s[0]] + s[1..][i - 1 := (k, e)];
    }
  }

  /** `obj[k] = e` stores nothing but `(k, e)` and what was already there. */
  lemma {:induction false} PutEntries<E>(s: seq<(int, E)>, k: int, e: E)
    ensures forall x :: x in Put(s, k, e) ==> x == (k, e) || x in s
  {
    if |s| > 0 && s[0].0 != k && !(IsIndex(k) && (!IsIndex(s[0].0) || k < s[0].0)) {
      PutEntries(s[1..], k, e);
      assert forall x :: x in s[1..] ==> x in s;
    }
  }

  /** A new key that is not an array index goes last, after every key
      already there. */
  lemma {:induction false} PutAppends<E>(s: seq<(int, E)>, k: int, e: E)
    requires !IsIndex(k) && !HasKey(s, k)
    ensures Put(s, k, e) == s + [(k, e)]
  {
    if |s| > 0 {
      assert s[0].0 != k;
      forall i | 0 <= i < |s[1..]| ensures s[1..][i].0 != k {
        assert s[1..][i] == s[i + 1];
      }
      PutAppends(s[1..], k, e);
      assert s == [s[0]] + s[1..];
    }
  }

  /** How many leading entries hold index keys smaller than `k`. */
  function IndexPrefix<E>(s: seq<(int, E)>, k: int): (i: nat)
    ensures i <= |s|
    ensures forall j :: 0 <= j < i ==> IsIndex(s[j].0) && s[j].0 < k
    ensures i < |s| ==> !IsIndex(s[i].0) || k <= s[i].0
  {
    if |s| == 0 || !IsIndex(s[0].0) || k <= s[0].0 then 0
    else
      var i := IndexPrefix(s[1..], k);
      assert forall j :: 1 <= j < i + 1 ==> s[j] == s[1..][j - 1];
      i + 1
  }

  /** A new array-index key goes after the smaller index keys and before
      the larger index keys and every non-index key. */
  lemma PutInserts<E>(s: seq<(int, E)>, k: int, e: E)
    requires PropertyOrder(s) && IsIndex(k) && !HasKey(s, k)
    ensures var i := IndexPrefix(s, k);
      && Put(s, k, e) == s[..i] + [(k, e)] + s[i..]
      && (forall j :: 0 <= j < i ==> IsIndex(s[j].0) && s[j].0 < k)
      && (forall j :: i <= j < |s| ==> !IsIndex(s[j].0) || k < s[j].0)
  {
    PutSplice(s, k, e);
    var i := IndexPrefix(s, k);
    forall j | i <= j < |s| ensures !IsIndex(s[j].0) || k < s[j].0 {
      assert s[i].0 != k;
      if j > i { assert Precedes(s[i], s[j]); }
    }
  }

  lemma {:induction false} PutSplice<E>(s: seq<(int, E)>, k: int, e: E)
    requires IsIndex(k) && !HasKey(s, k)
    ensures Put(s, k, e) == s[..IndexPrefix(s, k)] + [(k, e)] + s[IndexPrefix(s, k)..]
  {
    if |s| == 0 {
      assert Put(s, k, e) == [(k, e)];
    } else if IsIndex(s[0].0) && k > s[0].0 {
      var tail := s[1..];
      forall j | 0 <= j < |tail| ensures tail[j].0 != k {
        assert tail[j] == s[j + 1];
      }
      PutSplice(tail, k, e);
      var i := IndexPrefix(tail, k);
      assert IndexPrefix(s, k) == i + 1;
      assert Put(s, k, e) == [s[0]] + Put(tail, k, e);
      assert s[..i + 1] == [s[0]] + tail[..i];
      assert s[i + 1..] == tail[i..];
    } else {
      assert s[0].0 != k;
      assert IndexPrefix(s, k) == 0;
      assert Put(s, k, e) == [(k, e)] + s;
      assert s[..0] == [] && s[0..] == s;
    }
  }

  /** `r` is `s` with some entries deleted: what `r` holds appears in `s`
      in the same order. */
  ghost predicate IsSubsequence<T>(r: seq<T>, s: seq<T>)
    decreases |s|
  {
    |r| == 0 ||
    (|s| > 0 &&
     ((r[|r| - 1] == s[|s| - 1] && IsSubsequence(r[..|r| - 1], s[..|s| - 1])) ||
      IsSubsequence(r, s[..|s| - 1])))
  }

  /** A sweep deletes entries and never reorders the ones it keeps. */
  lemma {:induction false} KeepFreshSubsequence<E>(s: seq<(int, E)>, now: int)
    ensures IsSubsequence(KeepFresh(s, now), s)
  {
    if |s| > 0 {
      var init := s[..|s| - 1];
      KeepFreshSubsequence(init, now);
      var r := KeepFresh(s, now);
      if !Stale(s[|s| - 1].0, now) {
        assert r[..|r| - 1] == KeepFresh(init, now);
      }
    }
  }

  /** The operations on a set holding a single entry. */
  lemma SingleEntry<E>(k: int, e: E, t: int)
    ensures Put([], k, e) == [(k, e)]
    ensures KeepFresh([(k, e)], t) == (if Stale(k, t) then [] else [(k, e)])
    ensures forall s: seq<(int, E)> :: |s| == 0 ==> KeepFresh(s, t) == [] && FirstWithin(s, t) == None
    ensures RemoveKey([(k, e)], k) == []
    ensures FirstWithin([(k, e)], t) == (if Within(k, t) then Some(0) else None)
  {
    assert [(k, e)][..0] == [];
    assert [(k, e)][1..] == [];
  }
}
