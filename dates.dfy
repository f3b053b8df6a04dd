/**
 * `GET /api/available-dates`: the days that have at least one data file,
 * newest first. The directory scan is given as the list of file names found
 * in the month directories, in scan order.
 */
module Dates {
  import opened Js
  import opened Layout
  import opened Correlation
  import opened Ingest

  /** The order of `Array.prototype.sort` without a comparator on strings:
      code unit by code unit, a proper prefix first. */
  predicate LexLess(a: string, b: string)
    decreases |a|
  {
    if |a| == 0 then |b| > 0
    else if |b| == 0 then false
    else if a[0] == b[0] then LexLess(a[1..], b[1..])
    else a[0] < b[0]
  }

  lemma {:induction false} LexLessIrreflexive(a: string)
    ensures !LexLess(a, a)
    decreases |a|
  {
    if |a| > 0 {
      LexLessIrreflexive(a[1..]);
    }
  }

  lemma {:induction false} LexLessTransitive(a: string, b: string, c: string)
    requires LexLess(a, b) && LexLess(b, c)
    ensures LexLess(a, c)
    decreases |a|
  {
    if |a| > 0 && |b| > 0 && |c| > 0 && a[0] == b[0] && b[0] == c[0] {
      LexLessTransitive(a[1..], b[1..], c[1..]);
    }
  }

  /** Two different strings are ordered one way or the other. */
  lemma {:induction false} LexLessTotal(a: string, b: string)
    requires a != b
    ensures LexLess(a, b) || LexLess(b, a)
    decreases |a|
  {
    if |a| > 0 && |b| > 0 && a[0] == b[0] {
      assert a == [a[0]] + a[1..] && b == [b[0]] + b[1..];
      LexLessTotal(a[1..], b[1..]);
    }
  }

  lemma {:induction false} LexLessAsymmetric(a: string, b: string)
    requires LexLess(a, b)
    ensures !LexLess(b, a)
  {
    if LexLess(b, a) {
      LexLessTransitive(a, b, a);
      LexLessIrreflexive(a);
    }
  }

  /** No element is smaller than one before it. */
  predicate Ascending(s: seq<string>)
  {
    forall i, j :: 0 <= i < j < |s| ==> !LexLess(s[j], s[i])
  }

  /** Each element is larger than every one after it. */
  predicate StrictlyDescending(s: seq<string>)
  {
    forall i, j :: 0 <= i < j < |s| ==> LexLess(s[j], s[i])
  }

  predicate Distinct(s: seq<string>)
  {
    forall i, j :: 0 <= i < j < |s| ==> s[i] != s[j]
  }

  function Insert(x: string, s: seq<string>): (r: seq<string>)
    ensures multiset(r) == multiset(s) + multiset{x}
    ensures |r| == |s| + 1
  {
    if |s| == 0 then [x]
    else if !LexLess(s[0], x) then [x] + s
    else
      assert s == [s[0]] + s[1..];
      [s[0]] + Insert(x, s[1..])
  }

  /** The string sort, as an insertion sort. */
  function Sort(s: seq<string>): (r: seq<string>)
    ensures multiset(r) == multiset(s)
  {
    if |s| == 0 then []
    else
      assert s == [s[0]] + s[1..];
      Insert(s[0], Sort(s[1..]))
  }

  lemma {:induction false} InsertAscending(x: string, s: seq<string>)
    requires Ascending(s)
    ensures Ascending(Insert(x, s))
    decreases |s|
  {
    if |s| > 0 && LexLess(s[0], x) {
      var t := s[1..];
      AscendingTail(s);
      InsertAscending(x, t);
      InsertAfterHead(x, s);
    } else if |s| > 0 {
      InsertAtHead(x, s);
    }
  }

  lemma AscendingTail(s: seq<string>)
    requires Ascending(s) && |s| > 0
    ensures Ascending(s[1..])
  {
    var t := s[1..];
    forall i, j | 0 <= i < j < |t| ensures !LexLess(t[j], t[i]) {
      assert t[i] == s[i + 1] && t[j] == s[j + 1];
    }
  }

  /** When `x` goes after the head, the head stays no larger than any element. */
  lemma InsertAfterHead(x: string, s: seq<string>)
    requires Ascending(s) && |s| > 0 && LexLess(s[0], x)
    requires Ascending(Insert(x, s[1..]))
    ensures Ascending(Insert(x, s))
  {
    var t := s[1..];
    var r := Insert(x, s);
    var u := Insert(x, t);
    assert r == [s[0]] + u;
    forall j | 0 < j < |r| ensures !LexLess(r[j], r[0]) {
      assert r[j] in multiset(u);
      assert r[j] in multiset(t) + multiset{x};
      if r[j] == x {
        LexLessAsymmetric(s[0], x);
      } else {
        assert r[j] in t;
        var k :| 0 <= k < |t| && t[k] == r[j];
        assert !LexLess(s[k + 1], s[0]);
      }
    }
    assert forall i, j :: 0 < i < j < |r| ==> r[i] == u[i - 1] && r[j] == u[j - 1];
  }

  /** When `x` goes first, no element of `s` is smaller than it. */
  lemma InsertAtHead(x: string, s: seq<string>)
    requires Ascending(s) && |s| > 0 && !LexLess(s[0], x)
    ensures Ascending(Insert(x, s))
  {
    var r := Insert(x, s);
    assert r == [x] + s;
    forall j | 0 < j < |r| ensures !LexLess(r[j], x) {
      assert r[j] == s[j - 1];
      if LexLess(s[j - 1], x) && j - 1 > 0 {
        assert !LexLess(s[j - 1], s[0]);
        if s[j - 1] != s[0] {
          LexLessTotal(s[j - 1], s[0]);
          LexLessTransitive(s[0], s[j - 1], x);
        }
      }
    }
    assert forall i, j :: 0 < i < j < |r| ==> r[i] == s[i - 1] && r[j] == s[j - 1];
  }

  lemma {:induction false} SortAscending(s: seq<string>)
    ensures Ascending(Sort(s))
    decreases |s|
  {
    if |s| > 0 {
      SortAscending(s[1..]);
      InsertAscending(s[0], Sort(s[1..]));
    }
  }

  /** Dropping the first element keeps the rest distinct. */
  lemma DistinctTail(s: seq<string>)
    requires Distinct(s) && |s| > 0
    ensures Distinct(s[1..]) && s[0] !in s[1..]
  {
    var t := s[1..];
    forall i, j | 0 <= i < j < |t| ensures t[i] != t[j] {
      assert t[i] == s[i + 1] && t[j] == s[j + 1];
    }
    forall k | 0 <= k < |t| ensures t[k] != s[0] {
      assert t[k] == s[k + 1];
    }
  }

  lemma {:induction false} InsertDistinct(x: string, s: seq<string>)
    requires Distinct(s) && x !in s
    ensures Distinct(Insert(x, s))
    decreases |s|
  {
    if |s| > 0 && LexLess(s[0], x) {
      DistinctTail(s);
      InsertDistinct(x, s[1..]);
      var u := Insert(x, s[1..]);
      assert s[0] !in u by {
        assert s[0] !in multiset(s[1..]) + multiset{x};
      }
      ConsDistinct(s[0], u);
    } else if |s| > 0 {
      ConsDistinct(x, s);
    }
  }

  /** A new element in front of a duplicate-free list keeps it duplicate-free. */
  lemma ConsDistinct(x: string, s: seq<string>)
    requires Distinct(s) && x !in s
    ensures Distinct([x] + s)
  {
    var r := [x] + s;
    forall i, j | 0 <= i < j < |r| ensures r[i] != r[j] {
      assert r[j] == s[j - 1];
      if i > 0 {
        assert r[i] == s[i - 1];
      }
    }
  }

  lemma {:induction false} SortDistinct(s: seq<string>)
    requires Distinct(s)
    ensures Distinct(Sort(s))
    decreases |s|
  {
    if |s| > 0 {
      DistinctTail(s);
      SortDistinct(s[1..]);
      assert s[0] !in Sort(s[1..]) by {
        assert s[0] !in multiset(s[1..]);
      }
      InsertDistinct(s[0], Sort(s[1..]));
    }
  }

  /** Reversing an ascending sequence without duplicates makes it strictly
      descending. */
  lemma ReverseDescending(a: seq<string>)
    requires Ascending(a) && Distinct(a)
    ensures StrictlyDescending(Reverse(a))
  {
    var r := Reverse(a);
    forall i, j | 0 <= i < j < |r| ensures LexLess(r[j], r[i]) {
      var i', j' := |a| - 1 - j, |a| - 1 - i;
      assert r[j] == a[i'] && r[i] == a[j'];
      assert a[i'] != a[j'];
      assert !LexLess(a[j'], a[i']);
      LexLessTotal(a[i'], a[j']);
    }
  }

  lemma ReverseMembers(a: seq<string>)
    ensures forall x :: x in Reverse(a) <==> x in a
  {
    var r := Reverse(a);
    forall x | x in a ensures x in r {
      var k :| 0 <= k < |a| && a[k] == x;
      assert r[|a| - 1 - k] == x;
    }
  }

  /** `sort().reverse()` of distinct strings: the same strings, largest first. */
  lemma SortReverseDescending(s: seq<string>)
    requires Distinct(s)
    ensures StrictlyDescending(Reverse(Sort(s)))
    ensures forall x :: x in Reverse(Sort(s)) <==> x in s
  {
    var a := Sort(s);
    SortAscending(s);
    SortDistinct(s);
    ReverseDescending(a);
    ReverseMembers(a);
    forall x ensures x in a <==> x in s {
      assert x in a <==> x in multiset(a);
      assert x in s <==> x in multiset(s);
    }
  }

  /** The days a listing holds: the captures of the file-name pattern. */
  ghost predicate Listed(names: seq<string>, d: string)
  {
    exists i :: 0 <= i < |names| && DateFile(names[i]) == Some(d)
  }

  /** The handler: collect the captured day of every matching name into a
      set, then answer with the set sorted and reversed. */
  method AvailableDates(names: seq<string>) returns (dates: seq<string>)
    ensures forall d :: d in dates <==> Listed(names, d)
    ensures forall i :: 0 <= i < |dates| ==> IsDateText(dates[i])
    ensures StrictlyDescending(dates)
  {
    var found: seq<string> := [];
    var i := 0;
    while i < |names|
      invariant 0 <= i <= |names|
      invariant Distinct(found)
      invariant forall d :: d in found <==> exists k :: 0 <= k < i && DateFile(names[k]) == Some(d)
    {
      var m := DateFile(names[i]);
      if m.Some? && m.value !in found {
        found := found + [m.value];
      }
      i := i + 1;
    }
    SortReverseDescending(found);
    dates := Reverse(Sort(found));
    forall d | d in dates ensures IsDateText(d) {
      var k :| 0 <= k < |names| && DateFile(names[k]) == Some(d);
      DateFileIff(names[k], d);
    }
  }

  /** A day on which a reading was stored is listed by a later scan: the
      reading's raw file is named after its day, so once the scan finds every
      stored file's name, that day is among the captured dates. */
  lemma WrittenDayListed(w: World, stream: Stream, p: Payload, c: Clock, isoOfMs: int -> string,
                         names: seq<string>)
    requires p.timestamp.Some? && TimeValueOk(p.timestamp.value)
    requires IsIsoInstant(c.rawDateAt)
    requires forall q :: q in WriteSpec(w, stream, p, c, isoOfMs).0.files ==> q.name in names
    ensures Listed(names, DatePart(c.rawDateAt))
  {
    DatePartOfIso(c.rawDateAt);
    var day := DatePart(c.rawDateAt);
    assert day[4] == '-';
    WriteRawFirst(w, stream, p, c, isoOfMs);
    var rp := RawPath(stream, day, Partition(day).value);
    assert rp.name == FileName(day, stream.Name());
    var k :| 0 <= k < |names| && names[k] == rp.name;
    DateFileOfFileName(day, stream.Name());
  }
}
