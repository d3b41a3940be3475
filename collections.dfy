/**
 * The Swift standard-library collection operations the section relies on,
 * as functions on sequences: `firstIndex(where:)`, `compactMap`, `filter`,
 * `remove(atOffsets:)` and `insert(contentsOf:at:)`.
 */
module Collections {
  import opened Wrappers

  /** `xs.firstIndex(where: p)`: the smallest index whose element satisfies `p`. */
  function FirstIndexWhere<T>(xs: seq<T>, p: T -> bool): (r: Option<nat>)
    ensures r.Some? ==> r.value < |xs| && p(xs[r.value])
    ensures r.Some? ==> forall j :: 0 <= j < r.value ==> !p(xs[j])
    ensures r.None? <==> forall j :: 0 <= j < |xs| ==> !p(xs[j])
    decreases |xs|
  {
    if xs == [] then None
    else if p(xs[0]) then Some(0)
    else
      match FirstIndexWhere(xs[1..], p)
      case None => None
      case Some(k) => Some(k + 1)
  }

  /** `xs.compactMap(f)`: the present results of `f`, in the order of `xs`. */
  function CompactMap<A, B>(xs: seq<A>, f: A -> Option<B>): (r: seq<B>)
    ensures |r| <= |xs|
    decreases |xs|
  {
    if xs == [] then []
    else
      match f(xs[0])
      case Some(y) => [y] + CompactMap(xs[1..], f)
      case None => CompactMap(xs[1..], f)
  }

  /** `compactMap` distributes over concatenation: it keeps the order of its input. */
  lemma {:induction false} CompactMapAppend<A, B>(a: seq<A>, b: seq<A>, f: A -> Option<B>)
    ensures CompactMap(a + b, f) == CompactMap(a, f) + CompactMap(b, f)
    decreases |a|
  {
    if a == [] {
      assert a + b == b;
    } else {
      assert (a + b)[1..] == a[1..] + b;
      CompactMapAppend(a[1..], b, f);
    }
  }

  /** When every result is present, `compactMap` is an element-wise map. */
  lemma {:induction false} CompactMapAllPresent<A, B>(xs: seq<A>, f: A -> Option<B>)
    requires forall i :: 0 <= i < |xs| ==> f(xs[i]).Some?
    ensures |CompactMap(xs, f)| == |xs|
    ensures forall i :: 0 <= i < |xs| ==> CompactMap(xs, f)[i] == f(xs[i]).value
    decreases |xs|
  {
    if xs != [] {
      CompactMapAllPresent(xs[1..], f);
    }
  }

  /** When no result is present, `compactMap` yields nothing. */
  lemma {:induction false} CompactMapAllAbsent<A, B>(xs: seq<A>, f: A -> Option<B>)
    requires forall i :: 0 <= i < |xs| ==> f(xs[i]).None?
    ensures CompactMap(xs, f) == []
    decreases |xs|
  {
    if xs != [] {
      CompactMapAllAbsent(xs[1..], f);
    }
  }

  /** `y` is in the result exactly when some element of `xs` maps to it. */
  lemma {:induction false} CompactMapMember<A, B>(xs: seq<A>, f: A -> Option<B>, y: B)
    ensures y in CompactMap(xs, f) <==> exists i :: 0 <= i < |xs| && f(xs[i]) == Some(y)
    decreases |xs|
  {
    if xs != [] {
      CompactMapMember(xs[1..], f, y);
      if exists i :: 0 <= i < |xs| && f(xs[i]) == Some(y) {
        var i :| 0 <= i < |xs| && f(xs[i]) == Some(y);
        if i > 0 {
          assert f(xs[1..][i - 1]) == Some(y);
        }
      }
      if exists i :: 0 <= i < |xs[1..]| && f(xs[1..][i]) == Some(y) {
        var i :| 0 <= i < |xs[1..]| && f(xs[1..][i]) == Some(y);
        assert f(xs[i + 1]) == Some(y);
      }
    }
  }

  /** `xs.filter(p)`: the elements satisfying `p`, in the order of `xs`. */
  function Filter<T>(xs: seq<T>, p: T -> bool): (r: seq<T>)
    ensures |r| <= |xs|
    ensures forall k :: 0 <= k < |r| ==> p(r[k])
    decreases |xs|
  {
    if xs == [] then []
    else if p(xs[0]) then [xs[0]] + Filter(xs[1..], p)
    else Filter(xs[1..], p)
  }

  /** `filter` distributes over concatenation: it keeps the order of its input. */
  lemma {:induction false} FilterAppend<T>(a: seq<T>, b: seq<T>, p: T -> bool)
    ensures Filter(a + b, p) == Filter(a, p) + Filter(b, p)
    decreases |a|
  {
    if a == [] {
      assert a + b == b;
    } else {
      assert (a + b)[1..] == a[1..] + b;
      FilterAppend(a[1..], b, p);
    }
  }

  /** An element survives `filter` exactly when it was there and satisfies `p`. */
  lemma {:induction false} FilterMember<T>(xs: seq<T>, p: T -> bool, x: T)
    ensures x in Filter(xs, p) <==> x in xs && p(x)
    decreases |xs|
  {
    if xs != [] {
      FilterMember(xs[1..], p, x);
      assert xs == [xs[0]] + xs[1..];
    }
  }

  /** No two elements of `xs` share a key. */
  ghost predicate DistinctBy<T, K>(xs: seq<T>, key: T -> K)
  {
    forall i, j :: 0 <= i < j < |xs| ==> key(xs[i]) != key(xs[j])
  }

  /** `filter` keeps keys distinct. */
  lemma {:induction false} FilterDistinctBy<T, K>(xs: seq<T>, p: T -> bool, key: T -> K)
    requires DistinctBy(xs, key)
    ensures DistinctBy(Filter(xs, p), key)
    decreases |xs|
  {
    if xs != [] {
      var rest := Filter(xs[1..], p);
      FilterDistinctBy(xs[1..], p, key);
      if p(xs[0]) {
        forall k | 0 <= k < |rest|
          ensures key(xs[0]) != key(rest[k])
        {
          FilterMember(xs[1..], p, rest[k]);
          var j :| 0 <= j < |xs[1..]| && xs[1..][j] == rest[k];
          assert xs[j + 1] == rest[k];
        }
        var r := [xs[0]] + rest;
        forall i, j | 0 <= i < j < |r|
          ensures key(r[i]) != key(r[j])
        {
          if i == 0 {
            assert r[j] == rest[j - 1];
          } else {
            assert r[i] == rest[i - 1] && r[j] == rest[j - 1];
          }
        }
      }
    }
  }

  /**
   * `s.remove(atOffsets: offsets)` applied to the part of a sequence that
   * starts at offset `base`: the element at offset `base + k` is dropped
   * exactly when `base + k` is one of `offsets`.
   */
  function RemovingFrom<T>(s: seq<T>, offsets: set<int>, base: int): (r: seq<T>)
    ensures |r| <= |s|
    decreases |s|
  {
    if s == [] then []
    else if base in offsets then RemovingFrom(s[1..], offsets, base + 1)
    else [s[0]] + RemovingFrom(s[1..], offsets, base + 1)
  }

  /** `s.remove(atOffsets: offsets)` */
  function RemovingOffsets<T>(s: seq<T>, offsets: set<int>): seq<T>
  {
    RemovingFrom(s, offsets, 0)
  }

  /** The offsets among `offsets` that fall in `[base, base + n)`. */
  function OffsetsWithin(offsets: set<int>, base: int, n: nat): set<int>
  {
    set k | base <= k < base + n && k in offsets
  }

  /** Removal distributes over concatenation, the offsets of the second part shifted by the first's length. */
  lemma {:induction false} RemovingFromAppend<T>(a: seq<T>, b: seq<T>, offsets: set<int>, base: int)
    ensures RemovingFrom(a + b, offsets, base) == RemovingFrom(a, offsets, base) + RemovingFrom(b, offsets, base + |a|)
    decreases |a|
  {
    if a == [] {
      assert a + b == b;
    } else {
      assert (a + b)[1..] == a[1..] + b;
      RemovingFromAppend(a[1..], b, offsets, base + 1);
    }
  }

  /** A part none of whose offsets is named is kept whole. */
  lemma {:induction false} RemovingFromNone<T>(s: seq<T>, offsets: set<int>, base: int)
    requires forall k :: base <= k < base + |s| ==> k !in offsets
    ensures RemovingFrom(s, offsets, base) == s
    decreases |s|
  {
    if s != [] {
      RemovingFromNone(s[1..], offsets, base + 1);
    }
  }

  /** A part all of whose offsets are named is removed whole. */
  lemma {:induction false} RemovingFromAll<T>(s: seq<T>, offsets: set<int>, base: int)
    requires forall k :: base <= k < base + |s| ==> k in offsets
    ensures RemovingFrom(s, offsets, base) == []
    decreases |s|
  {
    if s != [] {
      RemovingFromAll(s[1..], offsets, base + 1);
    }
  }

  /** Exactly one element is removed per named offset inside the part. */
  lemma {:induction false} RemovingFromLength<T>(s: seq<T>, offsets: set<int>, base: int)
    ensures |RemovingFrom(s, offsets, base)| + |OffsetsWithin(offsets, base, |s|)| == |s|
    decreases |s|
  {
    if s == [] {
      assert OffsetsWithin(offsets, base, 0) == {};
    } else {
      RemovingFromLength(s[1..], offsets, base + 1);
      var rest := OffsetsWithin(offsets, base + 1, |s| - 1);
      if base in offsets {
        assert OffsetsWithin(offsets, base, |s|) == rest + {base};
      } else {
        assert OffsetsWithin(offsets, base, |s|) == rest;
      }
    }
  }

  /** With every offset in range, `remove(atOffsets:)` shortens the sequence by the number of offsets. */
  lemma RemovingOffsetsLength<T>(s: seq<T>, offsets: set<int>)
    requires forall o :: o in offsets ==> 0 <= o < |s|
    ensures |RemovingOffsets(s, offsets)| == |s| - |offsets|
  {
    RemovingFromLength(s, offsets, 0);
    assert OffsetsWithin(offsets, 0, |s|) == offsets;
  }

  /** `s.insert(contentsOf: xs, at: i)` */
  function InsertingContents<T>(s: seq<T>, xs: seq<T>, i: int): (r: seq<T>)
    requires 0 <= i <= |s|
    ensures |r| == |s| + |xs|
    ensures r[..i] == s[..i] && r[i..i + |xs|] == xs && r[i + |xs|..] == s[i..]
  {
    s[..i] + xs + s[i..]
  }

  /** The offsets `lo, lo + 1, ..., lo + n - 1`, as an `IndexSet(integersIn: lo..<lo + n)`. */
  function OffsetRange(lo: int, n: nat): (r: set<int>)
    ensures forall k :: k in r <==> lo <= k < lo + n
  {
    if n == 0 then {} else OffsetRange(lo, n - 1) + {lo + n - 1}
  }

  /** Removing the offsets an insertion filled gives back the original sequence. */
  lemma RemovingInsertedContents<T>(s: seq<T>, xs: seq<T>, i: int)
    requires 0 <= i <= |s|
    ensures RemovingOffsets(InsertingContents(s, xs, i), OffsetRange(i, |xs|)) == s
  {
    var inserted := OffsetRange(i, |xs|);
    var before, after := s[..i], s[i..];
    assert InsertingContents(s, xs, i) == before + (xs + after);
    RemovingFromAppend(before, xs + after, inserted, 0);
    RemovingFromNone(before, inserted, 0);
    RemovingBlockThenRest(xs, after, inserted, i);
    assert before + after == s;
  }

  /** A block whose offsets are all named, followed by a part whose offsets are all unnamed, leaves that part. */
  lemma RemovingBlockThenRest<T>(xs: seq<T>, rest: seq<T>, offsets: set<int>, base: int)
    requires forall k :: k in offsets <==> base <= k < base + |xs|
    ensures RemovingFrom(xs + rest, offsets, base) == rest
  {
    RemovingFromAppend(xs, rest, offsets, base);
    RemovingFromAll(xs, offsets, base);
    RemovingFromNone(rest, offsets, base + |xs|);
  }
}
