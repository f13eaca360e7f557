/**
 Array splicing as JavaScript's Array.prototype.splice performs it, and the
 offset-splice loop that removes a list of recorded indices one at a time.
 */
module JsArray {

  /** Where splice starts for an array of length `len`: a negative start counts
      from the end, and both ends are clamped to the array. */
  function StartIndex(len: nat, start: int): (k: nat)
    ensures k <= len
    ensures 0 <= start <= len ==> k == start
    ensures start > len ==> k == len
    ensures start < 0 ==> k == if len + start < 0 then 0 else len + start
  {
    if start < 0 then (if len + start < 0 then 0 else len + start)
    else if start > len then len
    else start
  }

  /** How many elements splice removes: `deleteCount` clamped to what lies after the start. */
  function DeleteCount(len: nat, start: int, deleteCount: int): (d: nat)
    ensures StartIndex(len, start) + d <= len
    ensures 0 <= deleteCount && StartIndex(len, start) + deleteCount <= len ==> d == deleteCount
    ensures d <= if deleteCount < 0 then 0 else deleteCount
  {
    var k := StartIndex(len, start);
    if deleteCount < 0 then 0 else if deleteCount > len - k then len - k else deleteCount
  }

  /** The array left behind by `xs.splice(start, deleteCount, ...items)`. */
  function Splice<T>(xs: seq<T>, start: int, deleteCount: int, items: seq<T>): (r: seq<T>)
    ensures |r| == |xs| - DeleteCount(|xs|, start, deleteCount) + |items|
    ensures 0 <= start < |xs| && deleteCount == 1 ==> r == xs[..start] + items + xs[start + 1..]
    ensures start >= |xs| ==> r == xs + items
  {
    var k := StartIndex(|xs|, start);
    var d := DeleteCount(|xs|, start, deleteCount);
    xs[..k] + items + xs[k + d..]
  }

  /** The removal loop: the k-th recorded index is spliced out at `toDelete[k] - deleted`,
      where `deleted` counts the removals already done. Each turn removes at
      most one element, so the array loses at most one element per index. */
  function SpliceOut<T>(xs: seq<T>, toDelete: seq<int>, deleted: int): (r: seq<T>)
    ensures |xs| - |toDelete| <= |r| <= |xs|
    decreases |toDelete|
  {
    if toDelete == [] then xs
    else SpliceOut(Splice(xs, toDelete[0] - deleted, 1, []), toDelete[1..], deleted + 1)
  }

  /** The reference the removal loop is meant to implement: the elements of `xs`
      whose position (the first element being at position `base`) is not listed in `del`. */
  function Without<T>(xs: seq<T>, del: seq<int>, base: int): (r: seq<T>)
    ensures |r| <= |xs|
    decreases |xs|
  {
    if xs == [] then []
    else (if base in del then [] else [xs[0]]) + Without(xs[1..], del, base + 1)
  }

  predicate Ascending(s: seq<int>)
  {
    forall i, j :: 0 <= i < j < |s| ==> s[i] < s[j]
  }

  /** Past the first index, an ascending index list stays ascending and above it. */
  lemma AscendingTail(s: seq<int>, hi: int)
    requires Ascending(s) && |s| > 0
    requires forall k :: 0 <= k < |s| ==> s[k] < hi
    ensures Ascending(s[1..])
    ensures forall k :: 0 <= k < |s[1..]| ==> s[0] + 1 <= s[1..][k] < hi
  {
  }

  /** Filtering distributes over concatenation. */
  lemma {:induction false} WithoutAppend<T>(a: seq<T>, b: seq<T>, del: seq<int>, base: int)
    ensures Without(a + b, del, base) == Without(a, del, base) + Without(b, del, base + |a|)
    decreases |a|
  {
    if a == [] {
      assert a + b == b;
    } else {
      assert (a + b)[1..] == a[1..] + b;
      WithoutAppend(a[1..], b, del, base + 1);
    }
  }

  /** Positions no index of `del` hits are all kept. */
  lemma {:induction false} WithoutNone<T>(xs: seq<T>, del: seq<int>, base: int)
    requires forall k :: 0 <= k < |del| ==> !(base <= del[k] < base + |xs|)
    ensures Without(xs, del, base) == xs
    decreases |xs|
  {
    if xs != [] {
      WithoutNone(xs[1..], del, base + 1);
    }
  }

  /** Two index lists that agree on the positions of `xs` filter it alike. */
  lemma {:induction false} WithoutAgree<T>(xs: seq<T>, d1: seq<int>, d2: seq<int>, base: int)
    requires forall p :: base <= p < base + |xs| ==> (p in d1 <==> p in d2)
    ensures Without(xs, d1, base) == Without(xs, d2, base)
    decreases |xs|
  {
    if xs != [] {
      WithoutAgree(xs[1..], d1, d2, base + 1);
    }
  }

  /** Filtering `rest` when the first listed index hits its position `q` and no
      listed index hits an earlier position: the prefix survives, `rest[q]` goes,
      and the tail is filtered by the remaining indices. */
  lemma {:induction false} WithoutAtFirst<T>(rest: seq<T>, toDelete: seq<int>, base: int, q: nat)
    requires Ascending(toDelete) && |toDelete| > 0
    requires q < |rest| && toDelete[0] == base + q
    ensures Without(rest, toDelete, base)
         == rest[..q] + Without(rest[q + 1..], toDelete[1..], base + q + 1)
  {
    var rest' := rest[q + 1..];
    var head := Without(rest[..q], toDelete, base);
    var mid := Without([rest[q]] + rest', toDelete, base + q);
    assert Without(rest, toDelete, base) == head + mid by {
      assert rest == rest[..q] + ([rest[q]] + rest');
      WithoutAppend(rest[..q], [rest[q]] + rest', toDelete, base);
    }
    assert head == rest[..q] by {
      forall k | 0 <= k < |toDelete|
        ensures !(base <= toDelete[k] < base + q)
      {
        if k > 0 { assert toDelete[0] < toDelete[k]; }
      }
      WithoutNone(rest[..q], toDelete, base);
    }
    assert mid == Without(rest', toDelete, base + q + 1) by {
      assert ([rest[q]] + rest')[1..] == rest';
    }
    assert Without(rest', toDelete, base + q + 1) == Without(rest', toDelete[1..], base + q + 1) by {
      forall p | base + q + 1 <= p < base + q + 1 + |rest'|
        ensures p in toDelete <==> p in toDelete[1..]
      {
        if p in toDelete {
          var k :| 0 <= k < |toDelete| && toDelete[k] == p;
          assert k != 0;
          assert toDelete[1..][k - 1] == p;
        }
      }
      WithoutAgree(rest', toDelete, toDelete[1..], base + q + 1);
    }
  }

  /** One turn of the removal loop, when the first recorded index falls at
      position `q` of `rest`. */
  lemma SpliceAtFirst<T>(pre: seq<T>, rest: seq<T>, toDelete: seq<int>, deleted: int, q: nat)
    requires |toDelete| > 0 && q < |rest| && toDelete[0] == |pre| + deleted + q
    ensures SpliceOut(pre + rest, toDelete, deleted)
         == SpliceOut((pre + rest[..q]) + rest[q + 1..], toDelete[1..], deleted + 1)
  {
    var j := toDelete[0];
    assert (pre + rest)[..j - deleted] == pre + rest[..q];
    assert (pre + rest)[j - deleted + 1..] == rest[q + 1..];
    assert Splice(pre + rest, j - deleted, 1, []) == (pre + rest[..q]) + rest[q + 1..];
  }

  /** The heart of the removal loop: with `pre` already cleaned and `deleted`
      removals done, every remaining recorded index `j` sits at `j - deleted`
      in the current list, so each splice removes exactly the element recorded. */
  lemma {:induction false} SpliceOutShifted<T>(pre: seq<T>, rest: seq<T>, toDelete: seq<int>, deleted: int)
    requires Ascending(toDelete)
    requires forall k :: 0 <= k < |toDelete| ==>
               |pre| + deleted <= toDelete[k] < |pre| + deleted + |rest|
    ensures SpliceOut(pre + rest, toDelete, deleted) == pre + Without(rest, toDelete, |pre| + deleted)
    decreases |toDelete|
  {
    var base := |pre| + deleted;
    if toDelete == [] {
      WithoutNone(rest, toDelete, base);
    } else {
      var j := toDelete[0];
      var q := j - base;
      var pre' := pre + rest[..q];
      var rest' := rest[q + 1..];
      var tail := toDelete[1..];
      SpliceAtFirst(pre, rest, toDelete, deleted, q);
      assert SpliceOut(pre' + rest', tail, deleted + 1) == pre' + Without(rest', tail, j + 1) by {
        AscendingTail(toDelete, base + |rest|);
        SpliceOutShifted(pre', rest', tail, deleted + 1);
      }
      assert Without(rest, toDelete, base) == rest[..q] + Without(rest', tail, j + 1) by {
        WithoutAtFirst(rest, toDelete, base, q);
      }
      var w := Without(rest', tail, j + 1);
      assert pre + (rest[..q] + w) == pre' + w;
    }
  }

  /** Splicing out an ascending list of indices of the original elements, one at
      a time at the index minus the count already removed, removes exactly those
      elements and leaves anything appended after the original elements untouched. */
  lemma {:induction false} SpliceOutRemovesExactly<T>(xs: seq<T>, appended: seq<T>, toDelete: seq<int>)
    requires Ascending(toDelete)
    requires forall k :: 0 <= k < |toDelete| ==> 0 <= toDelete[k] < |xs|
    ensures SpliceOut(xs + appended, toDelete, 0) == Without(xs, toDelete, 0) + appended
  {
    var all := xs + appended;
    assert SpliceOut(all, toDelete, 0) == Without(all, toDelete, 0) by {
      var empty: seq<T> := [];
      assert empty + all == all;
      forall k | 0 <= k < |toDelete| ensures 0 <= toDelete[k] < |all| {
      }
      SpliceOutShifted(empty, all, toDelete, 0);
    }
    assert Without(all, toDelete, 0) == Without(xs, toDelete, 0) + appended by {
      WithoutAppend(xs, appended, toDelete, 0);
      WithoutNone(appended, toDelete, |xs|);
    }
  }
}
