/** Sequence facts shared by the validators: distinctness, JavaScript `Set` insertion semantics,
    and "parse every element, report the first failure". */
module Seqs {
  import opened Wrappers

  predicate Distinct<T(==)>(s: seq<T>)
  {
    forall i, j :: 0 <= i < j < |s| ==> s[i] != s[j]
  }

  /** The elements of `s`, added one by one to a set (`new Set(s)`). */
  function Elements<T>(s: seq<T>): set<T>
  {
    if s == [] then {} else Elements(s[..|s| - 1]) + {s[|s| - 1]}
  }

  /** `[...new Set(s)]`: each element kept at its first occurrence, in insertion order. */
  function Dedup<T(==)>(s: seq<T>): seq<T>
  {
    if s == [] then []
    else
      var d := Dedup(s[..|s| - 1]);
      if s[|s| - 1] in d then d else d + [s[|s| - 1]]
  }

  /** Position of the first occurrence of `x` in `s`. */
  function FirstIndex<T(==)>(s: seq<T>, x: T): (k: nat)
    requires x in s
    ensures k < |s| && s[k] == x && x !in s[..k]
  {
    if s[0] == x then 0 else 1 + FirstIndex(s[1..], x)
  }

  lemma FirstIndexUnique<T>(s: seq<T>, x: T, k: nat)
    requires k < |s| && s[k] == x && x !in s[..k]
    ensures FirstIndex(s, x) == k
  {
  }

  /** A set built from a sequence holds exactly its elements, and has as many elements as the
      sequence has positions exactly when no element repeats. */
  lemma {:induction false} ElementsCard<T>(s: seq<T>)
    ensures forall x :: x in Elements(s) <==> x in s
    ensures |Elements(s)| <= |s|
    ensures |Elements(s)| == |s| <==> Distinct(s)
  {
    if s != [] {
      var p, l := s[..|s| - 1], s[|s| - 1];
      assert s == p + [l];
      ElementsCard(p);
      if l in Elements(p) {
        var k :| 0 <= k < |p| && p[k] == l;
        assert s[k] == s[|s| - 1];
        assert !Distinct(s);
      } else {
        assert |Elements(s)| == |Elements(p)| + 1;
        if Distinct(p) {
          forall i, j | 0 <= i < j < |s| ensures s[i] != s[j] {
            if j == |s| - 1 {
              assert s[i] == p[i];
            } else {
              assert s[i] == p[i] && s[j] == p[j];
            }
          }
        } else {
          var i, j :| 0 <= i < j < |p| && p[i] == p[j];
          assert s[i] == s[j];
        }
      }
    }
  }

  /** `Dedup` keeps exactly the input's elements, repeats none of them, and orders them by
      their first occurrence in the input. */
  lemma {:induction false} DedupSpec<T>(s: seq<T>)
    ensures forall x :: x in Dedup(s) <==> x in s
    ensures Distinct(Dedup(s))
    ensures |Dedup(s)| <= |s|
    ensures forall i, j :: 0 <= i < j < |Dedup(s)| ==>
              FirstIndex(s, Dedup(s)[i]) < FirstIndex(s, Dedup(s)[j])
  {
    if s != [] {
      var p, l := s[..|s| - 1], s[|s| - 1];
      assert s == p + [l];
      DedupSpec(p);
      var d := Dedup(p);
      forall x | x in p ensures FirstIndex(s, x) == FirstIndex(p, x) {
        var k := FirstIndex(p, x);
        assert s[..k] == p[..k];
        FirstIndexUnique(s, x, k);
      }
      if l !in d {
        assert l !in p;
        assert s[..|p|] == p;
        FirstIndexUnique(s, l, |p|);
        assert Dedup(s) == d + [l];
      }
    }
  }

  /** `idx` is a strictly increasing list of positions of `s`, and `r` holds the elements of `s`
      at those positions, in that order. */
  ghost predicate PicksAt<T>(r: seq<T>, s: seq<T>, idx: seq<int>)
  {
    && |idx| == |r|
    && (forall k :: 0 <= k < |idx| ==> 0 <= idx[k] < |s| && r[k] == s[idx[k]])
    && (forall k, l :: 0 <= k < l < |idx| ==> idx[k] < idx[l])
  }

  /** `r` is a subsequence of `s`: its elements occur in `s` in the same order. */
  ghost predicate IsSubsequence<T>(r: seq<T>, s: seq<T>)
  {
    exists idx :: PicksAt(r, s, idx)
  }

  /** `r` is `s.filter(keep)`: it picks exactly the positions whose element `keep` accepts, so
      the kept elements stay in their order and keep their multiplicity. */
  ghost predicate IsFilter<T>(r: seq<T>, s: seq<T>, keep: T -> bool)
  {
    exists idx :: PicksAt(r, s, idx) && CoversKept(s, keep, idx)
  }

  lemma FilterEmpty<T>(keep: T -> bool)
    ensures IsFilter([], [], keep)
  {
    assert PicksAt<T>([], [], []);
  }

  /** The positions `keep` accepts in `s` are exactly those listed in `idx`. */
  ghost predicate CoversKept<T>(s: seq<T>, keep: T -> bool, idx: seq<int>)
  {
    forall i :: 0 <= i < |s| ==> (keep(s[i]) <==> i in idx)
  }

  /** Filtering `[x] + s` gives `x`, if it is kept, followed by the filtered rest. */
  lemma FilterCons<T>(x: T, s: seq<T>, r: seq<T>, keep: T -> bool)
    requires IsFilter(r, s, keep)
    ensures IsFilter(if keep(x) then [x] + r else r, [x] + s, keep)
  {
    var idx :| PicksAt(r, s, idx) && CoversKept(s, keep, idx);
    var shifted := ShiftPicks(x, s, r, idx);
    var s' := [x] + s;
    forall i | 1 <= i < |s'| ensures keep(s'[i]) <==> i in shifted {
      assert s'[i] == s[i - 1];
      assert keep(s[i - 1]) <==> i - 1 in idx;
    }
    if keep(x) {
      var idx' := KeepHead(x, s, r, keep, shifted);
      assert PicksAt([x] + r, s', idx') && CoversKept(s', keep, idx');
    } else {
      assert 0 !in shifted;
      assert CoversKept(s', keep, shifted);
      assert PicksAt(r, s', shifted) && CoversKept(s', keep, shifted);
    }
  }

  lemma KeepHead<T>(x: T, s: seq<T>, r: seq<T>, keep: T -> bool, shifted: seq<int>) returns (idx: seq<int>)
    requires keep(x)
    requires PicksAt(r, [x] + s, shifted)
    requires forall k :: 0 <= k < |shifted| ==> shifted[k] >= 1
    requires forall i :: 1 <= i < |[x] + s| ==> (keep(([x] + s)[i]) <==> i in shifted)
    ensures PicksAt([x] + r, [x] + s, idx) && CoversKept([x] + s, keep, idx)
  {
    idx := [0] + shifted;
    var s' := [x] + s;
    forall k | 0 <= k < |idx| ensures 0 <= idx[k] < |s'| && ([x] + r)[k] == s'[idx[k]] {
      if k > 0 {
        assert idx[k] == shifted[k - 1];
      }
    }
    forall i | 0 <= i < |s'| ensures keep(s'[i]) <==> i in idx {
      if i > 0 {
        assert i in shifted <==> i in idx;
      }
    }
  }

  /** The positions of `s` moved one place on, as positions of `[x] + s`. */
  lemma ShiftPicks<T>(x: T, s: seq<T>, r: seq<T>, idx: seq<int>) returns (shifted: seq<int>)
    requires PicksAt(r, s, idx)
    ensures PicksAt(r, [x] + s, shifted)
    ensures forall k :: 0 <= k < |shifted| ==> shifted[k] >= 1
    ensures forall i :: 1 <= i <= |s| ==> (i in shifted <==> i - 1 in idx)
  {
    shifted := seq(|idx|, k requires 0 <= k < |idx| => idx[k] + 1);
    forall i | 1 <= i <= |s| ensures i in shifted <==> i - 1 in idx {
      if i in shifted {
        var k :| 0 <= k < |shifted| && shifted[k] == i;
        assert idx[k] == i - 1;
      }
      if i - 1 in idx {
        var k :| 0 <= k < |idx| && idx[k] == i - 1;
        assert shifted[k] == i;
      }
    }
  }

  /** Appending to both sequences keeps a subsequence one. */
  lemma SubsequenceSnoc<T>(r: seq<T>, s: seq<T>, x: T, takeIt: bool)
    requires IsSubsequence(r, s)
    ensures IsSubsequence(if takeIt then r + [x] else r, s + [x])
  {
    var idx :| PicksAt(r, s, idx);
    if takeIt {
      assert PicksAt(r + [x], s + [x], idx + [|s|]);
    } else {
      assert PicksAt(r, s + [x], idx);
    }
  }

  /** Parses every element in order and stops at the first one that fails. */
  function ParseAll<A, B>(xs: seq<A>, f: A -> Result<B>): (r: Result<seq<B>>)
    ensures r.Ok? <==> forall i :: 0 <= i < |xs| ==> f(xs[i]).Ok?
    ensures r.Ok? ==> |r.data| == |xs| && forall i :: 0 <= i < |xs| ==> r.data[i] == f(xs[i]).data
    ensures r.Err? ==> exists k :: 0 <= k < |xs| && FirstFailure(xs, f, k) && r.error == f(xs[k]).error
  {
    if xs == [] then Ok([])
    else match f(xs[0])
      case Err(e) =>
        assert FirstFailure(xs, f, 0);
        Err(e)
      case Ok(y) =>
        match ParseAll(xs[1..], f)
        case Err(e) =>
          var k :| 0 <= k < |xs[1..]| && FirstFailure(xs[1..], f, k) && e == f(xs[1..][k]).error;
          assert FirstFailure(xs, f, k + 1);
          Err(e)
        case Ok(ys) => Ok([y] + ys)
  }

  /** Element `k` is the first whose parse fails. */
  predicate FirstFailure<A, B>(xs: seq<A>, f: A -> Result<B>, k: nat)
  {
    k < |xs| && f(xs[k]).Err? && forall j :: 0 <= j < k ==> f(xs[j]).Ok?
  }
}
