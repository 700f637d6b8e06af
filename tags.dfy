/** Tag helpers and the tag schema (src/lib/types/tags.ts). */
module Tags {
  import opened Wrappers
  import opened Enums
  import opened Seqs

  /** A tag as submitted: the type is still an unchecked string. */
  datatype RawTag = RawTag(name: string, tagType: string)

  /** A tag accepted by the schema. */
  datatype Tag = Tag(name: string, tagType: TagType)

  /** A tag row as read from the database. */
  datatype CourseTag = CourseTag(tagId: string, name: string, tagType: TagType)

  const TagNeedsName := "Tag needs a name"
  const TagNeedsType := "Tag needs to belong to a predefined type"

  predicate IsTagTypeName(s: string)
  {
    exists t :: TagTypeName(t) == s
  }

  predicate ValidTag(t: RawTag)
  {
    t.name != "" && IsTagTypeName(t.tagType)
  }

  /** The tag schema: a non-empty name, then a type from the tag-type enumeration. */
  function ParseTag(t: RawTag): (r: Result<Tag>)
    ensures r.Ok? <==> ValidTag(t)
    ensures r.Ok? ==> r.data.name == t.name && TagTypeName(r.data.tagType) == t.tagType
    ensures t.name == "" ==> r == Err(TagNeedsName)
    ensures t.name != "" && !IsTagTypeName(t.tagType) ==> r == Err(TagNeedsType)
  {
    if t.name == "" then Err(TagNeedsName)
    else match ParseTagType(t.tagType)
      case None => Err(TagNeedsType)
      case Some(k) => Ok(Tag(t.name, k))
  }

  // ---------------------------------------------------------------- toggleTag

  predicate HasName<T>(arr: seq<T>, n: string, nameOf: T -> string)
  {
    exists i :: 0 <= i < |arr| && nameOf(arr[i]) == n
  }

  predicate UniqueNames<T>(arr: seq<T>, nameOf: T -> string)
  {
    forall i, j :: 0 <= i < j < |arr| ==> nameOf(arr[i]) != nameOf(arr[j])
  }

  /** `arr.filter((v) => v.name !== n)`. */
  function RemoveNamed<T(!new)>(arr: seq<T>, n: string, nameOf: T -> string): (r: seq<T>)
    ensures forall x :: x in r <==> x in arr && nameOf(x) != n
    ensures !HasName(r, n, nameOf)
    ensures |r| <= |arr|
    ensures IsFilter(r, arr, x => nameOf(x) != n)
  {
    if arr == [] then
      FilterEmpty<T>(x => nameOf(x) != n);
      []
    else
      var rest := RemoveNamed(arr[1..], n, nameOf);
      RemoveNamedStep(arr[0], arr[1..], rest, n, nameOf);
      assert [arr[0]] + arr[1..] == arr;
      if nameOf(arr[0]) == n then rest else [arr[0]] + rest
  }

  /** One step of the filter: the facts about the tail's result carry over to the whole array. */
  lemma RemoveNamedStep<T(!new)>(x: T, s: seq<T>, rest: seq<T>, n: string, nameOf: T -> string)
    requires forall y :: y in rest <==> y in s && nameOf(y) != n
    requires |rest| <= |s|
    requires IsFilter(rest, s, y => nameOf(y) != n)
    ensures var r := if nameOf(x) == n then rest else [x] + rest;
      && (forall y :: y in r <==> y in [x] + s && nameOf(y) != n)
      && !HasName(r, n, nameOf)
      && |r| <= |s| + 1
      && IsFilter(r, [x] + s, y => nameOf(y) != n)
  {
    FilterCons(x, s, rest, y => nameOf(y) != n);
    var r := if nameOf(x) == n then rest else [x] + rest;
    assert forall y :: y in r <==> y in [x] + s && nameOf(y) != n;
  }

  /** Removes every element named like `value` if there is one; appends `value` otherwise. */
  function ToggleTag<T(!new)>(arr: seq<T>, value: T, nameOf: T -> string): (r: seq<T>)
    ensures HasName(arr, nameOf(value), nameOf) ==>
              (forall x :: x in r <==> x in arr && nameOf(x) != nameOf(value)) &&
              !HasName(r, nameOf(value), nameOf) &&
              IsFilter(r, arr, x => nameOf(x) != nameOf(value))
    ensures !HasName(arr, nameOf(value), nameOf) ==> r == arr + [value]
  {
    if HasName(arr, nameOf(value), nameOf) then RemoveNamed(arr, nameOf(value), nameOf)
    else arr + [value]
  }

  /** The filter keeps the others in their order: it distributes over concatenation. */
  lemma {:induction false} RemoveNamedConcat<T(!new)>(a: seq<T>, b: seq<T>, n: string, nameOf: T -> string)
    ensures RemoveNamed(a + b, n, nameOf) == RemoveNamed(a, n, nameOf) + RemoveNamed(b, n, nameOf)
  {
    if a == [] {
      assert a + b == b;
    } else {
      assert (a + b)[0] == a[0];
      assert (a + b)[1..] == a[1..] + b;
      RemoveNamedConcat(a[1..], b, n, nameOf);
    }
  }

  /** Filtering out a name nobody carries changes nothing. */
  lemma {:induction false} RemoveAbsentName<T(!new)>(arr: seq<T>, n: string, nameOf: T -> string)
    requires !HasName(arr, n, nameOf)
    ensures RemoveNamed(arr, n, nameOf) == arr
  {
    if arr != [] {
      assert nameOf(arr[0]) != n;
      assert !HasName(arr[1..], n, nameOf) by {
        forall i | 0 <= i < |arr[1..]| ensures nameOf(arr[1..][i]) != n {
          assert arr[1..][i] == arr[i + 1];
        }
      }
      RemoveAbsentName(arr[1..], n, nameOf);
    }
  }

  /** Toggling a tag that is absent twice gives back the original list. */
  lemma ToggleTwice<T(!new)>(arr: seq<T>, value: T, nameOf: T -> string)
    requires !HasName(arr, nameOf(value), nameOf)
    ensures ToggleTag(ToggleTag(arr, value, nameOf), value, nameOf) == arr
  {
    var once := arr + [value];
    assert once[|arr|] == value;
    assert HasName(once, nameOf(value), nameOf);
    RemoveNamedConcat(arr, [value], nameOf(value), nameOf);
    RemoveAbsentName(arr, nameOf(value), nameOf);
  }

  /** The filter picks positions in increasing order, so distinct names stay distinct. */
  lemma RemoveNamedKeepsUnique<T(!new)>(arr: seq<T>, n: string, nameOf: T -> string)
    requires UniqueNames(arr, nameOf)
    ensures UniqueNames(RemoveNamed(arr, n, nameOf), nameOf)
  {
    var r := RemoveNamed(arr, n, nameOf);
    var idx :| PicksAt(r, arr, idx) && CoversKept(arr, x => nameOf(x) != n, idx);
    forall i, j | 0 <= i < j < |r| ensures nameOf(r[i]) != nameOf(r[j]) {
      assert r[i] == arr[idx[i]] && r[j] == arr[idx[j]] && idx[i] < idx[j];
    }
  }

  /** A list with unique names keeps unique names when a tag is toggled. */
  lemma ToggleKeepsUnique<T(!new)>(arr: seq<T>, value: T, nameOf: T -> string)
    requires UniqueNames(arr, nameOf)
    ensures UniqueNames(ToggleTag(arr, value, nameOf), nameOf)
  {
    if HasName(arr, nameOf(value), nameOf) {
      RemoveNamedKeepsUnique(arr, nameOf(value), nameOf);
    } else {
      var r := arr + [value];
      forall i, j | 0 <= i < j < |r| ensures nameOf(r[i]) != nameOf(r[j]) {
        if j == |arr| {
          assert r[i] == arr[i];
        } else {
          assert r[i] == arr[i] && r[j] == arr[j];
        }
      }
    }
  }

  // ---------------------------------------------------------------- groupTags

  predicate HasNameIn(bucket: seq<CourseTag>, n: string)
  {
    exists y :: y in bucket && y.name == n
  }

  /** The bucket `groupTags` builds for type `k` from `tags`, one tag at a time. */
  function Bucket(tags: seq<CourseTag>, k: TagType): seq<CourseTag>
  {
    if tags == [] then []
    else
      var b := Bucket(tags[..|tags| - 1], k);
      var t := tags[|tags| - 1];
      if t.tagType == k && !HasNameIn(b, t.name) then b + [t] else b
  }

  /** Groups tags by type; a tag whose name is already in its type's bucket is skipped. */
  method GroupTags(tags: seq<CourseTag>) returns (groups: map<TagType, seq<CourseTag>>)
    ensures forall k :: k in groups <==> exists i :: 0 <= i < |tags| && tags[i].tagType == k
    ensures forall k :: k in groups ==> groups[k] == Bucket(tags, k)
  {
    groups := map[];
    for i := 0 to |tags|
      invariant forall k :: k in groups <==> exists j :: 0 <= j < i && tags[j].tagType == k
      invariant forall k :: k in groups ==> groups[k] == Bucket(tags[..i], k)
    {
      var tag := tags[i];
      assert tags[..i + 1][..i] == tags[..i];
      if tag.tagType !in groups {
        BucketWithoutType(tags[..i], tag.tagType);
        groups := groups[tag.tagType := []];
      }
      if !HasNameIn(groups[tag.tagType], tag.name) {
        groups := groups[tag.tagType := groups[tag.tagType] + [tag]];
      }
    }
    assert tags[..|tags|] == tags;
  }

  /** A bucket lists its tags in input order. */
  lemma {:induction false} BucketInOrder(tags: seq<CourseTag>, k: TagType)
    ensures IsSubsequence(Bucket(tags, k), tags)
  {
    if tags == [] {
      assert PicksAt<CourseTag>([], [], []);
    } else {
      var p, t := tags[..|tags| - 1], tags[|tags| - 1];
      assert tags == p + [t];
      BucketInOrder(p, k);
      SubsequenceSnoc(Bucket(p, k), p, t, t.tagType == k && !HasNameIn(Bucket(p, k), t.name));
    }
  }

  lemma {:induction false} BucketWithoutType(tags: seq<CourseTag>, k: TagType)
    requires forall j :: 0 <= j < |tags| ==> tags[j].tagType != k
    ensures Bucket(tags, k) == []
  {
    if tags != [] {
      BucketWithoutType(tags[..|tags| - 1], k);
    }
  }

  /** A bucket holds only input tags of its type. */
  lemma {:induction false} BucketFromInput(tags: seq<CourseTag>, k: TagType)
    ensures forall y :: y in Bucket(tags, k) ==> y in tags && y.tagType == k
  {
    if tags != [] {
      var p := tags[..|tags| - 1];
      assert tags == p + [tags[|tags| - 1]];
      BucketFromInput(p, k);
    }
  }

  /** Every name carried by an input tag of type `k` is in the bucket for `k`. */
  lemma {:induction false} BucketCoversNames(tags: seq<CourseTag>, k: TagType)
    ensures forall i :: 0 <= i < |tags| && tags[i].tagType == k ==> HasNameIn(Bucket(tags, k), tags[i].name)
  {
    if tags != [] {
      var p, t := tags[..|tags| - 1], tags[|tags| - 1];
      BucketCoversNames(p, k);
      var b := Bucket(p, k);
      forall i | 0 <= i < |tags| && tags[i].tagType == k ensures HasNameIn(Bucket(tags, k), tags[i].name) {
        if i < |p| {
          assert p[i] == tags[i];
          var y :| y in b && y.name == p[i].name;
          assert y in Bucket(tags, k);
        } else if !HasNameIn(b, t.name) {
          assert Bucket(tags, k)[|b|] == t;
        }
      }
    }
  }

  /** No two tags in a bucket share a name. */
  lemma {:induction false} BucketUniqueNames(tags: seq<CourseTag>, k: TagType)
    ensures forall i, j :: 0 <= i < j < |Bucket(tags, k)| ==> Bucket(tags, k)[i].name != Bucket(tags, k)[j].name
  {
    if tags != [] {
      var p, t := tags[..|tags| - 1], tags[|tags| - 1];
      BucketUniqueNames(p, k);
      var b := Bucket(p, k);
      if t.tagType == k && !HasNameIn(b, t.name) {
        var r := b + [t];
        forall i, j | 0 <= i < j < |r| ensures r[i].name != r[j].name {
          if j == |b| {
            assert r[i] == b[i];
            assert b[i] in b;
          } else {
            assert r[i] == b[i] && r[j] == b[j];
          }
        }
      }
    }
  }

  /** For each name, the bucket keeps the first input tag of its type that carries it. */
  lemma BucketFirstOccurrence(tags: seq<CourseTag>, k: TagType)
    ensures forall y, i :: y in Bucket(tags, k) && 0 <= i < |tags| && tags[i].tagType == k && tags[i].name == y.name
              ==> exists j :: 0 <= j <= i && tags[j] == y
  {
    forall y, i | y in Bucket(tags, k) && 0 <= i < |tags| && tags[i].tagType == k && tags[i].name == y.name
      ensures exists j :: 0 <= j <= i && tags[j] == y
    {
      var j := BucketFirstAt(tags, k, y, i);
    }
  }

  lemma {:induction false} BucketFirstAt(tags: seq<CourseTag>, k: TagType, y: CourseTag, i: nat) returns (j: nat)
    requires y in Bucket(tags, k) && i < |tags| && tags[i].tagType == k && tags[i].name == y.name
    ensures j <= i && tags[j] == y
  {
    var p, t := tags[..|tags| - 1], tags[|tags| - 1];
    var b := Bucket(p, k);
    if y in b {
      if i < |p| {
        assert p[i] == tags[i];
        j := BucketFirstAt(p, k, y, i);
        assert tags[j] == p[j];
      } else {
        BucketFromInput(p, k);
        var j' :| 0 <= j' < |p| && p[j'] == y;
        j := j';
      }
    } else {
      assert !HasNameIn(b, t.name);
      if i < |p| {
        BucketCoversNames(p, k);
        assert false;
      }
      j := i;
    }
  }
}
