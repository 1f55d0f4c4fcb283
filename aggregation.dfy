/**
 * The flattening step of the `/analyze` handler: the per-URL banner lists
 * are concatenated, in URL order, into one list, and an empty list is
 * reported as an absent banner list.
 */
module Aggregation {
  import opened Wrappers

  /**
   * The concatenation of `parts`, in order. Nothing is dropped or
   * deduplicated: its length is the sum of the parts' lengths.
   */
  function Flatten<B>(parts: seq<seq<B>>): (r: seq<B>)
    ensures |r| == SumLengths(parts)
  {
    if parts == [] then [] else parts[0] + Flatten(parts[1..])
  }

  /** The sum of the lengths of `parts`. */
  function SumLengths<B>(parts: seq<seq<B>>): nat
  {
    if parts == [] then 0 else |parts[0]| + SumLengths(parts[1..])
  }

  /** Where the banners of `parts[i]` start in the flattened list. */
  function Offset<B>(parts: seq<seq<B>>, i: nat): nat
    requires i <= |parts|
  {
    SumLengths(parts[..i])
  }

  /**
   * The banner list of the response: absent exactly when the flattened
   * list is empty, otherwise the flattened list itself.
   */
  function ResponseBannerList<B>(flat: seq<B>): (r: Option<seq<B>>)
    ensures r.None? <==> |flat| == 0
    ensures r.Some? ==> r.value == flat
  {
    if |flat| == 0 then None else Some(flat)
  }

  /** Flattening distributes over concatenation of the part lists. */
  lemma {:induction false} FlattenConcat<B>(a: seq<seq<B>>, b: seq<seq<B>>)
    ensures Flatten(a + b) == Flatten(a) + Flatten(b)
  {
    if a == [] {
      assert a + b == b;
    } else {
      assert (a + b)[1..] == a[1..] + b;
      FlattenConcat(a[1..], b);
    }
  }

  /** Extending the accumulator by one more part: the step of the flattening loop. */
  lemma {:induction false} FlattenSnoc<B>(parts: seq<seq<B>>, p: seq<B>)
    ensures Flatten(parts + [p]) == Flatten(parts) + p
  {
    FlattenConcat(parts, [p]);
    assert [p][1..] == [];
  }

  /** After the first `k` parts the accumulator is exactly their concatenation. */
  lemma {:induction false} FlattenPrefix<B>(parts: seq<seq<B>>, k: nat)
    requires k < |parts|
    ensures Flatten(parts[..k + 1]) == Flatten(parts[..k]) + parts[k]
  {
    assert parts[..k + 1] == parts[..k] + [parts[k]];
    FlattenSnoc(parts[..k], parts[k]);
  }

  /**
   * Every part appears unchanged, as one contiguous block, at its offset in
   * the flattened list: order within each part and between parts is kept.
   */
  lemma FlattenBlock<B>(parts: seq<seq<B>>, i: nat)
    requires i < |parts|
    ensures Offset(parts, i) + |parts[i]| <= |Flatten(parts)|
    ensures Flatten(parts)[Offset(parts, i)..Offset(parts, i) + |parts[i]|] == parts[i]
  {
    assert parts == parts[..i] + ([parts[i]] + parts[i + 1..]);
    FlattenConcat(parts[..i], [parts[i]] + parts[i + 1..]);
    FlattenConcat([parts[i]], parts[i + 1..]);
    assert Flatten([parts[i]]) == parts[i] by {
      assert [parts[i]][1..] == [];
    }
  }

  /** Each banner of part `i` sits at its offset plus its index within the part. */
  lemma FlattenAt<B>(parts: seq<seq<B>>, i: nat, j: nat)
    requires i < |parts| && j < |parts[i]|
    ensures Offset(parts, i) + j < |Flatten(parts)|
    ensures Flatten(parts)[Offset(parts, i) + j] == parts[i][j]
  {
    FlattenBlock(parts, i);
    var o := Offset(parts, i);
    assert Flatten(parts)[o..o + |parts[i]|][j] == parts[i][j];
  }

  /** The flattened list is empty exactly when every part is empty. */
  lemma {:induction false} FlattenEmpty<B>(parts: seq<seq<B>>)
    ensures |Flatten(parts)| == 0 <==> forall i :: 0 <= i < |parts| ==> |parts[i]| == 0
  {
    if parts != [] {
      FlattenEmpty(parts[1..]);
      assert forall i :: 1 <= i < |parts| ==> parts[i] == parts[1..][i - 1];
    }
  }

  /** A banner is in the flattened list exactly when it is in one of the parts. */
  lemma {:induction false} FlattenMembers<B>(parts: seq<seq<B>>, x: B)
    ensures x in Flatten(parts) <==> exists i :: 0 <= i < |parts| && x in parts[i]
  {
    if parts != [] {
      FlattenMembers(parts[1..], x);
      if x in Flatten(parts[1..]) {
        var i :| 0 <= i < |parts[1..]| && x in parts[1..][i];
        assert x in parts[i + 1];
      }
      if exists i :: 0 <= i < |parts| && x in parts[i] {
        var i :| 0 <= i < |parts| && x in parts[i];
        if i > 0 {
          assert x in parts[1..][i - 1];
        }
      }
    }
  }
}
