/**
 The string-to-id direction of the lexicon. The lexicon stores it as a map that
 it updates with "insert unless present"; this module gives an independent
 reference definition of that map, computed from the id-ordered list of
 strings alone, and proves that one insert per append keeps the two equal.
 */
module TermIndex {

  /** Position of the first occurrence of `s` in `ids`. */
  function FirstIndex(ids: seq<string>, s: string): (i: nat)
    requires s in ids
    ensures i < |ids| && ids[i] == s
    ensures forall j :: 0 <= j < i ==> ids[j] != s
  {
    if ids[0] == s then 0
    else
      assert s in ids[1..] by { assert ids == [ids[0]] + ids[1..]; }
      1 + FirstIndex(ids[1..], s)
  }

  /**
   The ordered-map insert of the original: `k` is bound to `v` only when `k` is
   absent; an existing binding is kept, never overwritten.
   */
  function Insert<K, V>(m: map<K, V>, k: K, v: V): (r: map<K, V>)
    ensures r.Keys == m.Keys + {k}
    ensures forall x :: x in m ==> r[x] == m[x]
    ensures k !in m ==> r[k] == v
  {
    if k in m then m else m[k := v]
  }

  /**
   Reference definition of the reverse mapping: every string that occurs in
   `ids` is mapped to the position of its first occurrence.
   */
  ghost function IndexOf(ids: seq<string>): (m: map<string, nat>)
    ensures forall s :: s in m <==> s in ids
  {
    map s | s in ids :: FirstIndex(ids, s)
  }

  /**
   The reference map and the id list agree both ways: a mapped string sits at
   its id, and every position's string is mapped to that position or to an
   earlier occurrence of the same string.
   */
  lemma IndexOfConsistent(ids: seq<string>)
    ensures forall s :: s in IndexOf(ids) ==> IndexOf(ids)[s] < |ids| && ids[IndexOf(ids)[s]] == s
    ensures forall i :: 0 <= i < |ids| ==> ids[i] in IndexOf(ids) && IndexOf(ids)[ids[i]] <= i
  {
  }

  /** Appending a string does not move the first occurrence of an earlier one. */
  lemma {:induction false} FirstIndexAppend(ids: seq<string>, t: string, s: string)
    requires s in ids
    ensures s in ids + [t] && FirstIndex(ids + [t], s) == FirstIndex(ids, s)
  {
    if ids[0] != s {
      assert s in ids[1..] by { assert ids == [ids[0]] + ids[1..]; }
      FirstIndexAppend(ids[1..], t, s);
      assert (ids + [t])[1..] == ids[1..] + [t];
    }
  }

  /** A string that is new to `ids` first occurs at the appended position. */
  lemma FirstIndexNew(ids: seq<string>, t: string)
    requires t !in ids
    ensures t in ids + [t] && FirstIndex(ids + [t], t) == |ids|
  {
  }


  /**
   One "insert unless present" of the new position, per appended string, keeps
   the stored map equal to the reference definition.
   */
  lemma InsertAppend(ids: seq<string>, t: string)
    ensures Insert(IndexOf(ids), t, |ids|) == IndexOf(ids + [t])
  {
    if t in ids {
      AppendPresent(ids, t);
    } else {
      AppendNew(ids, t);
    }
  }

  /** Appending a string already present leaves the reference map unchanged. */
  lemma AppendPresent(ids: seq<string>, t: string)
    requires t in ids
    ensures IndexOf(ids + [t]) == IndexOf(ids)
  {
    var before, after := IndexOf(ids), IndexOf(ids + [t]);
    forall s | s in ids ensures s in after && after[s] == before[s] {
      FirstIndexAppend(ids, t, s);
    }
    assert after.Keys == before.Keys;
  }

  /** Appending a new string adds exactly that string, at the appended position. */
  lemma AppendNew(ids: seq<string>, t: string)
    requires t !in ids
    ensures IndexOf(ids + [t]) == IndexOf(ids)[t := |ids|]
  {
    var after, expected := IndexOf(ids + [t]), IndexOf(ids)[t := |ids|];
    forall s | s in after
      ensures s in expected && expected[s] == after[s]
    {
      if s == t {
        FirstIndexNew(ids, t);
      } else {
        assert s in ids by { assert (ids + [t])[FirstIndex(ids + [t], s)] == s; }
        FirstIndexAppend(ids, t, s);
      }
    }
    forall s | s in expected ensures s in after {
      assert s in ids + [t] by { assert s == t || s in ids; }
    }
  }

  /** No string occurs twice in `ids`. */
  ghost predicate Distinct(ids: seq<string>)
  {
    forall i, j :: 0 <= i < j < |ids| ==> ids[i] != ids[j]
  }

  /** Appending a string keeps the list repetition-free exactly when the string is new. */
  lemma DistinctAppend(pre: seq<string>, t: string)
    ensures Distinct(pre + [t]) <==> Distinct(pre) && t !in pre
  {
    var ids := pre + [t];
    if t in pre {
      var i :| 0 <= i < |pre| && pre[i] == t;
      assert ids[i] == ids[|pre|];
    } else if !Distinct(pre) {
      var i, j :| 0 <= i < j < |pre| && pre[i] == pre[j];
      assert ids[i] == ids[j];
    } else {
      forall i, j | 0 <= i < j < |ids| ensures ids[i] != ids[j] {
        assert ids[i] == pre[i];
        if j < |pre| { assert ids[j] == pre[j]; }
      }
    }
  }

  /**
   The reference map has at most one key per position, and exactly one per
   position when no string repeats.
   */
  lemma {:induction false} DistinctCount(ids: seq<string>)
    ensures |IndexOf(ids)| <= |ids|
    ensures |IndexOf(ids)| == |ids| <==> Distinct(ids)
  {
    if ids == [] {
      assert IndexOf(ids) == map[];
    } else {
      var pre, t := ids[..|ids| - 1], ids[|ids| - 1];
      assert ids == pre + [t];
      DistinctCount(pre);
      DistinctAppend(pre, t);
      if t in pre {
        AppendPresent(pre, t);
      } else {
        AppendNew(pre, t);
        assert t !in IndexOf(pre);
      }
    }
  }
}
