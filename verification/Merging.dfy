/**
 The load-balancer merge that both the result builder and the task run: every
 existing entry is replaced by the first remaining update with the same ID, and
 the updates left over are appended in their order.
 */
module Merging {
  import opened Sequences
  import opened Spec

  /** The first entry with the given ID. */
  function Find(s: seq<Lb>, id: string): Option<Lb>
  {
    if s == [] then None
    else if s[0].Id() == id then Some(s[0])
    else Find(s[1..], id)
  }

  /** The sequence without its first entry of the given ID. */
  function Remove(s: seq<Lb>, id: string): seq<Lb>
  {
    if s == [] then []
    else if s[0].Id() == id then s[1..]
    else [s[0]] + Remove(s[1..], id)
  }

  /** What takes the place of `lb`: its update if there is one. */
  function Pick(updates: seq<Lb>, lb: Lb): Lb
  {
    match Find(updates, lb.Id())
    case Some(u) => u
    case None => lb
  }

  function Merge(olds: seq<Lb>, updates: seq<Lb>): seq<Lb>
  {
    if olds == [] then updates
    else [Pick(updates, olds[0])] + Merge(olds[1..], Remove(updates, olds[0].Id()))
  }

  function Ids(s: seq<Lb>): (r: seq<string>)
    ensures |r| == |s|
    ensures forall i :: 0 <= i < |s| ==> r[i] == s[i].Id()
  {
    seq(|s|, i requires 0 <= i < |s| => s[i].Id())
  }

  /** How many entries carry the given ID. */
  function Count(s: seq<Lb>, id: string): nat
  {
    if s == [] then 0 else (if s[0].Id() == id then 1 else 0) + Count(s[1..], id)
  }

  // ---------------------------------------------------------------- lookups

  lemma {:induction false} FindSound(s: seq<Lb>, id: string)
    ensures Find(s, id).Some? <==> id in Ids(s)
    ensures Find(s, id).Some? ==> Find(s, id).value in s && Find(s, id).value.Id() == id
    ensures Find(s, id).None? ==> Remove(s, id) == s
    ensures Count(s, id) > 0 <==> Find(s, id).Some?
  {
    if s != [] {
      FindSound(s[1..], id);
      assert Ids(s) == [s[0].Id()] + Ids(s[1..]);
    }
  }

  /** The index form that the loops use agrees with the recursive form. */
  lemma {:induction false} FirstIndex(s: seq<Lb>, id: string, j: nat)
    requires j < |s| && s[j].Id() == id
    requires forall k :: 0 <= k < j ==> s[k].Id() != id
    ensures Find(s, id) == Some(s[j])
    ensures Remove(s, id) == s[..j] + s[j + 1..]
  {
    if j > 0 {
      FirstIndex(s[1..], id, j - 1);
      assert s[..j] + s[j + 1..] == [s[0]] + (s[1..][..j - 1] + s[1..][j..]);
    }
  }

  lemma {:induction false} NoIndex(s: seq<Lb>, id: string)
    requires forall k :: 0 <= k < |s| ==> s[k].Id() != id
    ensures Find(s, id) == None && Remove(s, id) == s
  {
    FindSound(s, id);
  }

  lemma {:induction false} FindAfterRemove(s: seq<Lb>, gone: string, id: string)
    requires gone != id
    ensures Find(Remove(s, gone), id) == Find(s, id)
  {
    if s != [] {
      FindAfterRemove(s[1..], gone, id);
    }
  }

  lemma {:induction false} RemoveCommutes(s: seq<Lb>, a: string, b: string)
    ensures Remove(Remove(s, a), b) == Remove(Remove(s, b), a)
  {
    if s != [] {
      RemoveCommutes(s[1..], a, b);
    }
  }

  // ------------------------------------------------------------ merge algebra

  /** Looking an ID up after a merge: the update wins, otherwise the old entry is still there. */
  lemma {:induction false} FindMerge(olds: seq<Lb>, updates: seq<Lb>, id: string)
    ensures Find(Merge(olds, updates), id) ==
            if Find(updates, id).Some? then Find(updates, id) else Find(olds, id)
  {
    FindSound(updates, id);
    if olds != [] {
      var x := olds[0].Id();
      FindSound(updates, x);
      FindMerge(olds[1..], Remove(updates, x), id);
      if x != id {
        FindAfterRemove(updates, x, id);
      }
    }
  }

  lemma {:induction false} RemoveMerge(olds: seq<Lb>, updates: seq<Lb>, id: string)
    ensures Remove(Merge(olds, updates), id) == Merge(Remove(olds, id), Remove(updates, id))
  {
    if olds != [] {
      var x := olds[0].Id();
      FindSound(updates, x);
      if x != id {
        RemoveMerge(olds[1..], Remove(updates, x), id);
        FindAfterRemove(updates, id, x);
        RemoveCommutes(updates, x, id);
      }
    }
  }

  /**
   Merging is associative for all sequences, duplicates included: folding two updates
   together first, or applying them one after the other, gives the same entries in the
   same order.
   */
  lemma {:induction false} MergeAssociative(a: seq<Lb>, b: seq<Lb>, c: seq<Lb>)
    ensures Merge(Merge(a, b), c) == Merge(a, Merge(b, c))
  {
    if a != [] {
      var x := a[0].Id();
      FindSound(b, x);
      FindSound(c, x);
      var m := Merge(a, b);
      assert m[0].Id() == x && m[1..] == Merge(a[1..], Remove(b, x));
      MergeAssociative(a[1..], Remove(b, x), Remove(c, x));
      FindMerge(b, c, x);
      RemoveMerge(b, c, x);
    }
  }

  lemma {:induction false} MergeUnit(a: seq<Lb>)
    ensures Merge(a, []) == a
  {
    if a != [] {
      MergeUnit(a[1..]);
    }
  }

  lemma {:induction false} CountRemove(s: seq<Lb>, gone: string, id: string)
    ensures Count(Remove(s, gone), id) == Count(s, id) - (if gone == id && Find(s, gone).Some? then 1 else 0)
  {
    if s != [] {
      CountRemove(s[1..], gone, id);
    }
  }

  /**
   Each ID occurs in the result as often as in the longer of the two inputs: no existing
   entry disappears, no update is dropped and none is applied twice.
   */
  lemma {:induction false} CountMerge(olds: seq<Lb>, updates: seq<Lb>, id: string)
    ensures Count(Merge(olds, updates), id) ==
            if Count(olds, id) > Count(updates, id) then Count(olds, id) else Count(updates, id)
  {
    if olds != [] {
      var x := olds[0].Id();
      FindSound(updates, x);
      CountRemove(updates, x, id);
      CountMerge(olds[1..], Remove(updates, x), id);
    }
  }

  lemma {:induction false} RemoveMember(s: seq<Lb>, id: string, lb: Lb)
    requires lb in Remove(s, id)
    ensures lb in s
  {
    if s != [] && s[0].Id() != id && lb != s[0] {
      RemoveMember(s[1..], id, lb);
    }
  }

  /** Nothing appears in the result that was not in one of the inputs. */
  lemma {:induction false} MergeMember(olds: seq<Lb>, updates: seq<Lb>, lb: Lb)
    requires lb in Merge(olds, updates)
    ensures lb in olds || lb in updates
  {
    if olds != [] {
      FindSound(updates, olds[0].Id());
      var rest := Remove(updates, olds[0].Id());
      if lb != Pick(updates, olds[0]) {
        assert lb in Merge(olds[1..], rest);
        MergeMember(olds[1..], rest, lb);
        if lb in rest {
          RemoveMember(updates, olds[0].Id(), lb);
        }
      }
    }
  }

  // ----------------------------------------------------------- distinct IDs

  ghost predicate AtMostOnce(s: seq<Lb>)
  {
    forall id :: Count(s, id) <= 1
  }

  lemma AtMostOnceStep(s: seq<Lb>)
    requires s != []
    ensures AtMostOnce(s) <==> AtMostOnce(s[1..]) && Count(s[1..], s[0].Id()) == 0
  {
    var x, t := s[0].Id(), s[1..];
    if AtMostOnce(s) {
      assert Count(s, x) <= 1;
      forall id ensures Count(t, id) <= 1 {
        assert Count(s, id) <= 1;
      }
    } else if AtMostOnce(t) && Count(t, x) == 0 {
      forall id ensures Count(s, id) <= 1 {
        assert Count(t, id) <= 1;
      }
      assert false;
    }
  }

  lemma {:induction false} DistinctByCount(s: seq<Lb>)
    ensures Distinct(Ids(s)) <==> AtMostOnce(s)
  {
    if s != [] {
      assert Ids(s)[1..] == Ids(s[1..]);
      DistinctByCount(s[1..]);
      FindSound(s[1..], s[0].Id());
      AtMostOnceStep(s);
      DistinctStep(Ids(s));
    }
  }

  /** Merging into distinct IDs keeps them distinct exactly when the updates are distinct. */
  lemma MergeKeepsDistinct(olds: seq<Lb>, updates: seq<Lb>)
    requires Distinct(Ids(olds))
    ensures Distinct(Ids(Merge(olds, updates))) <==> Distinct(Ids(updates))
  {
    var m := Merge(olds, updates);
    DistinctByCount(olds);
    DistinctByCount(updates);
    DistinctByCount(m);
    forall id ensures Count(m, id) <= 1 <==> Count(updates, id) <= 1 {
      CountMerge(olds, updates, id);
      assert Count(olds, id) <= 1;
    }
    assert AtMostOnce(m) ==> forall id :: Count(m, id) <= 1;
  }

  /** The existing entries, each overridden by its update. */
  function Overridden(olds: seq<Lb>, updates: seq<Lb>): (r: seq<Lb>)
    ensures |r| == |olds| && forall i :: 0 <= i < |olds| ==> r[i] == Pick(updates, olds[i])
  {
    seq(|olds|, i requires 0 <= i < |olds| => Pick(updates, olds[i]))
  }

  /** The updates of none of the given IDs. */
  function Unmatched(updates: seq<Lb>, ids: seq<string>): seq<Lb>
  {
    Filter(updates, (u: Lb) => u.Id() !in ids)
  }

  /** The reference form: override position by position, then append what matched nothing. */
  function Override(olds: seq<Lb>, updates: seq<Lb>): seq<Lb>
  {
    Overridden(olds, updates) + Unmatched(updates, Ids(olds))
  }

  lemma {:induction false} RemoveKeepsDistinct(s: seq<Lb>, id: string)
    requires Distinct(Ids(s))
    ensures Distinct(Ids(Remove(s, id)))
  {
    DistinctByCount(s);
    DistinctByCount(Remove(s, id));
    forall x ensures Count(Remove(s, id), x) <= 1 {
      CountRemove(s, id, x);
      assert Count(s, x) <= 1;
    }
  }

  lemma {:induction false} RemoveIsFilter(s: seq<Lb>, id: string)
    requires Distinct(Ids(s))
    ensures Remove(s, id) == Filter(s, (u: Lb) => u.Id() != id)
  {
    if s != [] {
      DistinctTail(Ids(s));
      assert Ids(s[1..]) == Ids(s)[1..];
      if s[0].Id() == id {
        forall u | u in s[1..] ensures u.Id() != id {
          var i :| 0 <= i < |s[1..]| && s[1..][i] == u;
          assert Ids(s[1..])[i] == u.Id();
        }
        FilterAll(s[1..], (u: Lb) => u.Id() != id);
      } else {
        RemoveIsFilter(s[1..], id);
      }
    }
  }

  /** What is left to append after the first existing entry was handled. */
  lemma UnmatchedStep(updates: seq<Lb>, x: string, ids: seq<string>)
    requires Distinct(Ids(updates))
    ensures Unmatched(Remove(updates, x), ids) == Unmatched(updates, [x] + ids)
  {
    RemoveIsFilter(updates, x);
    FilterTwice(updates, (u: Lb) => u.Id() != x, (u: Lb) => u.Id() !in ids, (u: Lb) => u.Id() != x && u.Id() !in ids);
    FilterCongruent(updates, (u: Lb) => u.Id() != x && u.Id() !in ids, (u: Lb) => u.Id() !in [x] + ids);
  }

  lemma OverriddenStep(olds: seq<Lb>, updates: seq<Lb>)
    requires olds != [] && Distinct(Ids(olds))
    ensures Overridden(olds, updates) == [Pick(updates, olds[0])] + Overridden(olds[1..], Remove(updates, olds[0].Id()))
  {
    var x, tail := olds[0].Id(), olds[1..];
    forall i | 0 <= i < |tail| ensures Pick(Remove(updates, x), tail[i]) == Pick(updates, olds[i + 1]) {
      assert Ids(olds)[0] != Ids(olds)[i + 1];
      FindAfterRemove(updates, x, tail[i].Id());
    }
  }

  lemma Associate(a: seq<Lb>, b: seq<Lb>, c: seq<Lb>)
    ensures a + b + c == a + (b + c)
  {
  }

  lemma OverrideStep(olds: seq<Lb>, updates: seq<Lb>)
    requires olds != [] && Distinct(Ids(olds)) && Distinct(Ids(updates))
    ensures Override(olds, updates) == [Pick(updates, olds[0])] + Override(olds[1..], Remove(updates, olds[0].Id()))
  {
    var x := olds[0].Id();
    assert Ids(olds) == [x] + Ids(olds[1..]);
    UnmatchedStep(updates, x, Ids(olds[1..]));
    OverriddenStep(olds, updates);
    var rest := Remove(updates, x);
    Associate([Pick(updates, olds[0])], Overridden(olds[1..], rest), Unmatched(rest, Ids(olds[1..])));
  }

  /** With distinct IDs on both sides the deleting loop computes the reference override. */
  lemma {:induction false} MergeIsOverride(olds: seq<Lb>, updates: seq<Lb>)
    requires Distinct(Ids(olds)) && Distinct(Ids(updates))
    ensures Merge(olds, updates) == Override(olds, updates)
  {
    if olds == [] {
      FilterAll(updates, (u: Lb) => u.Id() !in Ids(olds));
    } else {
      DistinctTail(Ids(olds));
      assert Ids(olds[1..]) == Ids(olds)[1..];
      RemoveKeepsDistinct(updates, olds[0].Id());
      MergeIsOverride(olds[1..], Remove(updates, olds[0].Id()));
      OverrideStep(olds, updates);
    }
  }

  // -------------------------------------------------------- filtered updates

  lemma {:induction false} FilterRemove(s: seq<Lb>, p: Lb -> bool, id: string, keep: bool)
    requires forall u :: u in s && u.Id() == id ==> p(u) == keep
    ensures keep ==> Find(Filter(s, p), id) == Find(s, id)
    ensures keep ==> Filter(Remove(s, id), p) == Remove(Filter(s, p), id)
    ensures !keep ==> Filter(Remove(s, id), p) == Filter(s, p)
  {
    if s != [] {
      assert s[0] in s;
      FilterRemove(s[1..], p, id, keep);
    }
  }

  /**
   When the updates of one ID all agree on whether they pass the filter, filtering the
   merged updates equals merging the filtered ones.
   */
  lemma {:induction false} FilterMerge(olds: seq<Lb>, updates: seq<Lb>, p: Lb -> bool, ours: set<string>)
    requires forall u :: u in olds || u in updates ==> (p(u) <==> u.Id() in ours)
    ensures Filter(Merge(olds, updates), p) == Merge(Filter(olds, p), Filter(updates, p))
  {
    if olds != [] {
      var x := olds[0].Id();
      assert olds[0] in olds;
      var rest := Remove(updates, x);
      FindSound(updates, x);
      forall u | u in rest ensures u in updates {
        RemoveMember(updates, x, u);
      }
      FilterMerge(olds[1..], rest, p, ours);
      FilterRemove(updates, p, x, x in ours);
      var m := Merge(olds, updates);
      assert m[0] == Pick(updates, olds[0]) && m[1..] == Merge(olds[1..], rest);
      if x in ours {
        var f := Filter(olds, p);
        assert f[0] == olds[0] && f[1..] == Filter(olds[1..], p);
      }
    }
  }

  // ---------------------------------------------------------------- the loop

  /** Takes the first update with the given ID out of the pending ones. */
  method TakeUpdate(pending: seq<Lb>, lb: Lb) returns (taken: Lb, rest: seq<Lb>)
    ensures taken == Pick(pending, lb) && rest == Remove(pending, lb.Id())
  {
    var id := lb.Id();
    var j := 0;
    while j < |pending| && pending[j].Id() != id
      invariant 0 <= j <= |pending|
      invariant forall k :: 0 <= k < j ==> pending[k].Id() != id
    {
      j := j + 1;
    }
    if j < |pending| {
      FirstIndex(pending, id, j);
      taken, rest := pending[j], pending[..j] + pending[j + 1..];
    } else {
      NoIndex(pending, id);
      taken, rest := lb, pending;
    }
  }

  /** The loop of the source: it deletes from the sequence that it scans. */
  method MergeInto(olds: seq<Lb>, updates: seq<Lb>) returns (merged: seq<Lb>)
    ensures merged == Merge(olds, updates)
  {
    merged := olds;
    var pending := updates;
    for i := 0 to |olds|
      invariant |merged| == |olds| && merged[i..] == olds[i..]
      invariant Merge(olds, updates) == merged[..i] + Merge(olds[i..], pending)
    {
      ghost var tail, done := olds[i..], merged[..i];
      assert merged[i] == merged[i..][0] && tail[0] == olds[i] && tail[1..] == olds[i + 1..];
      var taken, rest := TakeUpdate(pending, merged[i]);
      merged, pending := merged[i := taken], rest;
      assert merged[..i + 1] == done + [taken] && merged[i + 1..] == olds[i + 1..];
    }
    assert merged[..|olds|] == merged;
    merged := merged + pending;
  }
}
