/**
 MergeProjects as it runs: project entries hold slice headers, and append may write
 into a backing array that an input still refers to.
 */
module MergeHeap {
  import opened PersonaModel
  import opened Grouping
  import opened GoSlices

  /** A model.Project in memory. */
  datatype Entry = Entry(uid: string, slug: string, detections: Slice<Detection>)

  ghost function Arrays(es: seq<Entry>): set<array<Detection>> {
    set i | 0 <= i < |es| :: es[i].detections.arr
  }

  ghost predicate AllValid(es: seq<Entry>) {
    forall i :: 0 <= i < |es| ==> Valid(es[i].detections)
  }

  function View(e: Entry): Project
    requires Valid(e.detections)
    reads e.detections.arr
  {
    Project(e.uid, e.slug, Elems(e.detections))
  }

  /** What a reader of the entries sees. */
  ghost function Views(es: seq<Entry>): seq<Project>
    requires AllValid(es)
    reads Arrays(es)
  {
    seq(|es|, i requires 0 <= i < |es| reads Arrays(es) => View(es[i]))
  }

  /** The backing regions of the entries are pairwise disjoint. */
  ghost predicate Separate(es: seq<Entry>) {
    forall i, j {:trigger Disjoint(es[i].detections, es[j].detections)} ::
      0 <= i < j < |es| ==> Disjoint(es[i].detections, es[j].detections)
  }

  /** Nothing that `all` shows lies in the spare capacity of an entry of `out`. */
  ghost predicate Shielded(out: seq<Entry>, all: seq<Entry>) {
    forall i, j {:trigger SpareHidden(out[i].detections, all[j].detections)} ::
      0 <= i < |out| && 0 <= j < |all| ==> SpareHidden(out[i].detections, all[j].detections)
  }

  /** The entries of `out` share no cell with the entries of `all` from position `k` on. */
  ghost predicate Apart(out: seq<Entry>, all: seq<Entry>, k: nat) {
    forall i, j {:trigger Disjoint(out[i].detections, all[j].detections)} ::
      0 <= i < |out| && k <= j < |all| ==> Disjoint(out[i].detections, all[j].detections)
  }

  /** The index map points at the entry of each UID seen. */
  ghost predicate Indexed(idx: map<string, nat>, out: seq<Entry>) {
    && (forall u :: u in idx ==> idx[u] < |out| && out[idx[u]].uid == u)
    && (forall i :: 0 <= i < |out| ==> out[i].uid in idx && idx[out[i].uid] == i)
  }

  /** What both loops keep: `out` groups the first `k` entries of `all` and endangers none of them. */
  ghost predicate Merging(all: seq<Entry>, k: nat, out: seq<Entry>, idx: map<string, nat>)
  {
    && AllValid(all) && AllValid(out)
    && Separate(all) && Separate(out)
    && Shielded(out, all) && Apart(out, all, k)
    && Indexed(idx, out)
  }

  lemma MergingNew(all: seq<Entry>, k: nat, out: seq<Entry>, idx: map<string, nat>)
    requires k < |all| && Merging(all, k, out, idx) && all[k].uid !in idx
    ensures Merging(all, k + 1, out + [all[k]], idx[all[k].uid := |out|])
  {
    var out' := out + [all[k]];
    forall a, b | 0 <= a < |out'| && 0 <= b < |all|
      ensures SpareHidden(out'[a].detections, all[b].detections)
      ensures b > k ==> Disjoint(out'[a].detections, all[b].detections)
    {
      if a < |out| {
        assert SpareHidden(out[a].detections, all[b].detections);
        assert b > k ==> Disjoint(out[a].detections, all[b].detections);
      } else {
        assert b < k ==> Disjoint(all[b].detections, all[k].detections);
        assert b > k ==> Disjoint(all[k].detections, all[b].detections);
      }
    }
    forall a, b | 0 <= a < b < |out'|
      ensures Disjoint(out'[a].detections, out'[b].detections)
    {
      assert Disjoint(out[a].detections, if b < |out| then out[b].detections else all[k].detections);
    }
  }

  /** Replacing an entry's header by one with less spare capacity over the same region, or over new cells. */
  lemma MergingKnown(all: seq<Entry>, k: nat, out: seq<Entry>, idx: map<string, nat>, i: nat, r: Slice<Detection>)
    requires k < |all| && Merging(all, k, out, idx)
    requires i < |out| && Valid(r)
    requires || (r.len >= out[i].detections.len && r == out[i].detections.(len := r.len))
             || (r.arr !in Arrays(all) && r.arr !in Arrays(out))
    ensures Merging(all, k + 1, out[i := out[i].(detections := r)], idx)
  {
    var out' := out[i := out[i].(detections := r)];
    forall a, b | 0 <= a < |out| && 0 <= b < |all|
      ensures SpareHidden(out'[a].detections, all[b].detections)
      ensures b > k ==> Disjoint(out'[a].detections, all[b].detections)
    {
      assert SpareHidden(out[a].detections, all[b].detections);
      assert b > k ==> Disjoint(out[a].detections, all[b].detections);
      assert all[b].detections.arr in Arrays(all);
    }
    forall a, b | 0 <= a < b < |out|
      ensures Disjoint(out'[a].detections, out'[b].detections)
    {
      assert Disjoint(out[a].detections, out[b].detections);
      assert out[a].detections.arr in Arrays(out) && out[b].detections.arr in Arrays(out);
    }
  }

  /** Everyone who must not notice that entry `i` of `out` grows: the inputs and the other outputs. */
  ghost function Readers(all: seq<Entry>, out: seq<Entry>, i: nat): set<Slice<Detection>> {
    (set j | 0 <= j < |all| :: all[j].detections) + (set j | 0 <= j < |out| && j != i :: out[j].detections)
  }

  lemma ReadersHidden(all: seq<Entry>, out: seq<Entry>, i: nat)
    requires i < |out| && AllValid(out) && AllValid(all) && Separate(out) && Shielded(out, all)
    ensures forall t :: t in Readers(all, out, i) ==> Valid(t) && SpareHidden(out[i].detections, t)
  {
    forall j | 0 <= j < |all|
      ensures SpareHidden(out[i].detections, all[j].detections)
    {}
    forall j | 0 <= j < |out| && j != i
      ensures SpareHidden(out[i].detections, out[j].detections)
    {
      assert Disjoint(out[if i < j then i else j].detections, out[if i < j then j else i].detections);
    }
  }

  /** The detections of entry `i` grow by `ds`; neither the inputs nor the other outputs notice. */
  method GrowDetections(out: seq<Entry>, i: nat, ds: seq<Detection>, ghost all: seq<Entry>)
    returns (r: Slice<Detection>)
    requires i < |out| && AllValid(out) && AllValid(all)
    requires Separate(out) && Shielded(out, all)
    modifies out[i].detections.arr
    ensures Valid(r) && Elems(r) == old(Elems(out[i].detections)) + ds
    ensures || (r == out[i].detections.(len := r.len) && r.len >= out[i].detections.len)
            || (fresh(r.arr) && r.arr !in Arrays(all) && r.arr !in Arrays(out))
    ensures forall j :: 0 <= j < |all| ==> View(all[j]) == old(View(all[j]))
    ensures forall j :: 0 <= j < |out| && j != i ==> View(out[j]) == old(View(out[j]))
  {
    ReadersHidden(all, out, i);
    r := AppendBeside(out[i].detections, ds, Readers(all, out, i));
    assert forall j :: 0 <= j < |all| ==> all[j].detections in Readers(all, out, i);
    assert forall j :: 0 <= j < |out| && j != i ==> out[j].detections in Readers(all, out, i);
  }

  /**
   `shape[k]` is the grouping of the first `k` entries. The trigger keeps the definition of Group
   out of the proofs below that only need to name it.
   */
  ghost predicate Groupings(vs: seq<Project>, shape: seq<seq<Project>>) {
    |shape| == |vs| + 1 &&
    forall k {:trigger Group(vs[..k])} :: 0 <= k <= |vs| ==> shape[k] == Group(vs[..k])
  }

  ghost function ShapeOf(vs: seq<Project>): (shape: seq<seq<Project>>)
    ensures Groupings(vs, shape)
  {
    seq(|vs| + 1, k requires 0 <= k <= |vs| => Group(vs[..k]))
  }

  /** The body of both loops, for the entry `p` at position `k`; `vs` is what the inputs show throughout. */
  method MergeOne(out: seq<Entry>, idx: map<string, nat>, p: Entry,
                  ghost all: seq<Entry>, ghost k: nat, ghost vs: seq<Project>, ghost shape: seq<seq<Project>>)
    returns (out': seq<Entry>, idx': map<string, nat>)
    requires k < |all| && p == all[k] && Merging(all, k, out, idx)
    requires Views(all) == vs && Groupings(vs, shape) && Views(out) == shape[k]
    modifies Arrays(out)
    ensures Merging(all, k + 1, out', idx')
    ensures Views(all) == vs && Views(out') == shape[k + 1]
    ensures forall a :: a in Arrays(out') ==> a in Arrays(out) || a == p.detections.arr || fresh(a)
  {
    if p.uid in idx {
      assert out[idx[p.uid]].detections.arr in Arrays(out);
      out' := MergeKnown(out, idx, idx[p.uid], p, all, k, vs, shape);
      idx' := idx;
    } else {
      ghost var before := Views(out);
      assert vs[k].uid == p.uid && forall j :: 0 <= j < |before| ==> before[j].uid == out[j].uid;
      out', idx' := out + [p], idx[p.uid := |out|];
      MergingNew(all, k, out, idx);
      AddedView(before, vs, shape, k);
      assert Views(out') == before + [vs[k]];
    }
  }

  /** The `if` branch: the UID is known, at index `i`. */
  method MergeKnown(out: seq<Entry>, ghost idx: map<string, nat>, i: nat, p: Entry,
                    ghost all: seq<Entry>, ghost k: nat, ghost vs: seq<Project>, ghost shape: seq<seq<Project>>)
    returns (out': seq<Entry>)
    requires k < |all| && p == all[k] && Merging(all, k, out, idx)
    requires Views(all) == vs && Groupings(vs, shape) && Views(out) == shape[k]
    requires i < |out| && out[i].uid == p.uid
    modifies out[i].detections.arr
    ensures Merging(all, k + 1, out', idx)
    ensures Views(all) == vs && Views(out') == shape[k + 1]
    ensures forall a :: a in Arrays(out') ==> a in Arrays(out) || fresh(a)
  {
    ghost var before := Views(out);
    assert View(p) == vs[k];
    var r := GrowDetections(out, i, Elems(p.detections), all);
    out' := out[i := out[i].(detections := r)];
    MergingKnown(all, k, out, idx, i, r);
    GrownViews(before, Views(out'), vs, shape, k, i);
  }

  lemma GrownViews(before: seq<Project>, after: seq<Project>, vs: seq<Project>,
                                      shape: seq<seq<Project>>, k: nat, i: nat)
    requires k < |vs| && Groupings(vs, shape) && before == shape[k]
    requires |after| == |before| && i < |before| && before[i].uid == vs[k].uid
    requires forall j :: 0 <= j < |before| && j != i ==> after[j] == before[j]
    requires after[i] == before[i].(detections := before[i].detections + vs[k].detections)
    ensures after == shape[k + 1]
  {
    assert before == Group(vs[..k]) && shape[k + 1] == Group(vs[..k + 1]);
    GroupKnownUid(vs[..k], vs[k], i);
    assert vs[..k] + [vs[k]] == vs[..k + 1];
  }

  lemma AddedView(before: seq<Project>, vs: seq<Project>, shape: seq<seq<Project>>, k: nat)
    requires k < |vs| && Groupings(vs, shape) && before == shape[k]
    requires forall j :: 0 <= j < |before| ==> before[j].uid != vs[k].uid
    ensures shape[k + 1] == before + [vs[k]]
  {
    assert before == Group(vs[..k]) && shape[k + 1] == Group(vs[..k + 1]);
    assert forall j :: 0 <= j < |before| ==> before[j].uid == Uids(vs[..k])[j];
    GroupNewUid(vs[..k], vs[k]);
    assert vs[..k] + [vs[k]] == vs[..k + 1];
  }

  lemma ViewsConcat(a: seq<Entry>, b: seq<Entry>)
    requires AllValid(a + b)
    ensures AllValid(a) && AllValid(b) && Views(a + b) == Views(a) + Views(b)
  {
    assert forall i :: 0 <= i < |a| ==> (a + b)[i] == a[i];
    assert forall i :: 0 <= i < |b| ==> (a + b)[|a| + i] == b[i];
  }

  /** The loop that both passes of MergeProjects run, over the entries `ps` of `all` from position `k` on. */
  method MergeAll(ps: seq<Entry>, out0: seq<Entry>, idx0: map<string, nat>, ghost all: seq<Entry>, ghost k: nat,
                  ghost vs: seq<Project>, ghost shape: seq<seq<Project>>, ghost own: set<array<Detection>>)
    returns (out: seq<Entry>, idx: map<string, nat>)
    requires Arrays(out0) <= own && Arrays(ps) <= own
    requires k + |ps| <= |all| && forall i :: 0 <= i < |ps| ==> ps[i] == all[k + i]
    requires Merging(all, k, out0, idx0)
    requires Views(all) == vs && Groupings(vs, shape) && Views(out0) == shape[k]
    modifies own
    ensures Merging(all, k + |ps|, out, idx)
    ensures Views(all) == vs && Views(out) == shape[k + |ps|]
    ensures forall a :: a in Arrays(out) ==> a in own || fresh(a)
  {
    out, idx := out0, idx0;
    for i := 0 to |ps|
      invariant Merging(all, k + i, out, idx)
      invariant Views(all) == vs && Views(out) == shape[k + i]
      invariant forall a :: a in Arrays(out) ==> a in own || fresh(a)
    {
      assert ps[i].detections.arr in Arrays(ps);
      out, idx := MergeOne(out, idx, ps[i], all, k + i, vs, shape);
    }
  }

  /** Both passes, with the groupings of the inputs' prefixes in `shape`. */
  method MergeBoth(dst: seq<Entry>, src: seq<Entry>, ghost all: seq<Entry>, ghost vs: seq<Project>,
                   ghost shape: seq<seq<Project>>, ghost own: set<array<Detection>>)
    returns (normalised: seq<Entry>, ghost idx: map<string, nat>)
    requires |dst| + |src| <= |all| && AllValid(all) && Separate(all)
    requires forall i :: 0 <= i < |dst| ==> dst[i] == all[i]
    requires forall i :: 0 <= i < |src| ==> src[i] == all[|dst| + i]
    requires Views(all) == vs && Groupings(vs, shape) && shape[0] == []
    requires Arrays(dst) <= own && Arrays(src) <= own
    modifies own
    ensures Merging(all, |dst| + |src|, normalised, idx)
    ensures Views(all) == vs && Views(normalised) == shape[|dst| + |src|]
    ensures forall a :: a in Arrays(normalised) ==> a in own || fresh(a)
  {
    MergingStart(all);
    var first, index := MergeAll(dst, [], map[], all, 0, vs, shape, own);
    normalised, index := MergeAll(src, first, index, all, |dst|, vs, shape, own + Arrays(first));
    idx := index;
  }

  lemma MergingStart(all: seq<Entry>)
    requires AllValid(all) && Separate(all)
    ensures Merging(all, 0, [], map[])
    ensures AllValid([]) && Views([]) == [] && Arrays([]) == {}
  {}

  /**
   MergeProjects(dst, src). `bystanders` are entries that somebody else still holds,
   such as the results not yet collected; their regions must be disjoint too.
   */
  method MergeProjects(dst: seq<Entry>, src: seq<Entry>, ghost bystanders: seq<Entry>) returns (normalised: seq<Entry>)
    requires AllValid(dst + src) && AllValid(bystanders)
    requires Separate(dst + src + bystanders)
    modifies Arrays(dst + src)
    ensures AllValid(normalised)
    ensures Views(normalised) == Group(old(Views(dst + src)))
    ensures Views(dst + src) == old(Views(dst + src))
    ensures Views(bystanders) == old(Views(bystanders))
    ensures Separate(normalised + bystanders)
    ensures forall a :: a in Arrays(normalised) ==> a in Arrays(dst + src) || fresh(a)
  {
    ghost var inputs := dst + src;
    ghost var all := inputs + bystanders;
    ghost var vs := Views(all);
    ghost var shape := ShapeOf(vs);
    ViewsConcat(inputs, bystanders);
    ArraysConcat(dst, src);
    ShapeEnds(Views(inputs), Views(bystanders), shape);
    ghost var idx;
    normalised, idx := MergeBoth(dst, src, all, vs, shape, Arrays(inputs));
    ViewsConcat(inputs, bystanders);
    FinishedMerge(all, inputs, bystanders, normalised, idx);
  }

  lemma ShapeEnds(inputs: seq<Project>, others: seq<Project>, shape: seq<seq<Project>>)
    requires Groupings(inputs + others, shape)
    ensures shape[0] == [] && shape[|inputs|] == Group(inputs)
  {
    var vs := inputs + others;
    assert vs[..|inputs|] == inputs && vs[..0] == [];
    assert shape[0] == Group(vs[..0]) && shape[|inputs|] == Group(vs[..|inputs|]);
  }

  lemma ArraysConcat(a: seq<Entry>, b: seq<Entry>)
    ensures Arrays(a + b) == Arrays(a) + Arrays(b)
  {
    forall i | 0 <= i < |a|
      ensures a[i].detections.arr in Arrays(a + b)
    {
      assert (a + b)[i] == a[i];
    }
    forall i | 0 <= i < |b|
      ensures b[i].detections.arr in Arrays(a + b)
    {
      assert (a + b)[|a| + i] == b[i];
    }
  }

  lemma FinishedMerge(all: seq<Entry>, inputs: seq<Entry>, bystanders: seq<Entry>, out: seq<Entry>, idx: map<string,
                      nat>)
    requires all == inputs + bystanders && Merging(all, |inputs|, out, idx)
    ensures Separate(out + bystanders)
  {
    forall i, j | 0 <= i < j < |bystanders|
      ensures Disjoint(bystanders[i].detections, bystanders[j].detections)
    {
      assert bystanders[i] == all[|inputs| + i] && bystanders[j] == all[|inputs| + j];
    }
    forall i, j | 0 <= i < |out| && 0 <= j < |bystanders|
      ensures Disjoint(out[i].detections, bystanders[j].detections)
    {
      assert bystanders[j] == all[|inputs| + j];
    }
  }

  /** Entries kept apart so far, and entries still to come, which together group to `goal`. */
  ghost predicate Pending(projects: seq<Entry>, rest: seq<Entry>, goal: seq<Project>)
    reads Arrays(projects), Arrays(rest)
  {
    && AllValid(projects) && AllValid(rest)
    && Separate(projects + rest)
    && Group(Views(projects) + Views(rest)) == goal
  }

  /** The first batch still to come moves over to the entries being merged. */
  lemma NextBatch(projects: seq<Entry>, batch: seq<Entry>, rest: seq<Entry>, goal: seq<Project>)
    requires Pending(projects, batch + rest, goal)
    ensures Pending(projects + batch, rest, goal)
    ensures Arrays(projects + batch) == Arrays(projects) + Arrays(batch)
    ensures Arrays(batch + rest) == Arrays(batch) + Arrays(rest)
  {
    assert projects + (batch + rest) == projects + batch + rest;
    ViewsConcat(batch, rest);
    ViewsConcat(projects, batch);
    AppendAssociative(Views(projects), Views(batch), Views(rest));
    ArraysConcat(projects, batch);
    ArraysConcat(batch, rest);
  }

  /** One receive of the collector, while the results in `rest` are still to come. */
  method CollectOne(projects: seq<Entry>, batch: seq<Entry>, ghost rest: seq<Entry>, ghost goal: seq<Project>)
    returns (merged: seq<Entry>)
    requires Pending(projects + batch, rest, goal)
    modifies Arrays(projects + batch)
    ensures Pending(merged, rest, goal)
    ensures Group(Views(merged)) == Views(merged)
    ensures forall a :: a in Arrays(merged) ==> a in Arrays(projects + batch) || fresh(a)
  {
    ghost var now := Views(projects + batch);
    merged := MergeProjects(projects, batch, rest);
    GroupAbsorbsLeft(now, Views(rest));
    GroupIdempotent(now);
  }

  /** The entries of a list of results, in order of arrival. */
  ghost function Join(batches: seq<seq<Entry>>): seq<Entry> {
    if batches == [] then [] else batches[0] + Join(batches[1..])
  }

  /** The arrays at hand are the inputs' or were allocated on the way. */
  ghost predicate Owned(projects: seq<Entry>, rest: seq<Entry>, own: set<array<Detection>>,
                        grown: set<array<Detection>>) {
    Arrays(projects) <= own + grown && Arrays(rest) <= own
  }

  /** One turn of the collector's loop. */
  method CollectNext(projects: seq<Entry>, batch: seq<Entry>, ghost rest: seq<Entry>, ghost goal: seq<Project>,
                     ghost own: set<array<Detection>>, ghost grown: set<array<Detection>>)
    returns (merged: seq<Entry>, ghost grown': set<array<Detection>>)
    requires Pending(projects, batch + rest, goal) && Owned(projects, batch + rest, own, grown)
    modifies own, grown
    ensures Pending(merged, rest, goal) && Owned(merged, rest, own, grown')
    ensures Group(Views(merged)) == Views(merged)
    ensures forall a :: a in grown' ==> a in grown || fresh(a)
  {
    NextBatch(projects, batch, rest, goal);
    merged := CollectOne(projects, batch, rest, goal);
    grown' := grown + (set a | a in Arrays(merged) && a !in own);
  }

  lemma PendingStart(entries: seq<Entry>)
    requires AllValid(entries) && Separate(entries)
    ensures Pending([], entries, Group(Views(entries)))
  {
    assert [] + entries == entries;
    assert Views([]) + Views(entries) == Views(entries);
  }

  lemma PendingEnd(projects: seq<Entry>, goal: seq<Project>)
    requires Pending(projects, [], goal) && Group(Views(projects)) == Views(projects)
    ensures Separate(projects) && Views(projects) == goal
  {
    assert projects + [] == projects;
    assert Views(projects) + Views([]) == Views(projects);
  }

  /**
   The collector's use of MergeProjects: each arriving result is merged into what was
   collected before, over the same backing arrays. Disjoint at the start is enough.
   */
  method CollectBatches(batches: seq<seq<Entry>>) returns (projects: seq<Entry>)
    requires AllValid(Join(batches)) && Separate(Join(batches))
    modifies Arrays(Join(batches))
    ensures AllValid(projects) && Separate(projects)
    ensures Views(projects) == Group(old(Views(Join(batches))))
  {
    ghost var goal := Group(Views(Join(batches)));
    ghost var own := Arrays(Join(batches));
    ghost var grown: set<array<Detection>> := {};
    projects := [];
    PendingStart(Join(batches));
    for i := 0 to |batches|
      invariant Pending(projects, Join(batches[i..]), goal) && Owned(projects, Join(batches[i..]), own, grown)
      invariant Group(Views(projects)) == Views(projects)
      invariant forall a :: a in grown ==> fresh(a)
    {
      assert batches[i..][1..] == batches[i + 1..];
      projects, grown := CollectNext(projects, batches[i], Join(batches[i + 1..]), goal, own, grown);
    }
    PendingEnd(projects, goal);
  }

  /** One project of a source: its detection list is a fresh literal, without spare capacity. */
  method AllocateOne(p: Project) returns (e: Entry)
    ensures Valid(e.detections) && View(e) == p && fresh(e.detections.arr)
  {
    var ds := p.detections;
    var arr := new Detection[|ds|];
    forall j | 0 <= j < |ds| {
      arr[j] := ds[j];
    }
    e := Entry(p.uid, p.slug, Slice(arr, 0, |ds|, |ds|));
    assert Elems(e.detections) == ds;
  }

  /** The entries that a source builds. */
  method Allocate(ps: seq<Project>) returns (es: seq<Entry>)
    ensures AllValid(es) && Separate(es)
    ensures Views(es) == ps
    ensures forall a :: a in Arrays(es) ==> fresh(a)
  {
    es := [];
    for i := 0 to |ps|
      invariant AllValid(es) && Separate(es) && Views(es) == ps[..i]
      invariant forall a :: a in Arrays(es) ==> fresh(a)
    {
      var e := AllocateOne(ps[i]);
      AddEntry(es, e);
      assert ps[..i + 1] == ps[..i] + [ps[i]];
      es := es + [e];
    }
  }

  lemma AddEntry(es: seq<Entry>, e: Entry)
    requires AllValid(es) && Separate(es) && Valid(e.detections) && e.detections.arr !in Arrays(es)
    ensures AllValid(es + [e]) && Separate(es + [e])
    ensures Views(es + [e]) == Views(es) + [View(e)]
    ensures Arrays(es + [e]) == Arrays(es) + {e.detections.arr}
  {
    var more := es + [e];
    SeparateSnoc(es, e);
    forall i | 0 <= i < |more|
      ensures Valid(more[i].detections)
    {
      assert i < |es| ==> more[i] == es[i];
    }
    ViewsConcat(es, [e]);
    assert Views([e]) == [View(e)];
    ArraysConcat(es, [e]);
    assert [e][0] == e;
    assert Arrays([e]) == {e.detections.arr};
  }

  lemma SeparateSnoc(es: seq<Entry>, e: Entry)
    requires Separate(es) && e.detections.arr !in Arrays(es)
    ensures Separate(es + [e])
  {
    assert forall k :: 0 <= k < |es| ==> es[k].detections.arr in Arrays(es);
    forall i, j | 0 <= i < j < |es + [e]|
      ensures Disjoint((es + [e])[i].detections, (es + [e])[j].detections)
    {
      if j < |es| {
        assert Disjoint(es[i].detections, es[j].detections);
      }
    }
  }

  /** How a source comes by its result: from literals, or as the Board source does by merging two such lists. */
  datatype Built = Literals(ps: seq<Project>) | MergedLists(bm: seq<Project>, cm: seq<Project>)
  {
    function Value(): seq<Project> {
      match this case Literals(ps) => ps case MergedLists(bm, cm) => Merge(bm, cm)
    }
  }

  function Values(results: seq<Built>): seq<seq<Project>> {
    seq(|results|, i requires 0 <= i < |results| => results[i].Value())
  }

  /** A source's result in memory; a merged one may carry spare capacity. */
  method Build(b: Built) returns (es: seq<Entry>)
    ensures AllValid(es) && Separate(es)
    ensures Views(es) == b.Value()
    ensures forall a :: a in Arrays(es) ==> fresh(a)
  {
    match b {
      case Literals(ps) =>
        es := Allocate(ps);
      case MergedLists(bm, cm) =>
        var first := Allocate(bm);
        es := MergeFresh(first, cm);
    }
  }

  /** A freshly built list is merged into entries that this flow owns. */
  method MergeFresh(dst: seq<Entry>, src: seq<Project>) returns (merged: seq<Entry>)
    requires AllValid(dst) && Separate(dst)
    modifies Arrays(dst)
    ensures AllValid(merged) && Separate(merged)
    ensures Views(merged) == Merge(old(Views(dst)), src)
    ensures forall a :: a in Arrays(merged) ==> a in Arrays(dst) || fresh(a)
  {
    var batch := Allocate(src);
    merged := MergeBuilt(dst, batch);
  }

  method MergeBuilt(dst: seq<Entry>, batch: seq<Entry>) returns (merged: seq<Entry>)
    requires AllValid(dst) && Separate(dst) && AllValid(batch) && Separate(batch) && Arrays(dst) !! Arrays(batch)
    modifies Arrays(dst), Arrays(batch)
    ensures AllValid(merged) && Separate(merged)
    ensures Views(merged) == Merge(old(Views(dst)), old(Views(batch)))
    ensures forall a :: a in Arrays(merged) ==> a in Arrays(dst) || a in Arrays(batch) || fresh(a)
  {
    FreshBatch(dst, batch);
    ViewsConcat(dst, batch);
    ArraysConcat(dst, batch);
    merged := MergeProjects(dst, batch, []);
    assert merged + [] == merged;
  }

  method CollectBuilt(projects: seq<Entry>, b: Built) returns (merged: seq<Entry>)
    requires AllValid(projects) && Separate(projects)
    modifies Arrays(projects)
    ensures AllValid(merged) && Separate(merged)
    ensures Views(merged) == Merge(old(Views(projects)), b.Value())
    ensures forall a :: a in Arrays(merged) ==> a in Arrays(projects) || fresh(a)
  {
    var batch := Build(b);
    merged := MergeBuilt(projects, batch);
  }

  /** The collector over the sources' results, as they were built, computes the pure fold. */
  method CollectResults(results: seq<Built>) returns (projects: seq<Entry>)
    ensures AllValid(projects) && Separate(projects)
    ensures Views(projects) == FoldMerge(Values(results))
  {
    projects := [];
    for i := 0 to |results|
      invariant AllValid(projects) && Separate(projects)
      invariant Views(projects) == FoldMerge(Values(results[..i]))
      invariant forall a :: a in Arrays(projects) ==> fresh(a)
    {
      FoldStep(results, i);
      projects := CollectBuilt(projects, results[i]);
    }
    assert results[..|results|] == results;
  }

  lemma FoldStep(results: seq<Built>, i: nat)
    requires i < |results|
    ensures FoldMerge(Values(results[..i + 1])) == Merge(FoldMerge(Values(results[..i])), results[i].Value())
  {
    var vs := Values(results[..i + 1]);
    assert vs[..i] == Values(results[..i]);
  }

  lemma FreshBatch(a: seq<Entry>, b: seq<Entry>)
    requires AllValid(a) && AllValid(b) && Separate(a) && Separate(b) && Arrays(a) !! Arrays(b)
    ensures AllValid(a + b) && Separate(a + b + [])
  {
    var all := a + b + [];
    forall i, j | 0 <= i < j < |all|
      ensures Disjoint(all[i].detections, all[j].detections)
    {
      if j < |a| {
        assert Disjoint(a[i].detections, a[j].detections);
      } else if i < |a| {
        assert a[i].detections.arr in Arrays(a) && b[j - |a|].detections.arr in Arrays(b);
      } else {
        assert Disjoint(b[i - |a|].detections, b[j - |a|].detections);
      }
    }
  }
}
