/**
 Grouping project entries by UID: the specification of MergeProjects, its algebra,
 and what grouping keeps.
 */
module Grouping {
  import opened PersonaModel
  import opened Bags

  /** The UIDs of `ps`, each once, in order of first appearance. */
  function Uids(ps: seq<Project>): seq<string> {
    if ps == [] then [] else
      var us, p := Uids(ps[..|ps| - 1]), ps[|ps| - 1];
      if p.uid in us then us else us + [p.uid]
  }

  /** Every detection that `ps` holds for `u`, in order. */
  function DetectionsOf(ps: seq<Project>, u: string): seq<Detection> {
    if ps == [] then [] else
      var p := ps[|ps| - 1];
      DetectionsOf(ps[..|ps| - 1], u) + if p.uid == u then p.detections else []
  }

  /** The slug of the first entry of `ps` for `u`. */
  function SlugOf(ps: seq<Project>, u: string): string
    requires u in Uids(ps)
  {
    var front, p := ps[..|ps| - 1], ps[|ps| - 1];
    if u in Uids(front) then SlugOf(front, u) else p.slug
  }

  /** One entry for each UID, with the first slug seen and all detections. */
  function Group(ps: seq<Project>): seq<Project> {
    seq(|Uids(ps)|, i requires 0 <= i < |Uids(ps)| =>
      Project(Uids(ps)[i], SlugOf(ps, Uids(ps)[i]), DetectionsOf(ps, Uids(ps)[i])))
  }

  function Merge(dst: seq<Project>, src: seq<Project>): seq<Project> {
    Group(dst + src)
  }

  lemma AppendAssociative<T>(a: seq<T>, b: seq<T>, c: seq<T>)
    ensures a + b + c == a + (b + c)
  {}

  // ---------- appending one entry ----------

  lemma {:induction false} UidsUnique(ps: seq<Project>)
    ensures forall i, j :: 0 <= i < j < |Uids(ps)| ==> Uids(ps)[i] != Uids(ps)[j]
  {
    if ps != [] {
      UidsUnique(ps[..|ps| - 1]);
    }
  }

  lemma {:induction false} UidsAre(ps: seq<Project>, u: string)
    ensures u in Uids(ps) <==> exists i :: 0 <= i < |ps| && ps[i].uid == u
  {
    if ps != [] {
      var front := ps[..|ps| - 1];
      UidsAre(front, u);
      assert ps == front + [ps[|ps| - 1]];
      if u in Uids(front) {
        var i :| 0 <= i < |front| && front[i].uid == u;
        assert ps[i].uid == u;
      }
    }
  }

  lemma SnocDetections(ps: seq<Project>, p: Project, u: string)
    ensures DetectionsOf(ps + [p], u) == DetectionsOf(ps, u) + if p.uid == u then p.detections else []
  {
    assert (ps + [p])[..|ps|] == ps;
  }

  lemma SnocUids(ps: seq<Project>, p: Project)
    ensures Uids(ps + [p]) == if p.uid in Uids(ps) then Uids(ps) else Uids(ps) + [p.uid]
    ensures forall u :: u in Uids(ps + [p]) ==> SlugOf(ps + [p], u) == if u in Uids(ps) then SlugOf(ps, u) else p.slug
  {
    assert (ps + [p])[..|ps|] == ps;
  }

  lemma Snoc(ps: seq<Project>, p: Project)
    ensures Uids(ps + [p]) == if p.uid in Uids(ps) then Uids(ps) else Uids(ps) + [p.uid]
    ensures forall u :: DetectionsOf(ps + [p], u) == DetectionsOf(ps, u) + if p.uid == u then p.detections else []
    ensures forall u :: u in Uids(ps + [p]) ==> SlugOf(ps + [p], u) == if u in Uids(ps) then SlugOf(ps, u) else p.slug
  {
    SnocUids(ps, p);
    forall u {
      SnocDetections(ps, p, u);
    }
  }

  lemma {:induction false} AbsentDetections(ps: seq<Project>, u: string)
    requires u !in Uids(ps)
    ensures DetectionsOf(ps, u) == []
  {
    if ps != [] {
      AbsentDetections(ps[..|ps| - 1], u);
    }
  }

  /** What happens to the grouping when a new UID arrives (the `else` branch of both loops). */
  lemma GroupNewUid(ps: seq<Project>, p: Project)
    requires p.uid !in Uids(ps)
    ensures Group(ps + [p]) == Group(ps) + [p]
  {
    Snoc(ps, p);
    AbsentDetections(ps, p.uid);
    forall i | 0 <= i < |Uids(ps)|
      ensures Group(ps + [p])[i] == Group(ps)[i]
    {
      assert Uids(ps + [p])[i] == Uids(ps)[i] && Uids(ps)[i] in Uids(ps);
    }
    assert Group(ps + [p])[|Uids(ps)|] == Project(p.uid, p.slug, [] + p.detections) == p;
  }

  /** What happens when a known UID arrives: only its entry's detections grow. */
  lemma GroupKnownUid(ps: seq<Project>, p: Project, i: nat)
    requires i < |Uids(ps)| && Uids(ps)[i] == p.uid
    ensures Group(ps + [p]) == Group(ps)[i := Group(ps)[i].(detections := Group(ps)[i].detections + p.detections)]
  {
    Snoc(ps, p);
    UidsUnique(ps);
    forall k | 0 <= k < |Uids(ps)|
      ensures Group(ps + [p])[k] ==
              if k == i then Group(ps)[i].(detections := Group(ps)[i].detections + p.detections) else Group(ps)[k]
    {
      assert Uids(ps)[k] in Uids(ps);
    }
  }

  // ---------- grouping a grouping changes nothing ----------

  /** `a` and `b` are indistinguishable to grouping. */
  ghost predicate Alike(a: seq<Project>, b: seq<Project>) {
    && Uids(a) == Uids(b)
    && (forall u :: DetectionsOf(a, u) == DetectionsOf(b, u))
    && (forall u :: u in Uids(a) ==> SlugOf(a, u) == SlugOf(b, u))
  }

  lemma AlikeGroups(a: seq<Project>, b: seq<Project>)
    requires Alike(a, b)
    ensures Group(a) == Group(b)
  {
    forall i | 0 <= i < |Uids(a)|
      ensures Group(a)[i] == Group(b)[i]
    {
      assert Uids(a)[i] in Uids(a);
    }
  }

  lemma AlikeSnoc(a: seq<Project>, b: seq<Project>, p: Project)
    requires Alike(a, b)
    ensures Alike(a + [p], b + [p])
  {
    Snoc(a, p);
    Snoc(b, p);
  }

  lemma {:induction false} AlikeAppend(a: seq<Project>, b: seq<Project>, c: seq<Project>)
    requires Alike(a, b)
    ensures Alike(a + c, b + c)
    decreases |c|
  {
    if c == [] {
      assert a + c == a && b + c == b;
    } else {
      var k := |c| - 1;
      AlikeAppend(a, b, c[..k]);
      AlikeSnoc(a + c[..k], b + c[..k], c[k]);
      assert a + c == a + c[..k] + [c[k]] && b + c == b + c[..k] + [c[k]];
    }
  }

  function Grow(g: seq<Project>, i: nat, ds: seq<Detection>): seq<Project>
    requires i < |g|
  {
    g[i := g[i].(detections := g[i].detections + ds)]
  }

  /** Growing the last entry for a UID in place is the same as appending one more entry for it. */
  lemma {:induction false} GrowEntry(g: seq<Project>, i: nat, p: Project)
    requires i < |g| && p.uid == g[i].uid
    requires forall j :: i < j < |g| ==> g[j].uid != p.uid
    ensures Alike(Grow(g, i, p.detections), g + [p])
    decreases |g|
  {
    var k := |g| - 1;
    var front := g[..k];
    assert g == front + [g[k]];
    if i == k {
      GrowLast(front, g[k], p);
    } else {
      GrowEntry(front, i, p);
      assert Grow(g, i, p.detections) == Grow(front, i, p.detections) + [g[k]];
      AlikeSnoc(Grow(front, i, p.detections), front + [p], g[k]);
      assert front[i].uid == p.uid && p.uid != g[k].uid;
      SwapDistinct(front, p, g[k], i);
    }
  }

  lemma GrowLast(front: seq<Project>, q: Project, p: Project)
    requires p.uid == q.uid
    ensures Alike(Grow(front + [q], |front|, p.detections), front + [q] + [p])
  {
    var q' := q.(detections := q.detections + p.detections);
    assert Grow(front + [q], |front|, p.detections) == front + [q'];
    GrowLastUids(front, q, q', p);
    forall u {
      GrowLastDetections(front, q, p, u);
    }
  }

  lemma GrowLastUids(front: seq<Project>, q: Project, q': Project, p: Project)
    requires p.uid == q.uid == q'.uid && q'.slug == q.slug
    ensures Uids(front + [q']) == Uids(front + [q] + [p])
    ensures forall u :: u in Uids(front + [q']) ==> SlugOf(front + [q'], u) == SlugOf(front + [q] + [p], u)
  {
    SnocUids(front, q);
    SnocUids(front, q');
    SnocUids(front + [q], p);
  }

  lemma GrowLastDetections(front: seq<Project>, q: Project, p: Project, u: string)
    requires p.uid == q.uid
    ensures DetectionsOf(front + [q.(detections := q.detections + p.detections)], u)
            == DetectionsOf(front + [q] + [p], u)
  {
    SnocDetections(front, q, u);
    SnocDetections(front, q.(detections := q.detections + p.detections), u);
    SnocDetections(front + [q], p, u);
  }

  /** A second entry for a known UID commutes with an entry for another UID. */
  lemma SwapDistinct(front: seq<Project>, p: Project, q: Project, i: nat)
    requires i < |front| && front[i].uid == p.uid != q.uid
    ensures Alike(front + [p] + [q], front + [q] + [p])
  {
    forall u {
      SwapDetections(front, p, q, u);
    }
    SwapUids(front, p, q, i);
  }

  lemma SwapUids(front: seq<Project>, p: Project, q: Project, i: nat)
    requires i < |front| && front[i].uid == p.uid
    ensures Uids(front + [p] + [q]) == Uids(front + [q] + [p])
    ensures forall u :: u in Uids(front + [p] + [q]) ==> SlugOf(front + [p] + [q], u) == SlugOf(front + [q] + [p], u)
  {
    UidsAre(front, p.uid);
    SnocUids(front, p);
    SnocUids(front, q);
    SnocUids(front + [p], q);
    SnocUids(front + [q], p);
  }

  lemma SwapDetections(front: seq<Project>, p: Project, q: Project, u: string)
    requires p.uid != q.uid
    ensures DetectionsOf(front + [p] + [q], u) == DetectionsOf(front + [q] + [p], u)
  {
    SnocDetections(front, p, u);
    SnocDetections(front, q, u);
    SnocDetections(front + [p], q, u);
    SnocDetections(front + [q], p, u);
  }

  lemma AlikeTransitive(a: seq<Project>, b: seq<Project>, c: seq<Project>)
    requires Alike(a, b) && Alike(b, c)
    ensures Alike(a, c)
  {}

  lemma BehindSnoc(a: seq<Project>, g: seq<Project>, g': seq<Project>, front: seq<Project>, p: Project)
    requires Alike(a + g, a + front) && Alike(a + g', a + g + [p])
    ensures Alike(a + g', a + (front + [p]))
  {
    AlikeSnoc(a + g, a + front, p);
    AlikeTransitive(a + g', a + g + [p], a + front + [p]);
    assert a + front + [p] == a + (front + [p]);
  }

  lemma BehindStep(a: seq<Project>, front: seq<Project>, p: Project)
    requires Alike(a + Group(front), a + front)
    ensures Alike(a + Group(front + [p]), a + (front + [p]))
  {
    GroupStepBehind(a, front, p);
    BehindSnoc(a, Group(front), Group(front + [p]), front, p);
  }

  /** The grouping of a list may also replace it behind other entries. */
  lemma {:induction false} GroupAlikeBehind(a: seq<Project>, b: seq<Project>)
    ensures Alike(a + Group(b), a + b)
    decreases |b|
  {
    if b == [] {
      assert a + Group(b) == a == a + b;
    } else {
      var front, p := b[..|b| - 1], b[|b| - 1];
      GroupAlikeBehind(a, front);
      BehindStep(a, front, p);
      assert b == front + [p];
    }
  }

  lemma GroupStepBehind(a: seq<Project>, ps: seq<Project>, p: Project)
    ensures Alike(a + Group(ps + [p]), a + Group(ps) + [p])
  {
    var g := Group(ps);
    if p.uid in Uids(ps) {
      var i :| 0 <= i < |Uids(ps)| && Uids(ps)[i] == p.uid;
      GroupKnownUid(ps, p, i);
      UidsUnique(ps);
      GrowBehind(a, g, i, p);
    } else {
      GroupNewUid(ps, p);
      assert a + g + [p] == a + (g + [p]);
    }
  }

  lemma GrowBehind(a: seq<Project>, g: seq<Project>, i: nat, p: Project)
    requires i < |g| && p.uid == g[i].uid
    requires forall j :: i < j < |g| ==> g[j].uid != p.uid
    ensures Alike(a + Grow(g, i, p.detections), a + g + [p])
  {
    forall j | |a| + i < j < |a + g|
      ensures (a + g)[j].uid != p.uid
    {
      assert (a + g)[j] == g[j - |a|];
    }
    GrowEntry(a + g, |a| + i, p);
    assert Grow(a + g, |a| + i, p.detections) == a + Grow(g, i, p.detections);
  }

  lemma GroupAlike(ps: seq<Project>)
    ensures Alike(Group(ps), ps)
  {
    GroupAlikeBehind([], ps);
    assert [] + Group(ps) == Group(ps) && [] + ps == ps;
  }

  lemma GroupAbsorbsLeft(a: seq<Project>, b: seq<Project>)
    ensures Group(Group(a) + b) == Group(a + b)
  {
    GroupAlike(a);
    AlikeAppend(Group(a), a, b);
    AlikeGroups(Group(a) + b, a + b);
  }

  lemma GroupAbsorbsRight(a: seq<Project>, b: seq<Project>)
    ensures Group(a + Group(b)) == Group(a + b)
  {
    GroupAlikeBehind(a, b);
    AlikeGroups(a + Group(b), a + b);
  }

  lemma {:induction false} DetectionsOfConcat(a: seq<Project>, b: seq<Project>, u: string)
    ensures DetectionsOf(a + b, u) == DetectionsOf(a, u) + DetectionsOf(b, u)
    decreases |b|
  {
    if b == [] {
      assert a + b == a;
    } else {
      var front, p := b[..|b| - 1], b[|b| - 1];
      DetectionsOfConcat(a, front, u);
      DetectionsConcatSnoc(a, front, p, u);
      assert b == front + [p];
    }
  }

  lemma DetectionsConcatSnoc(a: seq<Project>, b: seq<Project>, p: Project, u: string)
    requires DetectionsOf(a + b, u) == DetectionsOf(a, u) + DetectionsOf(b, u)
    ensures DetectionsOf(a + (b + [p]), u) == DetectionsOf(a, u) + DetectionsOf(b + [p], u)
  {
    var ds := if p.uid == u then p.detections else [];
    SnocDetections(a + b, p, u);
    SnocDetections(b, p, u);
    AppendAssociative(DetectionsOf(a, u), DetectionsOf(b, u), ds);
    AppendAssociative(a, b, [p]);
  }

  // ---------- the algebra of MergeProjects ----------

  lemma GroupIdempotent(ps: seq<Project>)
    ensures Group(Group(ps)) == Group(ps)
  {
    GroupAlike(ps);
    AlikeGroups(Group(ps), ps);
  }

  lemma MergeAssociative(a: seq<Project>, b: seq<Project>, c: seq<Project>)
    ensures Merge(Merge(a, b), c) == Merge(a, Merge(b, c))
    ensures Merge(Merge(a, b), c) == Group(a + b + c)
  {
    GroupAbsorbsLeft(a + b, c);
    GroupAbsorbsRight(a, b + c);
    AppendAssociative(a, b, c);
  }

  function Flatten(batches: seq<seq<Project>>): seq<Project> {
    if batches == [] then [] else Flatten(batches[..|batches| - 1]) + batches[|batches| - 1]
  }

  /** The collector's fold: merge each batch into what was collected before it. */
  function FoldMerge(batches: seq<seq<Project>>): seq<Project> {
    if batches == [] then [] else Merge(FoldMerge(batches[..|batches| - 1]), batches[|batches| - 1])
  }

  lemma {:induction false} FoldIsOneGrouping(batches: seq<seq<Project>>)
    ensures FoldMerge(batches) == Group(Flatten(batches))
  {
    if batches != [] {
      var k := |batches| - 1;
      FoldIsOneGrouping(batches[..k]);
      GroupAbsorbsLeft(Flatten(batches[..k]), batches[k]);
    }
  }

  // ---------- what grouping keeps ----------

  function Tag(uid: string, ds: seq<Detection>): (r: seq<(string, Detection)>)
    ensures |r| == |ds| && forall i :: 0 <= i < |ds| ==> r[i] == (uid, ds[i])
  {
    seq(|ds|, i requires 0 <= i < |ds| => (uid, ds[i]))
  }

  /** The detections of one entry, each with the UID it belongs to. */
  function Tags(p: Project): multiset<(string, Detection)> {
    multiset(Tag(p.uid, p.detections))
  }

  /** All detections of `ps`, each with its UID, counted with multiplicity. */
  function Tagged(ps: seq<Project>): multiset<(string, Detection)> {
    BagSum(ps, Tags)
  }

  lemma TagsConcat(uid: string, slug: string, ds: seq<Detection>, es: seq<Detection>)
    ensures Tags(Project(uid, slug, ds + es)) == Tags(Project(uid, slug, ds)) + Tags(Project(uid, slug, es))
  {
    assert Tag(uid, ds + es) == Tag(uid, ds) + Tag(uid, es);
  }

  /** More detections for one entry are tagged with that entry's UID. */
  lemma TaggedGrows(g: seq<Project>, i: nat, ds: seq<Detection>)
    requires i < |g|
    ensures Tagged(g[i := g[i].(detections := g[i].detections + ds)])
            == Tagged(g) + Tags(Project(g[i].uid, g[i].slug, ds))
  {
    var q := g[i].(detections := g[i].detections + ds);
    var g' := g[i := q];
    BagSumRemove(g, i, Tags);
    BagSumRemove(g', i, Tags);
    TagsConcat(g[i].uid, g[i].slug, g[i].detections, ds);
    assert g'[..i] == g[..i] && g'[i + 1..] == g[i + 1..];
  }

  /** Grouping neither loses, invents nor moves a detection. */
  lemma {:induction false} GroupConserves(ps: seq<Project>)
    ensures Tagged(Group(ps)) == Tagged(ps)
  {
    if ps != [] {
      var front, p := ps[..|ps| - 1], ps[|ps| - 1];
      GroupConserves(front);
      ConservesStep(front, p);
      assert ps == front + [p];
    }
  }

  lemma ConservesStep(front: seq<Project>, p: Project)
    requires Tagged(Group(front)) == Tagged(front)
    ensures Tagged(Group(front + [p])) == Tagged(front + [p])
  {
    BagSumSnoc(front, p, Tags);
    if p.uid in Uids(front) {
      var i :| 0 <= i < |Uids(front)| && Uids(front)[i] == p.uid;
      GroupKnownUid(front, p, i);
      TaggedGrows(Group(front), i, p.detections);
    } else {
      GroupNewUid(front, p);
      BagSumSnoc(Group(front), p, Tags);
    }
  }

  /** The count of `(u, d)` is the number of times `u`'s detection list holds `d`. */
  lemma {:induction false} TaggedCounts(ps: seq<Project>, u: string, d: Detection)
    ensures Tagged(ps)[(u, d)] == multiset(DetectionsOf(ps, u))[d]
  {
    if ps != [] {
      TaggedCounts(ps[..|ps| - 1], u, d);
      TagsCount(ps[|ps| - 1].uid, ps[|ps| - 1].slug, ps[|ps| - 1].detections, u, d);
    }
  }

  lemma {:induction false} TagsCount(uid: string, slug: string, ds: seq<Detection>, u: string, d: Detection)
    ensures Tags(Project(uid, slug, ds))[(u, d)] == if uid == u then multiset(ds)[d] else 0
  {
    if ds == [] {
      assert multiset(ds)[d] == 0;
    } else {
      var k := |ds| - 1;
      TagsCount(uid, slug, ds[..k], u, d);
      assert ds == ds[..k] + [ds[k]];
      TagsConcat(uid, slug, ds[..k], [ds[k]]);
      assert Tag(uid, [ds[k]]) == [(uid, ds[k])];
    }
  }

  /** A list fit to be a reply: unique non-empty UIDs, no entry without a detection. */
  ghost predicate WellFormed(ps: seq<Project>) {
    && (forall i, j :: 0 <= i < j < |ps| ==> ps[i].uid != ps[j].uid)
    && Attributed(ps)
  }

  /** What every source guarantees of the entries it returns. */
  ghost predicate Attributed(ps: seq<Project>) {
    forall i :: 0 <= i < |ps| ==> ps[i].uid != "" && ps[i].detections != []
  }

  lemma {:induction false} SomeDetection(ps: seq<Project>, u: string)
    requires Attributed(ps) && u in Uids(ps)
    ensures DetectionsOf(ps, u) != []
  {
    var front := ps[..|ps| - 1];
    if u in Uids(front) {
      SomeDetection(front, u);
    }
  }

  lemma GroupWellFormed(ps: seq<Project>)
    requires Attributed(ps)
    ensures WellFormed(Group(ps))
  {
    UidsUnique(ps);
    forall i | 0 <= i < |Uids(ps)|
      ensures Group(ps)[i].uid != "" && Group(ps)[i].detections != []
    {
      assert Uids(ps)[i] in Uids(ps);
      UidsAre(ps, Uids(ps)[i]);
      SomeDetection(ps, Uids(ps)[i]);
    }
  }

  /** The slug of a UID is one that some contributing entry carries. */
  lemma {:induction false} SlugIsContributed(ps: seq<Project>, u: string)
    requires u in Uids(ps)
    ensures exists i :: 0 <= i < |ps| && ps[i].uid == u && ps[i].slug == SlugOf(ps, u)
  {
    var front := ps[..|ps| - 1];
    assert ps == front + [ps[|ps| - 1]];
    if u in Uids(front) {
      SlugIsContributed(front, u);
      var i :| 0 <= i < |front| && front[i].uid == u && front[i].slug == SlugOf(front, u);
      assert ps[i] == front[i];
    } else {
      assert ps[|ps| - 1].uid == u;
    }
  }

  /** Two lists that give every UID the same detections, up to order. */
  ghost predicate SameAnswer(a: seq<Project>, b: seq<Project>) {
    && (forall u :: u in Uids(a) <==> u in Uids(b))
    && (forall u :: multiset(DetectionsOf(a, u)) == multiset(DetectionsOf(b, u)))
  }

  lemma SameTagsSameAnswer(a: seq<Project>, b: seq<Project>)
    requires Tagged(a) == Tagged(b)
    requires forall u :: u in Uids(a) <==> u in Uids(b)
    ensures SameAnswer(a, b) && SameAnswer(Group(a), Group(b))
  {
    GroupAlike(a);
    GroupAlike(b);
    forall u
      ensures multiset(DetectionsOf(a, u)) == multiset(DetectionsOf(b, u))
    {
      forall d
        ensures multiset(DetectionsOf(a, u))[d] == multiset(DetectionsOf(b, u))[d]
      {
        TaggedCounts(a, u, d);
        TaggedCounts(b, u, d);
      }
    }
  }
}
