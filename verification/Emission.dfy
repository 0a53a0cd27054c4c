/** The conversion loops of the sources: walk a list, skip some elements, append a project for the others. */
module Emission {
  import opened PersonaModel
  import opened Bags
  import opened Grouping

  /** The projects that `f` makes of the elements of `s`, in order; `f` also sees the position. */
  function Emit<T>(s: seq<T>, f: (nat, T) -> Option<Project>): seq<Project> {
    if s == [] then [] else
      var k := |s| - 1;
      Emit(s[..k], f) + match f(k, s[k]) case None => [] case Some(p) => [p]
  }

  lemma EmitSnoc<T>(front: seq<T>, x: T, f: (nat, T) -> Option<Project>)
    ensures Emit(front + [x], f) ==
            match f(|front|, x) case None => Emit(front, f) case Some(p) => Emit(front, f) + [p]
  {
    assert (front + [x])[..|front|] == front;
    assert Emit(front, f) + [] == Emit(front, f);
  }

  /** One turn of a conversion loop. */
  lemma EmitStep<T>(s: seq<T>, i: nat, f: (nat, T) -> Option<Project>)
    requires i < |s|
    ensures Emit(s[..i + 1], f) == match f(i, s[i]) case None => Emit(s[..i], f) case Some(p) => Emit(s[..i], f) + [p]
  {
    EmitSnoc(s[..i], s[i], f);
    assert s[..i + 1] == s[..i] + [s[i]];
  }

  /** `out` is the order-preserving selection of exactly the elements for which `f` makes a project. */
  ghost predicate Selects<T>(s: seq<T>, f: (nat, T) -> Option<Project>, at: seq<nat>, out: seq<Project>) {
    && |at| == |out|
    && (forall k :: 0 <= k < |at| ==> at[k] < |s| && f(at[k], s[at[k]]) == Some(out[k]))
    && (forall j, k :: 0 <= j < k < |at| ==> at[j] < at[k])
    && (forall i {:trigger i in at} :: 0 <= i < |s| && f(i, s[i]).Some? ==> i in at)
  }

  lemma {:induction false} EmitSelects<T>(s: seq<T>, f: (nat, T) -> Option<Project>) returns (at: seq<nat>)
    ensures Selects(s, f, at, Emit(s, f))
    decreases |s|
  {
    if s == [] {
      at := [];
    } else {
      var front, x := s[..|s| - 1], s[|s| - 1];
      SplitLast(s);
      var before := EmitSelects(front, f);
      at := SelectsNext(front, x, f, before);
    }
  }

  lemma SelectsNext<T>(front: seq<T>, x: T, f: (nat, T) -> Option<Project>, before: seq<nat>) returns (at: seq<nat>)
    requires Selects(front, f, before, Emit(front, f))
    ensures Selects(front + [x], f, at, Emit(front + [x], f))
  {
    EmitSnoc(front, x, f);
    at := SelectsOneMore(front, x, f, before, Emit(front, f), Emit(front + [x], f));
  }

  lemma SelectsOneMore<T>(front: seq<T>, x: T, f: (nat, T) -> Option<Project>, before: seq<nat>,
                          out: seq<Project>, out': seq<Project>)
    returns (at: seq<nat>)
    requires Selects(front, f, before, out)
    requires out' == match f(|front|, x) case None => out case Some(p) => out + [p]
    ensures Selects(front + [x], f, at, out')
  {
    SelectsSnoc(front, x, f, before, out);
    at := if f(|front|, x).Some? then before + [|front|] else before;
  }

  lemma SelectsSnoc<T>(front: seq<T>, x: T, f: (nat, T) -> Option<Project>, at: seq<nat>, out: seq<Project>)
    requires Selects(front, f, at, out)
    ensures match f(|front|, x)
            case None => Selects(front + [x], f, at, out)
            case Some(p) => Selects(front + [x], f, at + [|front|], out + [p])
  {
    var s := front + [x];
    forall i | 0 <= i < |s| && f(i, s[i]).Some?
      ensures i in at + [|front|] && (i < |front| ==> i in at)
    {
      assert i < |front| ==> s[i] == front[i];
      assert i == |front| ==> (at + [|front|])[|at|] == i;
    }
    forall k | 0 <= k < |at|
      ensures f(at[k], s[at[k]]) == Some(out[k])
    {
      assert s[at[k]] == front[at[k]];
    }
  }

  lemma {:induction false} EmitNone<T>(s: seq<T>, f: (nat, T) -> Option<Project>)
    requires forall i :: 0 <= i < |s| ==> f(i, s[i]) == None
    ensures Emit(s, f) == []
  {
    if s != [] {
      EmitNone(s[..|s| - 1], f);
    }
  }

  /** An emitted project comes from an element. */
  lemma EmitOrigin<T>(s: seq<T>, f: (nat, T) -> Option<Project>, k: nat) returns (i: nat)
    requires k < |Emit(s, f)|
    ensures i < |s| && f(i, s[i]) == Some(Emit(s, f)[k])
  {
    var at := EmitSelects(s, f);
    i := at[k];
  }

  /** An element's project is emitted. */
  lemma EmitInto<T>(s: seq<T>, f: (nat, T) -> Option<Project>, i: nat)
    requires i < |s| && f(i, s[i]).Some?
    ensures f(i, s[i]).value in Emit(s, f)
  {
    var at := EmitSelects(s, f);
    assert i in at;
    var k :| 0 <= k < |at| && at[k] == i;
    assert Emit(s, f)[k] == f(i, s[i]).value;
  }

  /** So what holds of every project that `f` makes holds of every emitted one. */
  lemma EmitAttributed<T>(s: seq<T>, f: (nat, T) -> Option<Project>)
    requires forall i :: 0 <= i < |s| && f(i, s[i]).Some? ==>
      f(i, s[i]).value.uid != "" && f(i, s[i]).value.detections != []
    ensures Attributed(Emit(s, f))
  {
    forall k | 0 <= k < |Emit(s, f)|
      ensures Emit(s, f)[k].uid != "" && Emit(s, f)[k].detections != []
    {
      var i := EmitOrigin(s, f, k);
    }
  }

  ghost predicate Makes<T>(s: seq<T>, f: (nat, T) -> Option<Project>, i: nat, p: Project) {
    i < |s| && f(i, s[i]) == Some(p)
  }

  /** The emitted projects are those that the elements make. */
  lemma EmitMembers<T>(s: seq<T>, f: (nat, T) -> Option<Project>, p: Project)
    ensures p in Emit(s, f) <==> exists i: nat :: Makes(s, f, i, p)
  {
    if k :| 0 <= k < |Emit(s, f)| && Emit(s, f)[k] == p {
      var i := EmitOrigin(s, f, k);
      assert Makes(s, f, i, p);
    }
    if i: nat :| Makes(s, f, i, p) {
      EmitInto(s, f, i);
    }
  }

  /** And the detections of `u` are those of the projects of `u`. */
  lemma DetectionsMembers(ps: seq<Project>, u: string, d: Detection)
    ensures d in DetectionsOf(ps, u) <==> exists p :: p in ps && p.uid == u && d in p.detections
  {
    DetectionsOfHas(ps, u, d);
    if p :| p in ps && p.uid == u && d in p.detections {
      var i :| 0 <= i < |ps| && ps[i] == p;
    }
  }

  // ---------- what the whole reply needs of each source ----------

  /** `e` is the committee_member detection of the membership that `d` reports as a Board seat. */
  predicate SameMembership(d: Detection, e: Detection) {
    && d.extra.BoardExtra? && e.source == CommitteeMember
    && e.extra == CommitteeExtra(d.extra.committeeUid, d.extra.committeeName, d.extra.memberUid, d.extra.role)
  }

  /** Every board_member detection comes with the committee_member detection of the same membership. */
  ghost predicate BoardPaired(ds: seq<Detection>) {
    forall d :: d in ds && d.source == BoardMember ==> exists e :: e in ds && SameMembership(d, e)
  }

  ghost predicate Paired(ps: seq<Project>) {
    forall u :: BoardPaired(DetectionsOf(ps, u))
  }

  /** What every source guarantees of a successful result. */
  ghost predicate Lawful(ps: seq<Project>) {
    Attributed(ps) && Paired(ps)
  }

  lemma {:induction false} DetectionsOfHas(ps: seq<Project>, u: string, d: Detection)
    ensures d in DetectionsOf(ps, u) <==> exists i :: 0 <= i < |ps| && ps[i].uid == u && d in ps[i].detections
  {
    if ps != [] {
      var k := |ps| - 1;
      DetectionsOfHas(ps[..k], u, d);
      assert ps == ps[..k] + [ps[k]];
      assert d in DetectionsOf(ps, u) <==> d in DetectionsOf(ps[..k], u) || (ps[k].uid == u && d in ps[k].detections);
      if i :| 0 <= i < k && ps[..k][i].uid == u && d in ps[..k][i].detections {
        assert ps[i] == ps[..k][i];
      }
    }
  }

  lemma DetectionOrigin(ps: seq<Project>, u: string, d: Detection) returns (k: nat)
    requires d in DetectionsOf(ps, u)
    ensures k < |ps| && ps[k].uid == u && d in ps[k].detections
  {
    DetectionsOfHas(ps, u, d);
    k :| 0 <= k < |ps| && ps[k].uid == u && d in ps[k].detections;
  }

  lemma PairedConcat(a: seq<Project>, b: seq<Project>)
    requires Paired(a) && Paired(b)
    ensures Paired(a + b)
  {
    forall u
      ensures BoardPaired(DetectionsOf(a + b, u))
    {
      DetectionsOfConcat(a, b, u);
      var da, db := DetectionsOf(a, u), DetectionsOf(b, u);
      forall d: Detection | d in da + db && d.source == BoardMember
        ensures exists e :: e in da + db && SameMembership(d, e)
      {
        if d in da {
          var e :| e in da && SameMembership(d, e);
          assert e in da + db;
        } else {
          var e :| e in db && SameMembership(d, e);
          assert e in da + db;
        }
      }
    }
  }

  /** A source that never makes a board_member detection is lawful if its entries are attributed. */
  lemma EmitLawful<T>(s: seq<T>, f: (nat, T) -> Option<Project>)
    requires forall i :: 0 <= i < |s| && f(i, s[i]).Some? ==>
      f(i, s[i]).value.uid != "" && f(i, s[i]).value.detections != []
    requires forall i :: 0 <= i < |s| && f(i, s[i]).Some? ==>
      forall d :: d in f(i, s[i]).value.detections ==> d.source != BoardMember
    ensures Lawful(Emit(s, f))
  {
    EmitAttributed(s, f);
    forall u, d | d in DetectionsOf(Emit(s, f), u)
      ensures d.source != BoardMember
    {
      var k := DetectionOrigin(Emit(s, f), u, d);
      var i := EmitOrigin(s, f, k);
    }
  }
}
