/** What losing one leg of a dual-leg query does to the detections. */
module Degradation {
  import opened PersonaModel
  import opened Bags
  import opened Grouping
  import opened Legs
  import opened Emission
  import Sources

  /** The conversion looks at the element only. */
  ghost predicate PositionFree<T(!new)>(f: (nat, T) -> Option<Project>) {
    forall i, j, x :: f(i, x) == f(j, x)
  }

  function MadeTags<T>(f: (nat, T) -> Option<Project>): T -> multiset<(string, Detection)> {
    x => match f(0, x) case None => multiset{} case Some(p) => Tags(p)
  }

  lemma {:induction false} EmitTags<T(!new)>(s: seq<T>, f: (nat, T) -> Option<Project>)
    requires PositionFree(f)
    ensures Tagged(Emit(s, f)) == BagSum(s, MadeTags(f))
  {
    if s != [] {
      var front, x := s[..|s| - 1], s[|s| - 1];
      SplitLast(s);
      EmitTags(front, f);
      EmitSnocTags(front, x, f);
    }
  }

  lemma EmitSnocTags<T(!new)>(front: seq<T>, x: T, f: (nat, T) -> Option<Project>)
    requires PositionFree(f) && Tagged(Emit(front, f)) == BagSum(front, MadeTags(f))
    ensures Tagged(Emit(front + [x], f)) == BagSum(front + [x], MadeTags(f))
  {
    BagSumSnoc(front, x, MadeTags(f));
    EmitSnoc(front, x, f);
    assert f(|front|, x) == f(0, x);
    if f(0, x).Some? {
      BagSumSnoc(Emit(front, f), f(0, x).value, Tags);
    }
  }

  /** More records give more detections. */
  lemma EmitMonotone<T(!new)>(a: seq<T>, b: seq<T>, f: (nat, T) -> Option<Project>)
    requires PositionFree(f) && multiset(a) <= multiset(b)
    ensures Tagged(Emit(a, f)) <= Tagged(Emit(b, f))
  {
    EmitTags(a, f);
    EmitTags(b, f);
    forall x | x in a
      ensures multiset(a)[x] <= multiset(b)[x]
    {}
    BagSumMonotone(b, a, MadeTags(f));
  }

  /** Whatever the records are converted to, `part` has no detection that `full` does not have. */
  ghost predicate NeverGains<D(!new)>(part: seq<Record<D>>, full: seq<Record<D>>) {
    forall f: (nat, Record<D>) -> Option<Project> :: PositionFree(f) ==> Tagged(Emit(part, f)) <= Tagged(Emit(full, f))
  }

  /**
   Losing the username leg never gains a detection. Losing the email leg never does, exactly when
   the legs agree on the IDs they share.
   */
  lemma LegLossNeverGainsIff<D(!new)>(email: Leg<D>, username: Leg<D>, accept: Record<D> -> bool)
    ensures var full := DualLeg(email, username, accept).Records();
            && NeverGains(DualLeg(email, LegFailed, accept).Records(), full)
            && (NeverGains(DualLeg(LegFailed, username, accept).Records(), full) <==>
                LegsAgree(email.Records(), Filter(username.Records(), accept)))
  {
    var es, us := email.Records(), Filter(username.Records(), accept);
    assert es + [] == es && [] + us == us;
    LegLossLosesRecordsIff(email, username, accept);
    SubBagNeverGains(FirstById(es), FirstById(es + us));
    NeverGainsIffAgree(es, us);
  }

  lemma NeverGainsIffAgree<D(!new)>(es: seq<Record<D>>, us: seq<Record<D>>)
    ensures NeverGains(FirstById(us), FirstById(es + us)) <==> LegsAgree(es, us)
  {
    SubBagIffWithin(us, es + us);
    if LegsAgree(es, us) {
      NothingHidden(es, us);
      SubBagNeverGains(FirstById(us), FirstById(es + us));
    }
    if NeverGains(FirstById(us), FirstById(es + us)) {
      GainsUnlessWithin(FirstById(us), FirstById(es + us));
      HiddenUnlessAgreed(es, us);
    }
  }

  lemma SubBagNeverGains<D(!new)>(part: seq<Record<D>>, full: seq<Record<D>>)
    requires multiset(part) <= multiset(full)
    ensures NeverGains(part, full)
  {
    forall f: (nat, Record<D>) -> Option<Project> | PositionFree(f)
      ensures Tagged(Emit(part, f)) <= Tagged(Emit(full, f))
    {
      EmitMonotone(part, full, f);
    }
  }

  lemma GainsUnlessWithin<D(!new)>(part: seq<Record<D>>, full: seq<Record<D>>)
    requires NeverGains(part, full)
    ensures Within(part, full)
  {
    forall r | r in part
      ensures r in full
    {
      if r !in full {
        Gained(part, full, r);
      }
    }
  }

  /** A conversion that makes a project of one record only tells whether that record is there. */
  lemma Gained<D(!new)>(part: seq<Record<D>>, full: seq<Record<D>>, r: Record<D>)
    requires r in part && r !in full
    ensures !NeverGains(part, full)
  {
    var p := Project("", "", [Detection(MailingList, NoExtra)]);
    var f := OnlyFor(r, p);
    var i :| 0 <= i < |part| && part[i] == r;
    EmitInto(part, f, i);
    TagsOfMember(Emit(part, f), p);
    EmitNone(full, f);
    assert PositionFree(f) && !(Tagged(Emit(part, f)) <= Tagged(Emit(full, f)));
  }

  ghost function OnlyFor<T(!new)>(r: T, p: Project): (nat, T) -> Option<Project> {
    (i: nat, x: T) => if x == r then Some(p) else None
  }

  lemma {:induction false} TagsOfMember(ps: seq<Project>, p: Project)
    requires p in ps && p.detections != []
    ensures (p.uid, p.detections[0]) in Tagged(ps)
  {
    var k := |ps| - 1;
    if ps[k] == p {
      assert Tag(p.uid, p.detections)[0] in Tags(p);
    } else {
      TagsOfMember(ps[..k], p);
    }
  }

  /**
   The legs do disagree: an email-leg record that does not decode hides the username leg's good copy
   of it, and the detection only shows when the email leg fails.
   */
  lemma MalformedRecordHidesDetection(id: string, data: Sources.GroupsIoData, username: string, fold: string -> string)
    requires username != "" && fold(data.username) == fold(username) && data.projectUid != ""
    ensures var bad, good := LegOk([Record(id, Malformed)]), LegOk([Record(id, Fields(data))]);
            && Emit(Sources.MailingListQuery(bad, good, username, fold).Records(), Sources.MailingListProject) == []
            && Emit(Sources.MailingListQuery(LegFailed, good, username, fold).Records(), Sources.MailingListProject)
               == [Project(data.projectUid, data.projectSlug, [Detection(MailingList, NoExtra)])]
  {
    var bad, good := Record(id, Malformed), Record(id, Fields(data));
    QueriedRecords(bad, good, username, fold);
    HiddenBehind(bad, good);
    EmitOne(bad, Sources.MailingListProject);
    EmitOne(good, Sources.MailingListProject);
  }

  lemma EmitOne<T>(x: T, f: (nat, T) -> Option<Project>)
    ensures Emit([x], f) == match f(0, x) case None => [] case Some(p) => [p]
  {
    EmitSnoc([], x, f);
    assert [] + [x] == [x];
  }

  lemma QueriedRecords(first: Record<Sources.GroupsIoData>, second: Record<Sources.GroupsIoData>,
                       username: string, fold: string -> string)
    requires username != "" && Sources.SubscribedAs(username, fold)(second)
    ensures Sources.MailingListQuery(LegOk([first]), LegOk([second]), username, fold)
            == LegOk(FirstById([first] + [second]))
    ensures Sources.MailingListQuery(LegFailed, LegOk([second]), username, fold) == LegOk(FirstById([] + [second]))
  {
    OneAccepted(second, Sources.SubscribedAs(username, fold));
  }

  lemma OneAccepted<D>(r: Record<D>, accept: Record<D> -> bool)
    requires accept(r)
    ensures Filter([r], accept) == [r]
  {
    FilterSnoc([], r, accept);
    assert [] + [r] == [r];
  }

  lemma HiddenBehind<D>(first: Record<D>, second: Record<D>)
    requires first.id == second.id
    ensures FirstById([first] + [second]) == [first]
    ensures FirstById([] + [second]) == [second]
  {
    FirstByIdSnoc([], first);
    FirstByIdSnoc([first], second);
    FirstByIdSnoc([], second);
    assert [] + [first] == [first] && [] + [second] == [second];
  }
}
