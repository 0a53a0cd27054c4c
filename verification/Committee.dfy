/** The board_member and committee_member source. */
module Committee {
  import opened PersonaModel
  import opened Grouping
  import opened Legs
  import opened Emission

  datatype MemberData = MemberData(
    username: string, email: string, committeeUid: string, committeeName: string,
    projectUid: string, projectSlug: string, role: string, votingStatus: string, organization: Organization)

  type Member = Record<MemberData>

  /** The replies to the four searches of the source. */
  datatype Replies = Replies(
    boardEmail: Leg<MemberData>, boardUsername: Leg<MemberData>,
    allEmail: Leg<MemberData>, allUsername: Leg<MemberData>)

  /** The local post-filter of the username leg; `fold` maps names that EqualFold equates to the same string. */
  function HasUsername(username: string, fold: string -> string): Member -> bool {
    (r: Member) => r.data.Fields? && fold(r.data.data.username) == fold(username)
  }

  function BoardProject(i: nat, r: Member): Option<Project> {
    if r.data.Malformed? || r.data.data.projectUid == "" then None else
      var d := r.data.data;
      Some(Project(d.projectUid, d.projectSlug, [
        Detection(BoardMember,
                  BoardExtra(d.committeeUid, d.committeeName, r.id, d.role, d.votingStatus, d.organization))
      ]))
  }

  function CommitteeProject(i: nat, r: Member): Option<Project> {
    if r.data.Malformed? || r.data.data.projectUid == "" then None else
      var d := r.data.data;
      Some(Project(d.projectUid, d.projectSlug, [
        Detection(CommitteeMember, CommitteeExtra(d.committeeUid, d.committeeName, r.id, d.role))
      ]))
  }

  method BoardMemberDetections(rs: seq<Member>) returns (projects: seq<Project>)
    ensures projects == Emit(rs, BoardProject)
  {
    projects := [];
    for i := 0 to |rs|
      invariant projects == Emit(rs[..i], BoardProject)
    {
      EmitStep(rs, i, BoardProject);
      var r := rs[i];
      if r.data.Malformed? {
        continue;
      }
      var data := r.data.data;
      if data.projectUid == "" {
        continue;
      }
      var extra := BoardExtra(data.committeeUid, data.committeeName, r.id,
                              data.role, data.votingStatus, data.organization);
      projects := projects + [Project(data.projectUid, data.projectSlug, [Detection(BoardMember, extra)])];
    }
    assert rs[..|rs|] == rs;
  }

  method CommitteeMemberDetections(rs: seq<Member>) returns (projects: seq<Project>)
    ensures projects == Emit(rs, CommitteeProject)
  {
    projects := [];
    for i := 0 to |rs|
      invariant projects == Emit(rs[..i], CommitteeProject)
    {
      EmitStep(rs, i, CommitteeProject);
      var r := rs[i];
      if r.data.Malformed? {
        continue;
      }
      var data := r.data.data;
      if data.projectUid == "" {
        continue;
      }
      var extra := CommitteeExtra(data.committeeUid, data.committeeName, r.id, data.role);
      projects := projects + [Project(data.projectUid, data.projectSlug, [Detection(CommitteeMember, extra)])];
    }
    assert rs[..|rs|] == rs;
  }

  /** The Board records become board_member detections, the union of both branches committee_member ones. */
  function BoardAndCommittee(board: seq<Member>, all: seq<Member>): seq<Project> {
    Merge(Emit(board, BoardProject), Emit(FirstById(board + all), CommitteeProject))
  }

  function BoardQuery(q: Replies, username: string, fold: string -> string): Leg<MemberData> {
    DualLeg(q.boardEmail, UsernameLeg(username, q.boardUsername), HasUsername(username, fold))
  }

  function AllQuery(q: Replies, username: string, fold: string -> string): Leg<MemberData> {
    DualLeg(q.allEmail, UsernameLeg(username, q.allUsername), HasUsername(username, fold))
  }

  /** The source never fails: a failed branch counts as no records. */
  method SourceBoardMemberAndCommittee(q: Replies, username: string, fold: string -> string) returns (o: Outcome)
    ensures o == Succeeded(BoardAndCommittee(BoardQuery(q, username, fold).Records(),
                                             AllQuery(q, username, fold).Records()))
    ensures DetectionsExact(q, username, fold, o.projects) && SlugsExact(q, username, fold, o.projects)
  {
    OutcomeExact(q, username, fold);
    var accept := HasUsername(username, fold);
    var board := MergeLegs(q.boardEmail, UsernameLeg(username, q.boardUsername), accept);
    var all := MergeLegs(q.allEmail, UsernameLeg(username, q.allUsername), accept);
    var both := [board.Records(), all.Records()];
    var allMembers := DeduplicateRecords(both);
    ChainPair(board.Records(), all.Records());
    if |allMembers| == 0 {
      NoMembers(board.Records(), all.Records());
      return Succeeded([]);
    }
    var bm := BoardMemberDetections(board.Records());
    var cm := CommitteeMemberDetections(allMembers);
    o := Succeeded(Merge(bm, cm));
  }

  lemma ChainPair(a: seq<Member>, b: seq<Member>)
    ensures Chain([a, b]) == a + b
  {
    assert [a, b][..1] == [a] && [a][..0] == [];
    assert Chain([a]) == [] + a;
  }

  lemma NoMembers(board: seq<Member>, all: seq<Member>)
    requires FirstById(board + all) == []
    ensures BoardAndCommittee(board, all) == []
  {
    FirstByIdPrefix(board, all);
    FirstOfNone(board);
    assert Emit(board, BoardProject) + Emit(FirstById(board + all), CommitteeProject) == [];
  }

  lemma FirstOfNone(rs: seq<Member>)
    ensures FirstById(rs) == [] ==> rs == []
  {
    FirstByIdUnique(rs);
    if rs != [] {
      assert rs[0].id in Ids(rs);
    }
  }

  // ---------- Board implies committee ----------

  /** A Board record with a fresh ID survives the union unchanged, so its committee_member project is emitted. */
  lemma BoardRecordInUnion(board: seq<Member>, all: seq<Member>, i: nat)
    requires forall j, k :: 0 <= j < k < |board| ==> board[j].id != board[k].id
    requires i < |board| && BoardProject(i, board[i]).Some?
    ensures CommitteeProject(i, board[i]).value in Emit(FirstById(board + all), CommitteeProject)
  {
    UniqueIsFirst(board);
    FirstByIdPrefix(board, all);
    var union := FirstById(board + all);
    assert union[i] == board[i];
    EmitInto(union, CommitteeProject, i);
  }

  lemma BoardImpliesCommittee(q: Replies, username: string, fold: string -> string)
    ensures Paired(BoardAndCommittee(BoardQuery(q, username, fold).Records(), AllQuery(q, username, fold).Records()))
  {
    DualLegIds(q.boardEmail, UsernameLeg(username, q.boardUsername), HasUsername(username, fold));
    UniqueBoardPaired(BoardQuery(q, username, fold).Records(), AllQuery(q, username, fold).Records());
  }

  /** It is enough that the Board records have unique IDs; the other branch may be anything. */
  lemma UniqueBoardPaired(board: seq<Member>, all: seq<Member>)
    requires forall j, k :: 0 <= j < k < |board| ==> board[j].id != board[k].id
    ensures Paired(BoardAndCommittee(board, all))
  {
    var bm, cm := Emit(board, BoardProject), Emit(FirstById(board + all), CommitteeProject);
    GroupAlike(bm + cm);
    forall u
      ensures BoardPaired(DetectionsOf(BoardAndCommittee(board, all), u))
    {
      DetectionsOfConcat(bm, cm, u);
      UnionPaired(board, all, u);
    }
  }

  lemma UnionPaired(board: seq<Member>, all: seq<Member>, u: string)
    requires forall j, k :: 0 <= j < k < |board| ==> board[j].id != board[k].id
    ensures BoardPaired(DetectionsOf(Emit(board, BoardProject), u)
                        + DetectionsOf(Emit(FirstById(board + all), CommitteeProject), u))
  {
    var bs := DetectionsOf(Emit(board, BoardProject), u);
    var cs := DetectionsOf(Emit(FirstById(board + all), CommitteeProject), u);
    forall d: Detection | d in bs + cs && d.source == BoardMember
      ensures exists e :: e in bs + cs && SameMembership(d, e)
    {
      if d in cs {
        OnlyCommittee(FirstById(board + all), u, d);
      }
      var e := PartnerDetection(board, all, u, d);
      assert e in bs + cs;
    }
  }

  lemma OnlyCommittee(rs: seq<Member>, u: string, d: Detection)
    requires d in DetectionsOf(Emit(rs, CommitteeProject), u)
    ensures d.source == CommitteeMember
  {
    var k := DetectionOrigin(Emit(rs, CommitteeProject), u, d);
    var i := EmitOrigin(rs, CommitteeProject, k);
  }

  lemma PartnerDetection(board: seq<Member>, all: seq<Member>, u: string, d: Detection) returns (e: Detection)
    requires forall j, k :: 0 <= j < k < |board| ==> board[j].id != board[k].id
    requires d in DetectionsOf(Emit(board, BoardProject), u)
    ensures e in DetectionsOf(Emit(FirstById(board + all), CommitteeProject), u) && SameMembership(d, e)
  {
    var i := BoardOrigin(board, u, d);
    e := PartnerOf(board, all, i);
  }

  lemma BoardOrigin(board: seq<Member>, u: string, d: Detection) returns (i: nat)
    requires d in DetectionsOf(Emit(board, BoardProject), u)
    ensures i < |board| && BoardProject(i, board[i]).Some?
    ensures BoardProject(i, board[i]).value.uid == u && BoardProject(i, board[i]).value.detections == [d]
  {
    var k := DetectionOrigin(Emit(board, BoardProject), u, d);
    i := EmitOrigin(board, BoardProject, k);
  }

  lemma PartnerOf(board: seq<Member>, all: seq<Member>, i: nat) returns (e: Detection)
    requires forall j, k :: 0 <= j < k < |board| ==> board[j].id != board[k].id
    requires i < |board| && BoardProject(i, board[i]).Some?
    ensures var p := BoardProject(i, board[i]).value;
            && e in DetectionsOf(Emit(FirstById(board + all), CommitteeProject), p.uid)
            && SameMembership(p.detections[0], e)
  {
    var cm, p := Emit(FirstById(board + all), CommitteeProject), CommitteeProject(i, board[i]).value;
    BoardRecordInUnion(board, all, i);
    e := p.detections[0];
    var j :| 0 <= j < |cm| && cm[j] == p;
    DetectionsOfHas(cm, p.uid, e);
  }

  lemma CommitteeAttributed(board: seq<Member>, all: seq<Member>)
    ensures Attributed(BoardAndCommittee(board, all))
  {
    var bm, cm := Emit(board, BoardProject), Emit(FirstById(board + all), CommitteeProject);
    EmitAttributed(board, BoardProject);
    EmitAttributed(FirstById(board + all), CommitteeProject);
    GroupWellFormed(bm + cm);
  }

  // ---------- the outcome, told from the replies ----------

  /** The first record of this ID in `us` that decodes with the user's name is `r`, at position `i`. */
  ghost predicate UsersFirst(us: seq<Member>, username: string, fold: string -> string, i: int, r: Member) {
    && 0 <= i < |us| && us[i] == r && r.data.Fields? && fold(r.data.data.username) == fold(username)
    && forall j :: 0 <= j < i && us[j].id == r.id && us[j].data.Fields? ==>
         fold(us[j].data.data.username) != fold(username)
  }

  /**
   The two searches find `r` for the user: it is the email leg's first record with its ID, whoever it
   names, or else the username leg's first that decodes with the user's name.
   */
  ghost predicate Found(email: Leg<MemberData>, reply: Leg<MemberData>, username: string, fold: string -> string,
                        r: Member) {
    || (exists i :: FirstHere(email.Records(), i, r))
    || (username != "" && NoneWith(email.Records(), r.id)
        && exists i :: UsersFirst(reply.Records(), username, fold, i, r))
  }

  ghost predicate OnBoard(q: Replies, username: string, fold: string -> string, r: Member) {
    Found(q.boardEmail, q.boardUsername, username, fold, r)
  }

  /** A member found by the Board searches, or by the other two where no Board record has the ID. */
  ghost predicate OnCommittee(q: Replies, username: string, fold: string -> string, r: Member) {
    || OnBoard(q, username, fold, r)
    || (Found(q.allEmail, q.allUsername, username, fold, r)
        && forall b :: OnBoard(q, username, fold, b) ==> b.id != r.id)
  }

  /** `r` belongs to the project `u`, and `d` is what is reported of it as a Board seat. */
  ghost predicate ReportsSeat(r: Member, u: string, d: Detection) {
    r.data.Fields? && u != "" && r.data.data.projectUid == u &&
    var m := r.data.data;
    d == Detection(BoardMember,
                   BoardExtra(m.committeeUid, m.committeeName, r.id, m.role, m.votingStatus, m.organization))
  }

  ghost predicate ReportsMembership(r: Member, u: string, d: Detection) {
    r.data.Fields? && u != "" && r.data.data.projectUid == u &&
    var m := r.data.data;
    d == Detection(CommitteeMember, CommitteeExtra(m.committeeUid, m.committeeName, r.id, m.role))
  }

  ghost predicate Calls(q: Replies, username: string, fold: string -> string, r: Member, u: string, d: Detection) {
    || (OnBoard(q, username, fold, r) && ReportsSeat(r, u, d))
    || (OnCommittee(q, username, fold, r) && ReportsMembership(r, u, d))
  }

  /** The detections of each project are exactly those that some record found calls for. */
  ghost predicate DetectionsExact(q: Replies, username: string, fold: string -> string, ps: seq<Project>) {
    forall u, d :: d in DetectionsOf(ps, u) <==> exists r :: Calls(q, username, fold, r, u, d)
  }

  /** Each project's slug is that of some record found. */
  ghost predicate SlugsExact(q: Replies, username: string, fold: string -> string, ps: seq<Project>) {
    forall p :: p in ps ==>
      exists r :: OnCommittee(q, username, fold, r) && r.data.Fields? && r.data.data.projectUid == p.uid
                  && r.data.data.projectSlug == p.slug
  }

  lemma QueryFinds(email: Leg<MemberData>, reply: Leg<MemberData>, username: string, fold: string -> string, r: Member)
    ensures r in DualLeg(email, UsernameLeg(username, reply), HasUsername(username, fold)).Records() <==>
            Found(email, reply, username, fold, r)
  {
    DualLegWinners(email, UsernameLeg(username, reply), HasUsername(username, fold), r);
    forall i
      ensures FirstAccepted(reply.Records(), HasUsername(username, fold), i, r) <==>
              UsersFirst(reply.Records(), username, fold, i, r)
    {}
  }

  lemma UnionFinds(q: Replies, username: string, fold: string -> string, r: Member)
    ensures var board, all := BoardQuery(q, username, fold).Records(), AllQuery(q, username, fold).Records();
            r in FirstById(board + all) <==> OnCommittee(q, username, fold, r)
  {
    var board, all := BoardQuery(q, username, fold).Records(), AllQuery(q, username, fold).Records();
    DualLegIds(q.boardEmail, UsernameLeg(username, q.boardUsername), HasUsername(username, fold));
    DualLegIds(q.allEmail, UsernameLeg(username, q.allUsername), HasUsername(username, fold));
    UnionMembers(board, all, r);
    QueryFinds(q.boardEmail, q.boardUsername, username, fold, r);
    QueryFinds(q.allEmail, q.allUsername, username, fold, r);
    forall b
      ensures b in board <==> OnBoard(q, username, fold, b)
    {
      QueryFinds(q.boardEmail, q.boardUsername, username, fold, b);
    }
  }

  lemma UnionMembers(board: seq<Member>, all: seq<Member>, r: Member)
    requires forall j, k :: 0 <= j < k < |board| ==> board[j].id != board[k].id
    requires forall j, k :: 0 <= j < k < |all| ==> all[j].id != all[k].id
    ensures r in FirstById(board + all) <==> r in board || (r in all && forall b :: b in board ==> b.id != r.id)
  {
    KeptIsFirst(board + all, r);
    IdsConcat(board, all);
    UniqueFirstWith(board, r);
    UniqueFirstWith(all, r);
    if r.id in Ids(board + all) {
      FirstWithConcat(board, all, r.id);
    }
  }

  lemma UniqueFirstWith(rs: seq<Member>, r: Member)
    requires forall j, k :: 0 <= j < k < |rs| ==> rs[j].id != rs[k].id
    ensures r in rs <==> r.id in Ids(rs) && FirstWith(rs, r.id) == r
    ensures r.id in Ids(rs) <==> exists b :: b in rs && b.id == r.id
  {
    UniqueIsFirst(rs);
    KeptIsFirst(rs, r);
    if i :| 0 <= i < |rs| && rs[i].id == r.id {
      assert rs[i] in rs;
    }
  }

  lemma OutcomeExact(q: Replies, username: string, fold: string -> string)
    ensures var ps := BoardAndCommittee(BoardQuery(q, username, fold).Records(), AllQuery(q, username, fold).Records());
            DetectionsExact(q, username, fold, ps) && SlugsExact(q, username, fold, ps)
  {
    var board, all := BoardQuery(q, username, fold).Records(), AllQuery(q, username, fold).Records();
    forall u, d
      ensures d in DetectionsOf(BoardAndCommittee(board, all), u) <==> exists r :: Calls(q, username, fold, r, u, d)
    {
      DetectionExact(q, username, fold, u, d);
    }
    forall p | p in BoardAndCommittee(board, all)
      ensures exists r :: OnCommittee(q, username, fold, r) && r.data.Fields? && r.data.data.projectUid == p.uid
                          && r.data.data.projectSlug == p.slug
    {
      var r := SlugRecord(board, all, p);
      UnionFinds(q, username, fold, r);
      QueryFinds(q.boardEmail, q.boardUsername, username, fold, r);
    }
  }

  lemma DetectionExact(q: Replies, username: string, fold: string -> string, u: string, d: Detection)
    ensures var board, all := BoardQuery(q, username, fold).Records(), AllQuery(q, username, fold).Records();
            d in DetectionsOf(BoardAndCommittee(board, all), u) <==> exists r :: Calls(q, username, fold, r, u, d)
  {
    var board, all := BoardQuery(q, username, fold).Records(), AllQuery(q, username, fold).Records();
    UnionReported(board, FirstById(board + all), u, d);
    forall r
      ensures CalledBy(board, FirstById(board + all), r, u, d) <==> Calls(q, username, fold, r, u, d)
    {
      QueryFinds(q.boardEmail, q.boardUsername, username, fold, r);
      UnionFinds(q, username, fold, r);
    }
  }

  ghost predicate CalledBy(board: seq<Member>, union: seq<Member>, r: Member, u: string, d: Detection) {
    (r in board && ReportsSeat(r, u, d)) || (r in union && ReportsMembership(r, u, d))
  }

  lemma UnionReported(board: seq<Member>, union: seq<Member>, u: string, d: Detection)
    ensures d in DetectionsOf(Merge(Emit(board, BoardProject), Emit(union, CommitteeProject)), u) <==>
            exists r :: CalledBy(board, union, r, u, d)
  {
    MergedDetections(Emit(board, BoardProject), Emit(union, CommitteeProject), u, d);
    SeatsReported(board, u, d);
    MembershipsReported(union, u, d);
    if r :| r in board && ReportsSeat(r, u, d) {
      assert CalledBy(board, union, r, u, d);
    }
    if r :| r in union && ReportsMembership(r, u, d) {
      assert CalledBy(board, union, r, u, d);
    }
  }

  lemma MergedDetections(a: seq<Project>, b: seq<Project>, u: string, d: Detection)
    ensures d in DetectionsOf(Merge(a, b), u) <==> d in DetectionsOf(a, u) || d in DetectionsOf(b, u)
  {
    GroupAlike(a + b);
    DetectionsOfConcat(a, b, u);
  }

  lemma SeatsReported(rs: seq<Member>, u: string, d: Detection)
    ensures d in DetectionsOf(Emit(rs, BoardProject), u) <==> exists r :: r in rs && ReportsSeat(r, u, d)
  {
    if d in DetectionsOf(Emit(rs, BoardProject), u) {
      var i := BoardOrigin(rs, u, d);
      assert rs[i] in rs && ReportsSeat(rs[i], u, d);
    }
    if r :| r in rs && ReportsSeat(r, u, d) {
      var i :| 0 <= i < |rs| && rs[i] == r;
      EmitInto(rs, BoardProject, i);
      DetectionsMembers(Emit(rs, BoardProject), u, d);
    }
  }

  lemma MembershipsReported(rs: seq<Member>, u: string, d: Detection)
    ensures d in DetectionsOf(Emit(rs, CommitteeProject), u) <==> exists r :: r in rs && ReportsMembership(r, u, d)
  {
    if d in DetectionsOf(Emit(rs, CommitteeProject), u) {
      var k := DetectionOrigin(Emit(rs, CommitteeProject), u, d);
      var i := EmitOrigin(rs, CommitteeProject, k);
      assert rs[i] in rs && ReportsMembership(rs[i], u, d);
    }
    if r :| r in rs && ReportsMembership(r, u, d) {
      var i :| 0 <= i < |rs| && rs[i] == r;
      EmitInto(rs, CommitteeProject, i);
      DetectionsMembers(Emit(rs, CommitteeProject), u, d);
    }
  }

  lemma SlugRecord(board: seq<Member>, all: seq<Member>, p: Project) returns (r: Member)
    requires p in BoardAndCommittee(board, all)
    ensures r in board || r in FirstById(board + all)
    ensures r.data.Fields? && r.data.data.projectUid == p.uid && r.data.data.projectSlug == p.slug
  {
    var c := MergedSlug(Emit(board, BoardProject), Emit(FirstById(board + all), CommitteeProject), p);
    if c in Emit(board, BoardProject) {
      EmitMembers(board, BoardProject, c);
      var j: nat :| Makes(board, BoardProject, j, c);
      r := board[j];
    } else {
      EmitMembers(FirstById(board + all), CommitteeProject, c);
      var j: nat :| Makes(FirstById(board + all), CommitteeProject, j, c);
      r := FirstById(board + all)[j];
    }
  }

  /** A merged entry has the slug of an entry that contributed to it. */
  lemma MergedSlug(a: seq<Project>, b: seq<Project>, p: Project) returns (c: Project)
    requires p in Merge(a, b)
    ensures (c in a || c in b) && c.uid == p.uid && c.slug == p.slug
  {
    var ps := a + b;
    var i :| 0 <= i < |Group(ps)| && Group(ps)[i] == p;
    assert p.uid == Uids(ps)[i] && p.uid in Uids(ps);
    SlugIsContributed(ps, p.uid);
    var k :| 0 <= k < |ps| && ps[k].uid == p.uid && ps[k].slug == SlugOf(ps, p.uid);
    c := ps[k];
  }
}
