/** The mailing-list, meeting-attendance and executive-director sources. */
module Sources {
  import opened PersonaModel
  import opened Legs
  import opened Emission
  import opened ProjectService

  // ---------- mailing lists ----------

  datatype GroupsIoData = GroupsIoData(
    username: string, email: string, mailingListUid: string, projectUid: string, projectSlug: string)

  function SubscribedAs(username: string, fold: string -> string): Record<GroupsIoData> -> bool {
    (r: Record<GroupsIoData>) => r.data.Fields? && fold(r.data.data.username) == fold(username)
  }

  function MailingListProject(i: nat, r: Record<GroupsIoData>): Option<Project> {
    if r.data.Malformed? || r.data.data.projectUid == "" then None else
      Some(Project(r.data.data.projectUid, r.data.data.projectSlug, [Detection(MailingList, NoExtra)]))
  }

  function MailingListQuery(email: Leg<GroupsIoData>, reply: Leg<GroupsIoData>, username: string,
                            fold: string -> string)
    : Leg<GroupsIoData>
  {
    DualLeg(email, UsernameLeg(username, reply), SubscribedAs(username, fold))
  }

  /** The conversion loop. */
  method MailingListDetections(rs: seq<Record<GroupsIoData>>) returns (projects: seq<Project>)
    ensures projects == Emit(rs, MailingListProject)
  {
    projects := [];
    for i := 0 to |rs|
      invariant projects == Emit(rs[..i], MailingListProject)
    {
      EmitStep(rs, i, MailingListProject);
      var r := rs[i];
      if r.data.Malformed? {
        continue;
      }
      if r.data.data.projectUid == "" {
        continue;
      }
      projects := projects
        + [Project(r.data.data.projectUid, r.data.data.projectSlug, [Detection(MailingList, NoExtra)])];
    }
    assert rs[..|rs|] == rs;
  }

  method SourceMailingList(email: Leg<GroupsIoData>, reply: Leg<GroupsIoData>, username: string, fold: string -> string)
    returns (o: Outcome)
    ensures var q := MailingListQuery(email, reply, username, fold);
            o == if q.LegFailed? then Failed else Succeeded(Emit(q.records, MailingListProject))
    ensures o.Failed? <==> email.LegFailed? && username != "" && reply.LegFailed?
    ensures o.Succeeded? ==> ListsExact(email, reply, username, fold, o.projects)
  {
    MailingListsExact(email, reply, username, fold);
    var merged := MergeLegs(email, UsernameLeg(username, reply), SubscribedAs(username, fold));
    if merged.LegFailed? {
      return Failed;
    }
    var projects := MailingListDetections(merged.records);
    o := Succeeded(projects);
  }

  /** The first record of this ID in `us` that decodes with the user's name is `r`, at position `i`. */
  ghost predicate UsersFirst(us: seq<Record<GroupsIoData>>, username: string, fold: string -> string, i: int,
                             r: Record<GroupsIoData>) {
    && 0 <= i < |us| && us[i] == r && r.data.Fields? && fold(r.data.data.username) == fold(username)
    && forall j :: 0 <= j < i && us[j].id == r.id && us[j].data.Fields? ==>
         fold(us[j].data.data.username) != fold(username)
  }

  /** The email leg's first record with its ID, or else the username leg's first that decodes with the user's name. */
  ghost predicate Subscribed(email: Leg<GroupsIoData>, reply: Leg<GroupsIoData>, username: string,
                             fold: string -> string, r: Record<GroupsIoData>) {
    || (exists i :: FirstHere(email.Records(), i, r))
    || (username != "" && NoneWith(email.Records(), r.id)
        && exists i :: UsersFirst(reply.Records(), username, fold, i, r))
  }

  ghost predicate ReportsList(r: Record<GroupsIoData>, p: Project) {
    r.data.Fields? && p.uid != "" && p.uid == r.data.data.projectUid && p.slug == r.data.data.projectSlug
    && p.detections == [Detection(MailingList, NoExtra)]
  }

  /** The projects are exactly those that the subscriptions found call for. */
  ghost predicate ListsExact(email: Leg<GroupsIoData>, reply: Leg<GroupsIoData>, username: string,
                             fold: string -> string, ps: seq<Project>) {
    forall p :: p in ps <==> exists r :: Subscribed(email, reply, username, fold, r) && ReportsList(r, p)
  }

  lemma MailingListsExact(email: Leg<GroupsIoData>, reply: Leg<GroupsIoData>, username: string, fold: string -> string)
    ensures ListsExact(email, reply, username, fold,
                       Emit(MailingListQuery(email, reply, username, fold).Records(), MailingListProject))
  {
    var rs := MailingListQuery(email, reply, username, fold).Records();
    forall r
      ensures r in rs <==> Subscribed(email, reply, username, fold, r)
    {
      SubscriptionFound(email, reply, username, fold, r);
    }
    forall p
      ensures p in Emit(rs, MailingListProject) <==> exists r :: r in rs && ReportsList(r, p)
    {
      ListsReported(rs, p);
    }
  }

  lemma SubscriptionFound(email: Leg<GroupsIoData>, reply: Leg<GroupsIoData>, username: string, fold: string -> string,
                          r: Record<GroupsIoData>)
    ensures r in MailingListQuery(email, reply, username, fold).Records() <==>
            Subscribed(email, reply, username, fold, r)
  {
    DualLegWinners(email, UsernameLeg(username, reply), SubscribedAs(username, fold), r);
    forall i
      ensures FirstAccepted(reply.Records(), SubscribedAs(username, fold), i, r) <==>
              UsersFirst(reply.Records(), username, fold, i, r)
    {}
  }

  lemma ListsReported(rs: seq<Record<GroupsIoData>>, p: Project)
    ensures p in Emit(rs, MailingListProject) <==> exists r :: r in rs && ReportsList(r, p)
  {
    EmitMembers(rs, MailingListProject, p);
    if i: nat :| Makes(rs, MailingListProject, i, p) {
      assert rs[i] in rs && ReportsList(rs[i], p);
    }
    if r :| r in rs && ReportsList(r, p) {
      var i :| 0 <= i < |rs| && rs[i] == r;
      assert Makes(rs, MailingListProject, i, p);
    }
  }

  // ---------- meeting attendance ----------

  datatype ParticipantData = ParticipantData(
    username: string, email: string, isAttended: bool, isInvited: bool, projectUid: string, projectSlug: string)

  /** Both legs are tag lookups: nothing is filtered, not even malformed records. */
  const ANY_RECORD: Record<ParticipantData> -> bool := _ => true

  function MeetingProject(i: nat, r: Record<ParticipantData>): Option<Project> {
    if r.data.Malformed? || r.data.data.projectUid == "" then None else
      Some(Project(r.data.data.projectUid, r.data.data.projectSlug, [Detection(MeetingAttendance, NoExtra)]))
  }

  function MeetingQuery(email: Leg<ParticipantData>, reply: Leg<ParticipantData>,
                        username: string): Leg<ParticipantData> {
    DualLeg(email, UsernameLeg(username, reply), ANY_RECORD)
  }

  /** The conversion loop. */
  method MeetingDetections(rs: seq<Record<ParticipantData>>) returns (projects: seq<Project>)
    ensures projects == Emit(rs, MeetingProject)
  {
    projects := [];
    for i := 0 to |rs|
      invariant projects == Emit(rs[..i], MeetingProject)
    {
      EmitStep(rs, i, MeetingProject);
      var r := rs[i];
      if r.data.Malformed? {
        continue;
      }
      if r.data.data.projectUid == "" {
        continue;
      }
      projects := projects
        + [Project(r.data.data.projectUid, r.data.data.projectSlug, [Detection(MeetingAttendance, NoExtra)])];
    }
    assert rs[..|rs|] == rs;
  }

  method SourceMeetingAttendance(email: Leg<ParticipantData>, reply: Leg<ParticipantData>, username: string)
    returns (o: Outcome)
    ensures var q := MeetingQuery(email, reply, username);
            o == if q.LegFailed? then Failed else Succeeded(Emit(q.records, MeetingProject))
    ensures o.Failed? <==> email.LegFailed? && username != "" && reply.LegFailed?
    ensures o.Succeeded? ==> AttendanceExact(email, reply, username, o.projects)
  {
    MeetingsExact(email, reply, username);
    var merged := MergeLegs(email, UsernameLeg(username, reply), ANY_RECORD);
    if merged.LegFailed? {
      return Failed;
    }
    var projects := MeetingDetections(merged.records);
    o := Succeeded(projects);
  }

  /** The meeting source keeps the first record of every ID of either leg. */
  lemma MeetingQueryIsPlainUnion(email: Leg<ParticipantData>, reply: Leg<ParticipantData>, username: string)
    requires email.LegOk? || UsernameLeg(username, reply).LegOk?
    ensures MeetingQuery(email, reply, username) ==
            LegOk(FirstById(email.Records() + UsernameLeg(username, reply).Records()))
  {
    NoFilter(UsernameLeg(username, reply).Records(), ANY_RECORD);
  }

  /** The first record with its ID on the email leg or, where that leg has none, on the username leg. */
  ghost predicate Participated(email: Leg<ParticipantData>, reply: Leg<ParticipantData>, username: string,
                               r: Record<ParticipantData>) {
    || (exists i :: FirstHere(email.Records(), i, r))
    || (username != "" && NoneWith(email.Records(), r.id) && exists i :: FirstHere(reply.Records(), i, r))
  }

  ghost predicate ReportsMeeting(r: Record<ParticipantData>, p: Project) {
    r.data.Fields? && p.uid != "" && p.uid == r.data.data.projectUid && p.slug == r.data.data.projectSlug
    && p.detections == [Detection(MeetingAttendance, NoExtra)]
  }

  /** The projects are exactly those that the participations found call for. */
  ghost predicate AttendanceExact(email: Leg<ParticipantData>, reply: Leg<ParticipantData>, username: string,
                                  ps: seq<Project>) {
    forall p :: p in ps <==> exists r :: Participated(email, reply, username, r) && ReportsMeeting(r, p)
  }

  lemma MeetingsExact(email: Leg<ParticipantData>, reply: Leg<ParticipantData>, username: string)
    ensures AttendanceExact(email, reply, username,
                            Emit(MeetingQuery(email, reply, username).Records(), MeetingProject))
  {
    var rs := MeetingQuery(email, reply, username).Records();
    forall r
      ensures r in rs <==> Participated(email, reply, username, r)
    {
      ParticipationFound(email, reply, username, r);
    }
    forall p
      ensures p in Emit(rs, MeetingProject) <==> exists r :: r in rs && ReportsMeeting(r, p)
    {
      MeetingsReported(rs, p);
    }
  }

  lemma ParticipationFound(email: Leg<ParticipantData>, reply: Leg<ParticipantData>, username: string,
                           r: Record<ParticipantData>)
    ensures r in MeetingQuery(email, reply, username).Records() <==> Participated(email, reply, username, r)
  {
    DualLegWinners(email, UsernameLeg(username, reply), ANY_RECORD, r);
    forall i
      ensures FirstAccepted(reply.Records(), ANY_RECORD, i, r) <==> FirstHere(reply.Records(), i, r)
    {}
  }

  lemma MeetingsReported(rs: seq<Record<ParticipantData>>, p: Project)
    ensures p in Emit(rs, MeetingProject) <==> exists r :: r in rs && ReportsMeeting(r, p)
  {
    EmitMembers(rs, MeetingProject, p);
    if i: nat :| Makes(rs, MeetingProject, i, p) {
      assert rs[i] in rs && ReportsMeeting(rs[i], p);
    }
    if r :| r in rs && ReportsMeeting(r, p) {
      var i :| 0 <= i < |rs| && rs[i] == r;
      assert Makes(rs, MeetingProject, i, p);
    }
  }

  // ---------- executive director ----------

  datatype EdData = EdData(uid: string, directorUsername: string)

  /** What the i-th record becomes, given the reply to the slug lookup made for it. */
  function EdProject(username: string, fold: string -> string, connected: bool, replies: nat -> Reply,
                     trim: string -> string)
    : (nat, Record<EdData>) -> Option<Project>
  {
    (i: nat, r: Record<EdData>) =>
      if r.data.Malformed? || fold(r.data.data.directorUsername) != fold(username) || r.data.data.uid == "" then None
      else Some(Project(r.data.data.uid,
                        ResolveProjectSlug(connected, replies(i), trim), [Detection(ExecutiveDirector, NoExtra)]))
  }

  /** The body of the loop, for the i-th record. */
  method EdDetection(i: nat, r: Record<EdData>, username: string, fold: string -> string,
                     connected: bool, replies: nat -> Reply, trim: string -> string)
    returns (p: Option<Project>)
    ensures p == EdProject(username, fold, connected, replies, trim)(i, r)
  {
    if r.data.Malformed? {
      return None;
    }
    if fold(r.data.data.directorUsername) != fold(username) {
      return None;
    }
    var projectUid := r.data.data.uid;
    if projectUid == "" {
      return None;
    }
    var slug := ResolveProjectSlug(connected, replies(i), trim);
    p := Some(Project(projectUid, slug, [Detection(ExecutiveDirector, NoExtra)]));
  }

  /** The loop over the records. */
  method DirectorDetections(rs: seq<Record<EdData>>, username: string, fold: string -> string, connected: bool,
                            replies: nat -> Reply, trim: string -> string)
    returns (projects: seq<Project>)
    ensures projects == Emit(rs, EdProject(username, fold, connected, replies, trim))
  {
    ghost var f := EdProject(username, fold, connected, replies, trim);
    projects := [];
    for i := 0 to |rs|
      invariant projects == Emit(rs[..i], f)
    {
      EmitStep(rs, i, f);
      var p := EdDetection(i, rs[i], username, fold, connected, replies, trim);
      if p.Some? {
        projects := projects + [p.value];
      }
    }
    assert rs[..|rs|] == rs;
  }

  method SourceExecutiveDirector(leg: Leg<EdData>, username: string, fold: string -> string,
                                 connected: bool, replies: nat -> Reply, trim: string -> string)
    returns (o: Outcome)
    ensures o == if username == "" then Succeeded([])
                 else if leg.LegFailed? then Failed
                 else Succeeded(Emit(leg.records, EdProject(username, fold, connected, replies, trim)))
    ensures o.Succeeded? ==>
      if username == "" then o.projects == []
      else DirectorshipsExact(leg.Records(), username, fold, connected, replies, trim, o.projects)
  {
    DirectorsExact(leg, username, fold, connected, replies, trim);
    if username == "" {
      return Succeeded([]);
    }
    if leg.LegFailed? {
      return Failed;
    }
    var projects := DirectorDetections(leg.records, username, fold, connected, replies, trim);
    o := Succeeded(projects);
  }

  /** The i-th record names the user as director of the project `p`, whose slug the project service may have given. */
  ghost predicate Directs(rs: seq<Record<EdData>>, i: nat, username: string, fold: string -> string, connected: bool,
                          replies: nat -> Reply, trim: string -> string, p: Project) {
    && i < |rs| && rs[i].data.Fields? && fold(rs[i].data.data.directorUsername) == fold(username)
    && p.uid != "" && p.uid == rs[i].data.data.uid && p.detections == [Detection(ExecutiveDirector, NoExtra)]
    && (if p.slug != "" then connected && Gives(replies(i), trim, p.slug)
        else !connected || forall answer :: !Gives(replies(i), trim, answer))
  }

  /** The projects are exactly those that the records call for. */
  ghost predicate DirectorshipsExact(rs: seq<Record<EdData>>, username: string, fold: string -> string,
                                     connected: bool, replies: nat -> Reply, trim: string -> string, ps: seq<Project>) {
    forall p :: p in ps <==> exists i: nat :: Directs(rs, i, username, fold, connected, replies, trim, p)
  }

  lemma DirectorsExact(leg: Leg<EdData>, username: string, fold: string -> string, connected: bool,
                       replies: nat -> Reply, trim: string -> string)
    ensures DirectorshipsExact(leg.Records(), username, fold, connected, replies, trim,
                               Emit(leg.Records(), EdProject(username, fold, connected, replies, trim)))
  {
    var f := EdProject(username, fold, connected, replies, trim);
    forall p
      ensures p in Emit(leg.Records(), f) <==>
              exists i: nat :: Directs(leg.Records(), i, username, fold, connected, replies, trim, p)
    {
      EmitMembers(leg.Records(), f, p);
      forall i: nat
        ensures Makes(leg.Records(), f, i, p) <==>
                Directs(leg.Records(), i, username, fold, connected, replies, trim, p)
      {
        DirectsExact(leg.Records(), i, username, fold, connected, replies, trim, p);
      }
    }
  }

  lemma DirectsExact(rs: seq<Record<EdData>>, i: nat, username: string, fold: string -> string, connected: bool,
                     replies: nat -> Reply, trim: string -> string, p: Project)
    ensures Makes(rs, EdProject(username, fold, connected, replies, trim), i, p) <==>
            Directs(rs, i, username, fold, connected, replies, trim, p)
  {
    SlugExact(connected, replies(i), trim);
  }
}
