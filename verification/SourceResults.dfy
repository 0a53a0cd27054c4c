/** What each source sends, as a function of the replies of its upstreams, and what that guarantees. */
module SourceResults {
  import opened PersonaModel
  import opened Grouping
  import opened Legs
  import opened Emission
  import opened ProjectService
  import opened Counts
  import Committee
  import Sources
  import CdpSlugs
  import CdpCache
  import CacheSystem
  import CdpFlow

  datatype Kind =
    | BoardAndCommitteeSource
    | DirectorSource
    | WriterAuditorSource
    | MailingListSource
    | MeetingSource
    | CdpSource

  /** The text functions and the connection that a request is handled with. */
  datatype Setting = Setting(username: string, fold: string -> string, trim: string -> string, connected: bool)

  /**
   Everything that the upstreams reply while one request is handled. `cdp` is what the first two
   steps of the CDP source end with; the slug lookups are answered per record, per ID and per slug.
   */
  datatype Upstreams = Upstreams(
    committee: Committee.Replies,
    directors: Leg<Sources.EdData>,
    directorSlugs: nat -> Reply,
    writers: Leg<WriterAuditor.ProjectData>,
    auditors: Leg<WriterAuditor.ProjectData>,
    settingsSlugs: string -> Reply,
    listEmail: Leg<Sources.GroupsIoData>,
    listUsername: Leg<Sources.GroupsIoData>,
    meetingEmail: Leg<Sources.ParticipantData>,
    meetingUsername: Leg<Sources.ParticipantData>,
    cdp: CacheSystem.Result,
    cdpSlugs: string -> Reply)
  {
    function BoardRecords(t: Setting): seq<Committee.Member> {
      Committee.BoardQuery(committee, t.username, t.fold).Records()
    }

    function AllRecords(t: Setting): seq<Committee.Member> {
      Committee.AllQuery(committee, t.username, t.fold).Records()
    }

    /** The writers-leg records that the source accepts. */
    function WriterHits(t: Setting): seq<WriterAuditor.Settings> {
      Filter(writers.Records(), WriterAuditor.IsWriter(t.username, t.fold))
    }

    function AuditorHits(t: Setting): seq<WriterAuditor.Settings> {
      Filter(auditors.Records(), WriterAuditor.IsAuditor(t.username, t.fold))
    }

    /** The slug found for a settings record with this ID. */
    function SettingsSlugs(t: Setting): string -> string {
      (id: string) => ResolveProjectSlug(t.connected, settingsSlugs(id), t.trim)
    }

    function DirectorProject(t: Setting): (nat, Record<Sources.EdData>) -> Option<Project> {
      Sources.EdProject(t.username, t.fold, t.connected, directorSlugs, t.trim)
    }

    function MailingLists(t: Setting): Leg<Sources.GroupsIoData> {
      Sources.MailingListQuery(listEmail, listUsername, t.username, t.fold)
    }

    function Meetings(t: Setting): Leg<Sources.ParticipantData> {
      Sources.MeetingQuery(meetingEmail, meetingUsername, t.username)
    }

    function AffiliationProject(t: Setting, affs: seq<CdpSlugs.Affiliation>)
      : (nat, CdpSlugs.Affiliation) -> Option<Project>
    {
      CdpSlugs.AffiliationProject(CdpSlugs.SlugMap(t.connected, affs, cdpSlugs, t.trim))
    }
  }

  /** A query's records converted in order, or its failure. */
  function OutcomeOf<D>(leg: Leg<D>, f: (nat, Record<D>) -> Option<Project>): Outcome {
    if leg.LegFailed? then Failed else Succeeded(Emit(leg.records, f))
  }

  /** The source of kind `k` may send `o` when the upstreams reply `up`. Only the map order of one source is open. */
  ghost predicate MaySend(k: Kind, t: Setting, up: Upstreams, o: Outcome) {
    match k
    case BoardAndCommitteeSource => o == Succeeded(Committee.BoardAndCommittee(up.BoardRecords(t), up.AllRecords(t)))
    case DirectorSource =>
      o == if t.username == "" then Succeeded([]) else OutcomeOf(up.directors, up.DirectorProject(t))
    case WriterAuditorSource => WriterAuditorMaySend(t, up, o)
    case MailingListSource => o == OutcomeOf(up.MailingLists(t), Sources.MailingListProject)
    case MeetingSource => o == OutcomeOf(up.Meetings(t), Sources.MeetingProject)
    case CdpSource => o == CdpFlow.Converted(up.cdp, t.connected, up.cdpSlugs, t.trim)
  }

  ghost predicate WriterAuditorMaySend(t: Setting, up: Upstreams, o: Outcome) {
    if t.username == "" then o == Succeeded([])
    else if up.writers.LegFailed? && up.auditors.LegFailed? then o == Failed
    else exists order :: WalkSends(t, up, order, o)
  }

  ghost predicate WalkSends(t: Setting, up: Upstreams, order: seq<string>, o: Outcome) {
    var ws, aus := up.WriterHits(t), up.AuditorHits(t);
    && WriterAuditor.OrderOf(order, Ids(ws + aus))
    && o == Succeeded(Emit(order, WriterAuditor.MatchProject(ws, aus, up.SettingsSlugs(t))))
  }

  // ---------- the sources keep to it ----------

  /** The five Query Service sources. */
  method RunQuerySource(k: Kind, t: Setting, up: Upstreams) returns (o: Outcome)
    requires k != CdpSource
    ensures MaySend(k, t, up, o)
  {
    match k {
      case BoardAndCommitteeSource =>
        o := Committee.SourceBoardMemberAndCommittee(up.committee, t.username, t.fold);
      case DirectorSource =>
        o := Sources.SourceExecutiveDirector(up.directors, t.username, t.fold, t.connected, up.directorSlugs, t.trim);
      case WriterAuditorSource =>
        ghost var order;
        o, order := WriterAuditor.SourceWriterAuditor(up.writers, up.auditors, t.username, t.fold, up.SettingsSlugs(t));
        assert t.username != "" && !(up.writers.LegFailed? && up.auditors.LegFailed?) ==> WalkSends(t, up, order, o);
      case MailingListSource =>
        o := Sources.SourceMailingList(up.listEmail, up.listUsername, t.username, t.fold);
      case MeetingSource =>
        o := Sources.SourceMeetingAttendance(up.meetingEmail, up.meetingUsername, t.username);
    }
  }

  /** The CDP source, begun in the state `s0` of the cache's world, while the rest of it does `gaps`. */
  method RunCdpSource(t: Setting, email: string, up: Upstreams, cache: CdpCache.Cache, v: CacheSystem.Env,
                      s0: CacheSystem.State, gaps: CdpFlow.Gaps, f: CdpFlow.Faults, ghost acts: seq<CacheSystem.Action>)
    returns (o: Outcome, ghost result: CacheSystem.Result, ghost run: seq<CacheSystem.Action>)
    requires CdpFlow.Serves(cache, v) && cache.store == s0.store
    requires CacheSystem.IsRun(v, acts) && CacheSystem.After(v, acts) == s0
    modifies cache`store
    ensures MaySend(CdpSource, t, up.(cdp := result), o)
    ensures acts <= run && CdpFlow.EndedWith(v, run, |s0.requests|, t.username, email, s0.now, result)
  {
    var ended, s;
    o, ended, s, run :=
      CdpFlow.SourceCdpRoles(cache, v, s0, t.username, email, gaps, f, t.connected, up.cdpSlugs, t.trim, acts);
    result := ended;
  }

  // ---------- what they guarantee ----------

  lemma CommitteeLawful(t: Setting, up: Upstreams)
    ensures Lawful(Committee.BoardAndCommittee(up.BoardRecords(t), up.AllRecords(t)))
  {
    Committee.BoardImpliesCommittee(up.committee, t.username, t.fold);
    Committee.CommitteeAttributed(up.BoardRecords(t), up.AllRecords(t));
  }

  lemma DirectorLawful(t: Setting, up: Upstreams, rs: seq<Record<Sources.EdData>>)
    ensures Lawful(Emit(rs, up.DirectorProject(t)))
  {
    EmitLawful(rs, up.DirectorProject(t));
  }

  lemma MailingListLawful(rs: seq<Record<Sources.GroupsIoData>>)
    ensures Lawful(Emit(rs, Sources.MailingListProject))
  {
    EmitLawful(rs, Sources.MailingListProject);
  }

  lemma MeetingLawful(rs: seq<Record<Sources.ParticipantData>>)
    ensures Lawful(Emit(rs, Sources.MeetingProject))
  {
    EmitLawful(rs, Sources.MeetingProject);
  }

  lemma WriterAuditorLawful(t: Setting, up: Upstreams, o: Outcome)
    requires WriterAuditorMaySend(t, up, o) && o.Succeeded? && o.projects != []
    ensures Lawful(o.projects)
  {
    var order :| WalkSends(t, up, order, o);
    WriterAuditor.WriterAuditorLawful(up.WriterHits(t), up.AuditorHits(t), up.SettingsSlugs(t), order);
  }

  lemma CdpSourceLawful(t: Setting, up: Upstreams)
    requires up.cdp.Answer?
    ensures Lawful(CdpSlugs.CdpProjects(t.connected, up.cdp.affiliations, up.cdpSlugs, t.trim))
  {
    CdpSlugs.CdpLawful(t.connected, up.cdp.affiliations, up.cdpSlugs, t.trim);
  }

  /** Attributed entries, and every Board seat paired with its membership. */
  lemma SourceResultsLawful(k: Kind, t: Setting, up: Upstreams, o: Outcome)
    requires MaySend(k, t, up, o) && o.Succeeded? && o.projects != []
    ensures Lawful(o.projects)
  {
    match k
    case BoardAndCommitteeSource => CommitteeLawful(t, up);
    case DirectorSource => DirectorLawful(t, up, up.directors.records);
    case WriterAuditorSource => WriterAuditorLawful(t, up, o);
    case MailingListSource => MailingListLawful(up.MailingLists(t).records);
    case MeetingSource => MeetingLawful(up.Meetings(t).records);
    case CdpSource => CdpSourceLawful(t, up);
  }

  /** The same failure, or the same projects up to order. */
  ghost predicate SameUpToOrder(a: Outcome, b: Outcome) {
    (a.Failed? && b.Failed?) || (a.Succeeded? && b.Succeeded? && multiset(a.projects) == multiset(b.projects))
  }

  /** The same replies give the same outcome up to order, whichever way the map was walked. */
  lemma SameRepliesSameOutcome(k: Kind, t: Setting, up: Upstreams, a: Outcome, b: Outcome)
    requires MaySend(k, t, up, a) && MaySend(k, t, up, b)
    ensures SameUpToOrder(a, b)
  {
    if k.WriterAuditorSource? && t.username != "" && !(up.writers.LegFailed? && up.auditors.LegFailed?) {
      var o1 :| WalkSends(t, up, o1, a);
      var o2 :| WalkSends(t, up, o2, b);
      WriterAuditor.WriterAuditorOrderIndependent(up.WriterHits(t), up.AuditorHits(t), up.SettingsSlugs(t), o1, o2);
    }
  }

  // ---------- which detections each source sends, told from the raw replies ----------

  /** The upstream replies call for the project `p` of a source that makes one project per record. */
  ghost predicate CallsForProject(k: Kind, t: Setting, up: Upstreams, p: Project) {
    match k
    case DirectorSource =>
      t.username != "" && exists i: nat ::
        Sources.Directs(up.directors.Records(), i, t.username, t.fold, t.connected, up.directorSlugs, t.trim, p)
    case MailingListSource =>
      exists r :: Sources.Subscribed(up.listEmail, up.listUsername, t.username, t.fold, r) && Sources.ReportsList(r, p)
    case MeetingSource =>
      exists r :: Sources.Participated(up.meetingEmail, up.meetingUsername, t.username, r)
                  && Sources.ReportsMeeting(r, p)
    case CdpSource =>
      t.connected && up.cdp.Answer? && exists i: nat ::
        i < |up.cdp.affiliations| && CdpSlugs.ReportsAffiliation(up.cdp.affiliations[i], up.cdpSlugs, t.trim, p)
    case _ => false
  }

  /** The upstream replies call for the detection `d` on the project `u` by the source of kind `k`. */
  ghost predicate CallsFor(k: Kind, t: Setting, up: Upstreams, u: string, d: Detection) {
    match k
    case BoardAndCommitteeSource => exists r :: Committee.Calls(up.committee, t.username, t.fold, r, u, d)
    case WriterAuditorSource =>
      t.username != "" && exists r ::
        WriterAuditor.Stands(up.writers.Records(), up.auditors.Records(), t.username, t.fold, r)
        && WriterAuditor.Reports(up.writers.Records(), up.auditors.Records(), t.username, t.fold, r, u, d)
    case _ => exists p :: CallsForProject(k, t, up, p) && p.uid == u && d in p.detections
  }

  lemma ProjectsExact(k: Kind, t: Setting, up: Upstreams, o: Outcome, p: Project)
    requires MaySend(k, t, up, o) && o.Succeeded? && !k.BoardAndCommitteeSource? && !k.WriterAuditorSource?
    ensures p in o.projects <==> CallsForProject(k, t, up, p)
  {
    match k
    case DirectorSource =>
      Sources.DirectorsExact(up.directors, t.username, t.fold, t.connected, up.directorSlugs, t.trim);
    case MailingListSource => Sources.MailingListsExact(up.listEmail, up.listUsername, t.username, t.fold);
    case MeetingSource => Sources.MeetingsExact(up.meetingEmail, up.meetingUsername, t.username);
    case CdpSource => CdpSlugs.CdpProjectsExact(t.connected, up.cdp.affiliations, up.cdpSlugs, t.trim, p);
  }

  /** A successful source sends exactly the detections that the upstream replies call for. */
  lemma DetectionsExact(k: Kind, t: Setting, up: Upstreams, o: Outcome, u: string, d: Detection)
    requires MaySend(k, t, up, o) && o.Succeeded?
    ensures d in DetectionsOf(o.projects, u) <==> CallsFor(k, t, up, u, d)
  {
    match k
    case BoardAndCommitteeSource => CommitteeExact(t, up, u, d);
    case WriterAuditorSource => WriterAuditorExact(t, up, o, u, d);
    case _ => ProjectsGiveDetections(k, t, up, o, u, d);
  }

  lemma ProjectsGiveDetections(k: Kind, t: Setting, up: Upstreams, o: Outcome, u: string, d: Detection)
    requires MaySend(k, t, up, o) && o.Succeeded? && !k.BoardAndCommitteeSource? && !k.WriterAuditorSource?
    ensures d in DetectionsOf(o.projects, u) <==>
            exists p :: CallsForProject(k, t, up, p) && p.uid == u && d in p.detections
  {
    DetectionsMembers(o.projects, u, d);
    forall p
      ensures p in o.projects <==> CallsForProject(k, t, up, p)
    {
      ProjectsExact(k, t, up, o, p);
    }
  }

  lemma CommitteeExact(t: Setting, up: Upstreams, u: string, d: Detection)
    ensures d in DetectionsOf(Committee.BoardAndCommittee(up.BoardRecords(t), up.AllRecords(t)), u) <==>
            exists r :: Committee.Calls(up.committee, t.username, t.fold, r, u, d)
  {
    Committee.DetectionExact(up.committee, t.username, t.fold, u, d);
  }

  lemma WriterAuditorExact(t: Setting, up: Upstreams, o: Outcome, u: string, d: Detection)
    requires WriterAuditorMaySend(t, up, o) && o.Succeeded?
    ensures d in DetectionsOf(o.projects, u) <==> CallsFor(WriterAuditorSource, t, up, u, d)
  {
    if t.username != "" {
      var order :| WalkSends(t, up, order, o);
      WalkedExact(t, up, order, o);
    }
  }

  lemma WalkedExact(t: Setting, up: Upstreams, order: seq<string>, o: Outcome)
    requires WalkSends(t, up, order, o)
    ensures WriterAuditor.HitsExact(up.writers.Records(), up.auditors.Records(), t.username, t.fold, o.projects)
  {
    WriterAuditor.WalkExact(up.writers.Records(), up.auditors.Records(), t.username, t.fold, up.SettingsSlugs(t),
                            order);
  }

  // ---------- how many detections each source sends ----------

  function KindOf(token: Source): Kind {
    match token
    case BoardMember => BoardAndCommitteeSource
    case CommitteeMember => BoardAndCommitteeSource
    case ExecutiveDirector => DirectorSource
    case Writer => WriterAuditorSource
    case Auditor => WriterAuditorSource
    case MailingList => MailingListSource
    case MeetingAttendance => MeetingSource
    case CdpRoles => CdpSource
  }

  /** The upstream records that call for a detection with this token on the project `u`. */
  function Expected(token: Source, t: Setting, up: Upstreams, u: string): nat {
    match token
    case BoardMember => HowMany(up.BoardRecords(t), Committee.BoardProject, u)
    case CommitteeMember => HowMany(FirstById(up.BoardRecords(t) + up.AllRecords(t)), Committee.CommitteeProject, u)
    case ExecutiveDirector => if t.username == "" then 0 else HowMany(up.directors.Records(), up.DirectorProject(t), u)
    case Writer => if t.username == "" then 0 else HitCount(up.WriterHits(t), up.AuditorHits(t), u, Writer)
    case Auditor => if t.username == "" then 0 else HitCount(up.WriterHits(t), up.AuditorHits(t), u, Auditor)
    case MailingList => HowMany(up.MailingLists(t).Records(), Sources.MailingListProject, u)
    case MeetingAttendance => HowMany(up.Meetings(t).Records(), Sources.MeetingProject, u)
    case CdpRoles =>
      match up.cdp case Error => 0 case Answer(affs) => HowMany(affs, up.AffiliationProject(t, affs), u)
  }

  /** What the source of kind `k` adds to that. */
  function Share(k: Kind, token: Source, t: Setting, up: Upstreams, u: string): nat {
    if KindOf(token) == k then Expected(token, t, up, u) else 0
  }

  lemma CommitteeCounts(t: Setting, up: Upstreams, u: string, token: Source)
    ensures Count(DetectionsOf(Committee.BoardAndCommittee(up.BoardRecords(t), up.AllRecords(t)), u), token)
            == Share(BoardAndCommitteeSource, token, t, up, u)
  {
    UnionCounts(up.BoardRecords(t), FirstById(up.BoardRecords(t) + up.AllRecords(t)), u, token);
  }

  lemma UnionCounts(board: seq<Committee.Member>, union: seq<Committee.Member>, u: string, token: Source)
    ensures var merged := Merge(Emit(board, Committee.BoardProject), Emit(union, Committee.CommitteeProject));
            Count(DetectionsOf(merged, u), token) ==
               match token
               case BoardMember => HowMany(board, Committee.BoardProject, u)
               case CommitteeMember => HowMany(union, Committee.CommitteeProject, u)
               case _ => 0
  {
    BoardCounts(board, u, token);
    MembershipCounts(union, u, token);
    MergedCount(Emit(board, Committee.BoardProject), Emit(union, Committee.CommitteeProject), u, token);
  }

  lemma MergedCount(a: seq<Project>, b: seq<Project>, u: string, token: Source)
    ensures Count(DetectionsOf(Merge(a, b), u), token) ==
            Count(DetectionsOf(a, u), token) + Count(DetectionsOf(b, u), token)
  {
    GroupAlike(a + b);
    DetectionsOfConcat(a, b, u);
    CountConcat(DetectionsOf(a, u), DetectionsOf(b, u), token);
  }

  lemma BoardCounts(rs: seq<Committee.Member>, u: string, token: Source)
    ensures Count(DetectionsOf(Emit(rs, Committee.BoardProject), u), token) ==
            if token == BoardMember then HowMany(rs, Committee.BoardProject, u) else 0
  {
    OnePerRecord(rs, Committee.BoardProject, BoardMember, u, token);
  }

  lemma MembershipCounts(rs: seq<Committee.Member>, u: string, token: Source)
    ensures Count(DetectionsOf(Emit(rs, Committee.CommitteeProject), u), token) ==
            if token == CommitteeMember then HowMany(rs, Committee.CommitteeProject, u) else 0
  {
    OnePerRecord(rs, Committee.CommitteeProject, CommitteeMember, u, token);
  }

  lemma DirectorCounts(t: Setting, up: Upstreams, o: Outcome, u: string, token: Source)
    requires MaySend(DirectorSource, t, up, o) && o.Succeeded?
    ensures Count(DetectionsOf(o.projects, u), token) == Share(DirectorSource, token, t, up, u)
  {
    if t.username != "" {
      OnePerRecord(up.directors.records, up.DirectorProject(t), ExecutiveDirector, u, token);
    }
  }

  lemma WriterAuditorCounts(t: Setting, up: Upstreams, o: Outcome, u: string, token: Source)
    requires WriterAuditorMaySend(t, up, o) && o.Succeeded?
    ensures Count(DetectionsOf(o.projects, u), token) == Share(WriterAuditorSource, token, t, up, u)
  {
    if t.username != "" {
      var order :| WalkSends(t, up, order, o);
      var ws, aus := up.WriterHits(t), up.AuditorHits(t);
      OnePerHit(ws, aus, up.SettingsSlugs(t), order, u, token);
      HitShare(t, up, ws, aus, u, token);
    }
  }

  lemma HitShare(t: Setting, up: Upstreams, ws: seq<WriterAuditor.Settings>, aus: seq<WriterAuditor.Settings>,
                 u: string, token: Source)
    requires ws == up.WriterHits(t) && aus == up.AuditorHits(t) && t.username != ""
    ensures Share(WriterAuditorSource, token, t, up, u) == HitCount(ws, aus, u, token)
  {}

  lemma MailingListShare(t: Setting, up: Upstreams, rs: seq<Record<Sources.GroupsIoData>>, u: string, token: Source)
    requires up.MailingLists(t) == LegOk(rs)
    ensures Share(MailingListSource, token, t, up, u) ==
            if token == MailingList then HowMany(rs, Sources.MailingListProject, u) else 0
  {}

  lemma SubscriptionCounts(rs: seq<Record<Sources.GroupsIoData>>, u: string, token: Source)
    ensures Count(DetectionsOf(Emit(rs, Sources.MailingListProject), u), token) ==
            if token == MailingList then HowMany(rs, Sources.MailingListProject, u) else 0
  {
    OnePerRecord(rs, Sources.MailingListProject, MailingList, u, token);
  }

  lemma MeetingShare(t: Setting, up: Upstreams, rs: seq<Record<Sources.ParticipantData>>, u: string, token: Source)
    requires up.Meetings(t) == LegOk(rs)
    ensures Share(MeetingSource, token, t, up, u) ==
            if token == MeetingAttendance then HowMany(rs, Sources.MeetingProject, u) else 0
  {}

  lemma AttendanceCounts(rs: seq<Record<Sources.ParticipantData>>, u: string, token: Source)
    ensures Count(DetectionsOf(Emit(rs, Sources.MeetingProject), u), token) ==
            if token == MeetingAttendance then HowMany(rs, Sources.MeetingProject, u) else 0
  {
    OnePerRecord(rs, Sources.MeetingProject, MeetingAttendance, u, token);
  }

  lemma CdpCounts(t: Setting, up: Upstreams, affs: seq<CdpSlugs.Affiliation>, u: string, token: Source)
    requires up.cdp == CacheSystem.Answer(affs)
    ensures Count(DetectionsOf(CdpSlugs.CdpProjects(t.connected, affs, up.cdpSlugs, t.trim), u), token)
            == Share(CdpSource, token, t, up, u)
  {
    AffiliationCounts(t, up, affs, u, token);
  }

  lemma AffiliationCounts(t: Setting, up: Upstreams, affs: seq<CdpSlugs.Affiliation>, u: string, token: Source)
    ensures Count(DetectionsOf(Emit(affs, up.AffiliationProject(t, affs)), u), token) ==
            if token == CdpRoles then HowMany(affs, up.AffiliationProject(t, affs), u) else 0
  {
    OnePerRecord(affs, up.AffiliationProject(t, affs), CdpRoles, u, token);
  }

  /** A successful source gives each project one detection for every record that calls for one, and no other. */
  lemma SourceCounts(k: Kind, t: Setting, up: Upstreams, o: Outcome, u: string, token: Source)
    requires MaySend(k, t, up, o) && o.Succeeded?
    ensures Count(DetectionsOf(o.projects, u), token) == Share(k, token, t, up, u)
  {
    match k
    case BoardAndCommitteeSource => CommitteeCounts(t, up, u, token);
    case DirectorSource => DirectorCounts(t, up, o, u, token);
    case WriterAuditorSource => WriterAuditorCounts(t, up, o, u, token);
    case MailingListSource =>
      SubscriptionCounts(up.MailingLists(t).records, u, token);
      MailingListShare(t, up, up.MailingLists(t).records, u, token);
    case MeetingSource =>
      AttendanceCounts(up.Meetings(t).records, u, token);
      MeetingShare(t, up, up.Meetings(t).records, u, token);
    case CdpSource => CdpCounts(t, up, up.cdp.affiliations, u, token);
  }

  /** So one source may give a project several detections: two meetings of one project give two. */
  lemma TwoMeetingsTwoDetections(rs: seq<Record<Sources.ParticipantData>>, u: string)
    requires |rs| == 2 && rs[0].id != rs[1].id && u != ""
    requires forall i: nat :: i < 2 ==> rs[i].data.Fields? && rs[i].data.data.projectUid == u
    ensures var records := Sources.MeetingQuery(LegOk(rs), LegOk([]), "").Records();
            Count(DetectionsOf(Emit(records, Sources.MeetingProject), u), MeetingAttendance) == 2
  {
    TwoRecords(rs);
    AttendanceCounts(rs, u, MeetingAttendance);
    TwoMakers(rs, Sources.MeetingProject, u);
  }

  lemma TwoRecords(rs: seq<Record<Sources.ParticipantData>>)
    requires |rs| == 2 && rs[0].id != rs[1].id
    ensures Sources.MeetingQuery(LegOk(rs), LegOk([]), "").Records() == rs
  {
    UniqueIsFirst(rs);
    assert rs + [] == rs;
  }

  lemma TwoMakers<T>(s: seq<T>, f: (nat, T) -> Option<Project>, u: string)
    requires |s| == 2
    requires forall i: nat :: i < 2 ==> f(i, s[i]).Some? && f(i, s[i]).value.uid == u
    ensures HowMany(s, f, u) == 2
  {
    assert Makers(s, f, u) == {0, 1};
  }
}
