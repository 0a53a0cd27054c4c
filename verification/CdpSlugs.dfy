/** From CDP affiliations to projects: resolving slugs in parallel, then converting. */
module CdpSlugs {
  import opened PersonaModel
  import opened Bags
  import opened Emission
  import opened ProjectService

  datatype AffiliationRole = AffiliationRole(
    id: string, role: string, startDate: string, endDate: Option<string>, repoUrl: string, repoFileUrl: string)

  /** The fields of a CDP project affiliation that the handler reads. */
  datatype Affiliation = Affiliation(projectSlug: string, contributionCount: int, roles: seq<AffiliationRole>)

  const NONLF_PREFIX := "nonlf_"

  /** Slugs that are worth resolving. */
  predicate Resolvable(slug: string) {
    slug != "" && !(NONLF_PREFIX <= slug)
  }

  /** The closed form of the slug map: the resolvable slugs that got a usable answer. */
  function SlugMap(connected: bool, affs: seq<Affiliation>, replies: string -> Reply,
                   trim: string -> string): map<string, string> {
    map s | s in Slugs(affs) && connected && Usable(replies(s), trim).Some? :: Usable(replies(s), trim).value
  }

  function Slugs(affs: seq<Affiliation>): set<string> {
    set i | 0 <= i < |affs| && Resolvable(affs[i].projectSlug) :: affs[i].projectSlug
  }

  lemma SlugsStep(affs: seq<Affiliation>, i: nat)
    requires i < |affs|
    ensures Slugs(affs[..i + 1]) ==
            if Resolvable(affs[i].projectSlug) then Slugs(affs[..i]) + {affs[i].projectSlug} else Slugs(affs[..i])
  {
    assert affs[..i + 1] == affs[..i] + [affs[i]];
    forall j | 0 <= j < i && Resolvable(affs[j].projectSlug)
      ensures affs[j].projectSlug in Slugs(affs[..i + 1]) && affs[j].projectSlug in Slugs(affs[..i])
    {
      assert affs[..i + 1][j] == affs[..i][j] == affs[j];
    }
    assert affs[..i + 1][i] == affs[i];
  }

  datatype Resolved = Resolved(slug: string, uid: string)

  /** What is on the result channel: one message at most for each goroutine that has ended, each with its own answer. */
  ghost predicate Delivered(ch: seq<Resolved>, ended: set<string>, replies: string -> Reply, trim: string -> string) {
    && |ch| <= |ended|
    && (forall i :: 0 <= i < |ch| ==> ch[i].slug in ended && Usable(replies(ch[i].slug), trim) == Some(ch[i].uid))
    && (forall s :: s in ended && Usable(replies(s), trim).Some? ==> exists i :: 0 <= i < |ch| && ch[i].slug == s)
  }

  /**
   resolveSlugsToUIDs. One goroutine per slug ends in any order (the choice of `s`), and the
   order of the messages on the channel is the order in which they end.
   */
  method ResolveSlugsToUids(connected: bool, affs: seq<Affiliation>, replies: string -> Reply, trim: string -> string)
    returns (out: map<string, string>)
    ensures out == SlugMap(connected, affs, replies, trim)
    ensures MapExact(connected, affs, replies, trim, out)
  {
    SlugMapExact(connected, affs, replies, trim);
    out := map[];
    if !connected {
      return;
    }
    var unique := UniqueSlugs(affs);
    if |unique| == 0 {
      return;
    }
    var ch := AwaitAll(unique, replies, trim);
    out := DrainResults(ch);
    assert forall s :: s in out <==> s in SlugMap(connected, affs, replies, trim);
  }

  /** The loop that collects the slugs to resolve. */
  method UniqueSlugs(affs: seq<Affiliation>) returns (unique: set<string>)
    ensures unique == Slugs(affs)
  {
    unique := {};
    for i := 0 to |affs|
      invariant unique == Slugs(affs[..i])
    {
      SlugsStep(affs, i);
      if Resolvable(affs[i].projectSlug) {
        unique := unique + {affs[i].projectSlug};
      }
    }
    assert affs[..|affs|] == affs;
  }

  /** The goroutines up to wg.Wait(). The channel has `|unique|` slots and never needs more. */
  method AwaitAll(unique: set<string>, replies: string -> Reply, trim: string -> string) returns (ch: seq<Resolved>)
    ensures Delivered(ch, unique, replies, trim)
  {
    ch := [];
    var pending := unique;
    while pending != {}
      invariant pending <= unique && Delivered(ch, unique - pending, replies, trim)
    {
      var s :| s in pending;
      EndOne(ch, unique, pending, s, replies, trim);
      pending := pending - {s};
      match Usable(replies(s), trim) {
        case None =>
        case Some(uid) =>
          assert |ch| < |unique|;  // the send does not block
          ch := ch + [Resolved(s, uid)];
      }
    }
    assert unique - {} == unique;
  }

  /** The goroutine of one pending slug ends: with a message if its answer is usable, and then there is room. */
  lemma EndOne(ch: seq<Resolved>, unique: set<string>, pending: set<string>, s: string, replies: string -> Reply,
               trim: string -> string)
    requires pending <= unique && s in pending && Delivered(ch, unique - pending, replies, trim)
    ensures |ch| < |unique|
    ensures match Usable(replies(s), trim)
            case None => Delivered(ch, unique - (pending - {s}), replies, trim)
            case Some(uid) => Delivered(ch + [Resolved(s, uid)], unique - (pending - {s}), replies, trim)
  {
    var ended := unique - pending;
    assert unique - (pending - {s}) == ended + {s};
    RoomForOne(unique, ended, s);
    match Usable(replies(s), trim)
    case None =>
    case Some(uid) => DeliverOne(ch, ended, s, uid, replies, trim);
  }

  lemma RoomForOne(unique: set<string>, ended: set<string>, s: string)
    requires ended <= unique && s in unique && s !in ended
    ensures |ended| < |unique|
  {
    var rest := unique - {s};
    assert ended <= rest;
    SubsetSize(ended, rest);
  }

  lemma DeliverOne(ch: seq<Resolved>, ended: set<string>, s: string, uid: string, replies: string -> Reply,
                   trim: string -> string)
    requires Delivered(ch, ended, replies, trim) && s !in ended && Usable(replies(s), trim) == Some(uid)
    ensures Delivered(ch + [Resolved(s, uid)], ended + {s}, replies, trim)
  {
    var ch' := ch + [Resolved(s, uid)];
    forall t | t in ended + {s} && Usable(replies(t), trim).Some?
      ensures exists i :: 0 <= i < |ch'| && ch'[i].slug == t
    {
      if t == s {
        assert ch'[|ch|].slug == t;
      } else {
        var i :| 0 <= i < |ch| && ch[i].slug == t;
        assert ch'[i].slug == t;
      }
    }
  }

  /** The loop that fills the map from the closed channel. */
  method DrainResults(ch: seq<Resolved>) returns (out: map<string, string>)
    requires forall i, j :: 0 <= i < |ch| && 0 <= j < |ch| && ch[i].slug == ch[j].slug ==> ch[i].uid == ch[j].uid
    ensures forall s :: s in out <==> exists i :: 0 <= i < |ch| && ch[i].slug == s
    ensures forall i :: 0 <= i < |ch| ==> ch[i].slug in out && out[ch[i].slug] == ch[i].uid
  {
    out := map[];
    for k := 0 to |ch|
      invariant forall s :: s in out <==> exists i :: 0 <= i < k && ch[i].slug == s
      invariant forall i :: 0 <= i < k ==> ch[i].slug in out && out[ch[i].slug] == ch[i].uid
    {
      out := out[ch[k].slug := ch[k].uid];
    }
  }

  // ---------- conversion ----------

  function CopyRole(r: AffiliationRole): ExtraRole {
    ExtraRole(r.id, r.role, r.startDate, r.endDate, r.repoUrl, r.repoFileUrl)
  }

  function CopyRoles(rs: seq<AffiliationRole>): (es: seq<ExtraRole>)
    ensures |es| == |rs| && forall i :: 0 <= i < |rs| ==> es[i] == CopyRole(rs[i])
  {
    seq(|rs|, i requires 0 <= i < |rs| => CopyRole(rs[i]))
  }

  /** The inner loop of the conversion. */
  method ConvertRoles(rs: seq<AffiliationRole>) returns (roles: seq<ExtraRole>)
    ensures roles == CopyRoles(rs)
  {
    roles := [];
    for j := 0 to |rs|
      invariant roles == CopyRoles(rs[..j])
    {
      var r := rs[j];
      roles := roles + [ExtraRole(r.id, r.role, r.startDate, r.endDate, r.repoUrl, r.repoFileUrl)];
    }
    assert rs[..|rs|] == rs;
  }

  function AffiliationProject(slugMap: map<string, string>): (nat, Affiliation) -> Option<Project> {
    (i: nat, a: Affiliation) =>
      if NONLF_PREFIX <= a.projectSlug || a.projectSlug !in slugMap || slugMap[a.projectSlug] == "" then None
      else Some(Project(slugMap[a.projectSlug], a.projectSlug,
                        [Detection(CdpRoles, RolesExtra(a.contributionCount, CopyRoles(a.roles)))]))
  }

  method AffiliationsToProjects(affs: seq<Affiliation>, slugMap: map<string, string>) returns (projects: seq<Project>)
    ensures projects == Emit(affs, AffiliationProject(slugMap))
  {
    projects := [];
    for i := 0 to |affs|
      invariant projects == Emit(affs[..i], AffiliationProject(slugMap))
    {
      EmitStep(affs, i, AffiliationProject(slugMap));
      var a := affs[i];
      var roles := ConvertRoles(a.roles);
      var extra := RolesExtra(a.contributionCount, roles);
      if NONLF_PREFIX <= a.projectSlug {
        continue;
      }
      if a.projectSlug !in slugMap || slugMap[a.projectSlug] == "" {
        continue;
      }
      projects := projects + [Project(slugMap[a.projectSlug], a.projectSlug, [Detection(CdpRoles, extra)])];
    }
    assert affs[..|affs|] == affs;
  }

  /** Step 3 of the CDP source: resolve, then convert. */
  function CdpProjects(connected: bool, affs: seq<Affiliation>, replies: string -> Reply,
                       trim: string -> string): seq<Project> {
    Emit(affs, AffiliationProject(SlugMap(connected, affs, replies, trim)))
  }

  method ResolveAndConvert(connected: bool, affs: seq<Affiliation>, replies: string -> Reply, trim: string -> string)
    returns (projects: seq<Project>)
    ensures projects == CdpProjects(connected, affs, replies, trim)
    ensures forall p :: p in projects <==>
      connected && exists i: nat :: i < |affs| && ReportsAffiliation(affs[i], replies, trim, p)
  {
    forall p {
      CdpProjectsExact(connected, affs, replies, trim, p);
    }
    var slugMap := ResolveSlugsToUids(connected, affs, replies, trim);
    projects := AffiliationsToProjects(affs, slugMap);
  }

  // ---------- what comes out ----------

  /**
   The slug of `a` can be resolved, and the project service gave `uid` for it: a slug that is neither
   empty nor CDP-only, and an answer that is neither blank nor a JSON object.
   */
  ghost predicate ResolvesTo(a: Affiliation, replies: string -> Reply, trim: string -> string, uid: string) {
    a.projectSlug != "" && !("nonlf_" <= a.projectSlug) && Gives(replies(a.projectSlug), trim, uid)
  }

  /** `p` is what is reported of `a`. */
  ghost predicate ReportsAffiliation(a: Affiliation, replies: string -> Reply, trim: string -> string, p: Project) {
    && ResolvesTo(a, replies, trim, p.uid) && p.slug == a.projectSlug
    && |p.detections| == 1 && p.detections[0].source == CdpRoles && p.detections[0].extra.RolesExtra?
    && p.detections[0].extra.contributionCount == a.contributionCount
    && SameRoles(p.detections[0].extra.roles, a.roles)
  }

  ghost predicate SameRoles(es: seq<ExtraRole>, rs: seq<AffiliationRole>) {
    |es| == |rs| && forall i :: 0 <= i < |rs| ==>
      es[i] == ExtraRole(rs[i].id, rs[i].role, rs[i].startDate, rs[i].endDate, rs[i].repoUrl, rs[i].repoFileUrl)
  }

  ghost predicate Resolves(a: Affiliation, replies: string -> Reply, trim: string -> string) {
    exists uid :: ResolvesTo(a, replies, trim, uid)
  }

  /** Exactly the affiliations whose slug resolves, in order, each reported unchanged. */
  lemma CdpPipelineSelects(connected: bool, affs: seq<Affiliation>, replies: string -> Reply, trim: string -> string)
    returns (at: seq<nat>)
    ensures var out := CdpProjects(connected, affs, replies, trim);
            && |at| == |out|
            && (forall k :: 0 <= k < |at| ==>
                  at[k] < |affs| && ReportsAffiliation(affs[at[k]], replies, trim, out[k]))
            && (forall j, k :: 0 <= j < k < |at| ==> at[j] < at[k])
            && (forall i {:trigger i in at} :: 0 <= i < |affs| ==>
                  (i in at <==> connected && Resolves(affs[i], replies, trim)))
  {
    var f := AffiliationProject(SlugMap(connected, affs, replies, trim));
    at := EmitSelects(affs, f);
    forall i | 0 <= i < |affs|
      ensures f(i, affs[i]).Some? <==> connected && Resolves(affs[i], replies, trim)
      ensures f(i, affs[i]).Some? ==> ReportsAffiliation(affs[i], replies, trim, f(i, affs[i]).value)
    {
      ReportedIff(connected, affs, i, replies, trim);
    }
  }

  lemma ReportedIff(connected: bool, affs: seq<Affiliation>, i: nat, replies: string -> Reply, trim: string -> string)
    requires i < |affs|
    ensures var made := AffiliationProject(SlugMap(connected, affs, replies, trim))(i, affs[i]);
            && (made.Some? <==> connected && Resolves(affs[i], replies, trim))
            && (made.Some? ==> ReportsAffiliation(affs[i], replies, trim, made.value))
  {
    var s := affs[i].projectSlug;
    assert Resolvable(s) ==> s in Slugs(affs);
    assert s in Slugs(affs) ==> Resolvable(s);
    forall uid
      ensures Usable(replies(s), trim) == Some(uid) <==> Gives(replies(s), trim, uid)
    {
      UsableExact(replies(s), trim, uid);
    }
    if Usable(replies(s), trim).Some? && Resolvable(s) {
      assert ResolvesTo(affs[i], replies, trim, Usable(replies(s), trim).value);
    }
  }

  ghost predicate Maps(m: map<string, string>, s: string, uid: string) {
    s in m && m[s] == uid
  }

  /** The map has exactly the slugs that resolve, with what the project service gave. */
  ghost predicate MapExact(connected: bool, affs: seq<Affiliation>, replies: string -> Reply, trim: string -> string,
                           m: map<string, string>) {
    forall s, uid :: Maps(m, s, uid) <==>
      connected && exists i :: 0 <= i < |affs| && affs[i].projectSlug == s && ResolvesTo(affs[i], replies, trim, uid)
  }

  lemma SlugMapExact(connected: bool, affs: seq<Affiliation>, replies: string -> Reply, trim: string -> string)
    ensures MapExact(connected, affs, replies, trim, SlugMap(connected, affs, replies, trim))
  {
    forall s, uid
      ensures Maps(SlugMap(connected, affs, replies, trim), s, uid) <==>
              connected
              && exists i :: 0 <= i < |affs| && affs[i].projectSlug == s && ResolvesTo(affs[i], replies, trim, uid)
    {
      UsableExact(replies(s), trim, uid);
    }
  }

  /** The projects are exactly those of the affiliations whose slug resolves. */
  lemma CdpProjectsExact(connected: bool, affs: seq<Affiliation>, replies: string -> Reply, trim: string -> string,
                         p: Project)
    ensures p in CdpProjects(connected, affs, replies, trim) <==>
            connected && exists i: nat :: i < |affs| && ReportsAffiliation(affs[i], replies, trim, p)
  {
    var f := AffiliationProject(SlugMap(connected, affs, replies, trim));
    EmitMembers(affs, f, p);
    forall i: nat | i < |affs|
      ensures Makes(affs, f, i, p) <==> connected && ReportsAffiliation(affs[i], replies, trim, p)
    {
      AffiliationExact(connected, affs, i, replies, trim, p);
    }
  }

  lemma AffiliationExact(connected: bool, affs: seq<Affiliation>, i: nat, replies: string -> Reply,
                         trim: string -> string, p: Project)
    requires i < |affs|
    ensures Makes(affs, AffiliationProject(SlugMap(connected, affs, replies, trim)), i, p) <==>
            connected && ReportsAffiliation(affs[i], replies, trim, p)
  {
    ReportedIff(connected, affs, i, replies, trim);
    if connected && ReportsAffiliation(affs[i], replies, trim, p) {
      assert p.detections[0].extra.roles == CopyRoles(affs[i].roles);
      assert p.detections == [p.detections[0]];
    }
  }

  lemma CdpLawful(connected: bool, affs: seq<Affiliation>, replies: string -> Reply, trim: string -> string)
    ensures Lawful(CdpProjects(connected, affs, replies, trim))
  {
    EmitLawful(affs, AffiliationProject(SlugMap(connected, affs, replies, trim)));
  }

  /** Without the connection that comes with the Query Service option, the CDP source finds nothing. */
  lemma CdpAloneIsEmpty(affs: seq<Affiliation>, replies: string -> Reply, trim: string -> string)
    ensures CdpProjects(false, affs, replies, trim) == []
  {
    EmitNone(affs, AffiliationProject(SlugMap(false, affs, replies, trim)));
  }
}
