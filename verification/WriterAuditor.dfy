/** The writer and auditor source: hits accumulate in a map of pointers, which is then walked in any order. */
module WriterAuditor {
  import opened PersonaModel
  import opened Bags
  import opened Grouping
  import opened Legs
  import opened Emission

  /** A project's settings, with the usernames of its writers and auditors. */
  datatype ProjectData = ProjectData(uid: string, writers: seq<string>, auditors: seq<string>)

  type Settings = Record<ProjectData>

  predicate Listed(names: seq<string>, username: string, fold: string -> string) {
    exists i :: 0 <= i < |names| && fold(names[i]) == fold(username)
  }

  function IsWriter(username: string, fold: string -> string): Settings -> bool {
    (r: Settings) => r.data.Fields? && Listed(r.data.data.writers, username, fold)
  }

  function IsAuditor(username: string, fold: string -> string): Settings -> bool {
    (r: Settings) => r.data.Fields? && Listed(r.data.data.auditors, username, fold)
  }

  /** The search loop of projectContainsWriter and projectContainsAuditor. */
  method ContainsName(names: seq<string>, username: string, fold: string -> string) returns (found: bool)
    ensures found <==> exists i :: 0 <= i < |names| && fold(names[i]) == fold(username)
  {
    for i := 0 to |names|
      invariant forall j :: 0 <= j < i ==> fold(names[j]) != fold(username)
    {
      if fold(names[i]) == fold(username) {
        return true;
      }
    }
    return false;
  }

  // ---------- the closed form of one map entry ----------

  function Occurrences(rs: seq<Settings>, id: string): nat {
    if rs == [] then 0 else Occurrences(rs[..|rs| - 1], id) + if rs[|rs| - 1].id == id then 1 else 0
  }

  function Tokens(s: Source, n: nat): (r: seq<Source>)
    ensures |r| == n && forall i :: 0 <= i < n ==> r[i] == s
  {
    seq(n, _ => s)
  }

  lemma HitSnoc(rs: seq<Settings>, r: Settings, id: string)
    ensures Occurrences(rs + [r], id) == Occurrences(rs, id) + if r.id == id then 1 else 0
    ensures Ids(rs + [r]) == Ids(rs) + {r.id}
    ensures id in Ids(rs + [r]) ==> FirstWith(rs + [r], id) == if id in Ids(rs) then FirstWith(rs, id) else r
  {
    FirstByIdSnoc(rs, r);
    assert (rs + [r])[..|rs|] == rs;
  }

  lemma {:induction false} NoOccurrence(rs: seq<Settings>, id: string)
    requires id !in Ids(rs)
    ensures Occurrences(rs, id) == 0
  {
    if rs != [] {
      var k := |rs| - 1;
      assert rs[k].id in Ids(rs);
      assert forall i :: 0 <= i < k ==> rs[..k][i] == rs[i] && rs[i].id in Ids(rs);
      NoOccurrence(rs[..k], id);
    }
  }

  /** The value behind a pointer of the map. */
  class ProjectMatch {
    const record: Settings
    var sources: seq<Source>

    constructor (record: Settings, sources: seq<Source>)
      ensures this.record == record && this.sources == sources
    {
      this.record := record;
      this.sources := sources;
    }
  }

  /** One `writer` per accepted writers-leg record, then one `auditor` per accepted auditors-leg record. */
  function SourcesFor(ws: seq<Settings>, aus: seq<Settings>, id: string): seq<Source> {
    Tokens(Writer, Occurrences(ws, id)) + Tokens(Auditor, Occurrences(aus, id))
  }

  /** What the map holds for one ID: the first accepted record, and a token for every hit. */
  datatype Held = Held(record: Settings, sources: seq<Source>)

  function Table(ws: seq<Settings>, aus: seq<Settings>): (t: map<string, Held>)
    ensures t.Keys == Ids(ws + aus)
    ensures forall id :: id in t ==> t[id] == Held(FirstWith(ws + aus, id), SourcesFor(ws, aus, id))
  {
    map id | id in Ids(ws + aus) :: Held(FirstWith(ws + aus, id), SourcesFor(ws, aus, id))
  }

  /** `matches` holds the entries of `table`, one object for each. */
  ghost predicate Holds(matches: map<string, ProjectMatch>, table: map<string, Held>)
    reads matches.Values
  {
    && matches.Keys == table.Keys
    && (forall id :: id in matches ==> Held(matches[id].record, matches[id].sources) == table[id])
    && (forall id, id' :: id in matches && id' in matches && id != id' ==> matches[id] != matches[id'])
  }

  /** `matches` holds the hits `ws` and `aus`. */
  ghost predicate Tracks(matches: map<string, ProjectMatch>, ws: seq<Settings>, aus: seq<Settings>)
    reads matches.Values
  {
    Holds(matches, Table(ws, aus))
  }

  /** The body of both accumulation loops, for an accepted record. */
  method Hit(matches: map<string, ProjectMatch>, r: Settings, token: Source) returns (after: map<string, ProjectMatch>)
    requires forall id, id' :: id in matches && id' in matches && id != id' ==> matches[id] != matches[id']
    modifies matches.Values
    ensures after.Keys == matches.Keys + {r.id}
    ensures forall id, id' :: id in after && id' in after && id != id' ==> after[id] != after[id']
    ensures forall id :: id in matches ==> after[id] == matches[id]
    ensures forall id :: id in matches ==>
      after[id].sources == old(matches[id].sources) + if id == r.id then [token] else []
    ensures r.id !in matches ==>
      fresh(after[r.id]) && after[r.id].record == r && after[r.id].sources == [token]
  {
    if r.id in matches {
      var m := matches[r.id];
      m.sources := m.sources + [token];
      after := matches;
    } else {
      var m := new ProjectMatch(r, [token]);
      after := matches[r.id := m];
    }
  }

  /** What one more writers-leg hit makes of the entry for `id`. */
  lemma WriterEntry(ws: seq<Settings>, r: Settings, id: string)
    ensures Ids(ws + [r] + []) == Ids(ws + []) + {r.id}
    ensures id in Ids(ws + []) ==>
      && FirstWith(ws + [r] + [], id) == FirstWith(ws + [], id)
      && SourcesFor(ws + [r], [], id) == SourcesFor(ws, [], id) + if id == r.id then [Writer] else []
    ensures r.id !in Ids(ws + []) ==>
      FirstWith(ws + [r] + [], r.id) == r && SourcesFor(ws + [r], [], r.id) == [Writer]
  {
    assert ws + [] == ws && ws + [r] + [] == ws + [r];
    HitSnoc(ws, r, id);
    HitSnoc(ws, r, r.id);
    if r.id !in Ids(ws) {
      NoOccurrence(ws, r.id);
    }
  }

  /** What one more auditors-leg hit makes of the entry for `id`. */
  lemma AuditorEntry(ws: seq<Settings>, aus: seq<Settings>, r: Settings, id: string)
    ensures Ids(ws + (aus + [r])) == Ids(ws + aus) + {r.id}
    ensures id in Ids(ws + aus) ==>
      && FirstWith(ws + (aus + [r]), id) == FirstWith(ws + aus, id)
      && SourcesFor(ws, aus + [r], id) == SourcesFor(ws, aus, id) + if id == r.id then [Auditor] else []
    ensures r.id !in Ids(ws + aus) ==>
      FirstWith(ws + (aus + [r]), r.id) == r && SourcesFor(ws, aus + [r], r.id) == [Auditor]
  {
    HitSnoc(ws + aus, r, id);
    HitSnoc(ws + aus, r, r.id);
    assert ws + (aus + [r]) == ws + aus + [r];
    AuditorTokens(ws, aus, r, id);
    if r.id !in Ids(ws + aus) {
      NewAuditorTokens(ws, aus, r);
    }
  }

  lemma AuditorTokens(ws: seq<Settings>, aus: seq<Settings>, r: Settings, id: string)
    ensures SourcesFor(ws, aus + [r], id) == SourcesFor(ws, aus, id) + if id == r.id then [Auditor] else []
  {
    HitSnoc(aus, r, id);
    var n := Occurrences(aus, id);
    assert Tokens(Auditor, n + 1) == Tokens(Auditor, n) + [Auditor];
  }

  lemma NewAuditorTokens(ws: seq<Settings>, aus: seq<Settings>, r: Settings)
    requires r.id !in Ids(ws + aus)
    ensures SourcesFor(ws, aus + [r], r.id) == [Auditor]
  {
    IdsConcat(ws, aus);
    NoOccurrence(ws, r.id);
    NoOccurrence(aus, r.id);
    AuditorTokens(ws, aus, r, r.id);
  }

  /** What one more hit makes of the entries. */
  ghost predicate Adds(before: map<string, Held>, after: map<string, Held>, r: Settings, token: Source) {
    && after.Keys == before.Keys + {r.id}
    && (forall id :: id in before ==>
          after[id] == Held(before[id].record, before[id].sources + if id == r.id then [token] else []))
    && (r.id !in before ==> after[r.id] == Held(r, [token]))
  }

  /** Hit does just that to the objects. */
  method HitTable(matches: map<string, ProjectMatch>, r: Settings, token: Source,
                  ghost before: map<string, Held>, ghost later: map<string, Held>)
    returns (after: map<string, ProjectMatch>)
    requires Holds(matches, before) && Adds(before, later, r, token)
    modifies matches.Values
    ensures Holds(after, later)
    ensures forall m :: m in after.Values ==> m in matches.Values || fresh(m)
  {
    after := Hit(matches, r, token);
  }

  method WriterHit(matches: map<string, ProjectMatch>, r: Settings, ghost ws: seq<Settings>)
    returns (after: map<string, ProjectMatch>)
    requires Tracks(matches, ws, [])
    modifies matches.Values
    ensures Tracks(after, ws + [r], [])
    ensures forall m :: m in after.Values ==> m in matches.Values || fresh(m)
  {
    WriterAdds(ws, r);
    after := HitTable(matches, r, Writer, Table(ws, []), Table(ws + [r], []));
  }

  lemma WriterAdds(ws: seq<Settings>, r: Settings)
    ensures Adds(Table(ws, []), Table(ws + [r], []), r, Writer)
  {
    forall id {
      WriterEntry(ws, r, id);
    }
  }

  method AuditorHit(matches: map<string, ProjectMatch>, r: Settings, ghost ws: seq<Settings>, ghost aus: seq<Settings>)
    returns (after: map<string, ProjectMatch>)
    requires Tracks(matches, ws, aus)
    modifies matches.Values
    ensures Tracks(after, ws, aus + [r])
    ensures forall m :: m in after.Values ==> m in matches.Values || fresh(m)
  {
    AuditorAdds(ws, aus, r);
    after := HitTable(matches, r, Auditor, Table(ws, aus), Table(ws, aus + [r]));
  }

  lemma AuditorAdds(ws: seq<Settings>, aus: seq<Settings>, r: Settings)
    ensures Adds(Table(ws, aus), Table(ws, aus + [r]), r, Auditor)
  {
    forall id {
      AuditorEntry(ws, aus, r, id);
    }
  }

  /** The body of the writers-leg loop. */
  method WriterTurn(matches: map<string, ProjectMatch>, r: Settings, username: string, fold: string -> string,
                    ghost ws: seq<Settings>)
    returns (after: map<string, ProjectMatch>)
    requires Tracks(matches, ws, [])
    modifies matches.Values
    ensures Tracks(after, if IsWriter(username, fold)(r) then ws + [r] else ws, [])
    ensures forall m :: m in after.Values ==> m in matches.Values || fresh(m)
  {
    after := matches;
    if r.data.Malformed? {
      return;
    }
    var listed := ContainsName(r.data.data.writers, username, fold);
    if listed {
      after := WriterHit(matches, r, ws);
    }
  }

  /** The body of the auditors-leg loop. */
  method AuditorTurn(matches: map<string, ProjectMatch>, r: Settings, username: string, fold: string -> string,
                     ghost ws: seq<Settings>, ghost aus: seq<Settings>)
    returns (after: map<string, ProjectMatch>)
    requires Tracks(matches, ws, aus)
    modifies matches.Values
    ensures Tracks(after, ws, if IsAuditor(username, fold)(r) then aus + [r] else aus)
    ensures forall m :: m in after.Values ==> m in matches.Values || fresh(m)
  {
    after := matches;
    if r.data.Malformed? {
      return;
    }
    var listed := ContainsName(r.data.data.auditors, username, fold);
    if listed {
      after := AuditorHit(matches, r, ws, aus);
    }
  }

  /** The writers-leg loop. */
  method AccumulateWriters(writers: seq<Settings>, username: string, fold: string -> string)
    returns (matches: map<string, ProjectMatch>)
    ensures Tracks(matches, Filter(writers, IsWriter(username, fold)), [])
    ensures fresh(matches.Values)
  {
    matches := map[];
    ghost var isWriter := IsWriter(username, fold);
    for i := 0 to |writers|
      invariant Tracks(matches, Filter(writers[..i], isWriter), []) && fresh(matches.Values)
    {
      FilterStep(writers, i, isWriter);
      matches := WriterTurn(matches, writers[i], username, fold, Filter(writers[..i], isWriter));
    }
    assert writers[..|writers|] == writers;
  }

  /** The auditors-leg loop, over the same map. */
  method AccumulateAuditors(matches0: map<string, ProjectMatch>, auditors: seq<Settings>, username: string,
                            fold: string -> string, ghost ws: seq<Settings>)
    returns (matches: map<string, ProjectMatch>)
    requires Tracks(matches0, ws, [])
    modifies matches0.Values
    ensures Tracks(matches, ws, Filter(auditors, IsAuditor(username, fold)))
    ensures forall m :: m in matches.Values ==> m in matches0.Values || fresh(m)
  {
    matches := matches0;
    ghost var isAuditor := IsAuditor(username, fold);
    for i := 0 to |auditors|
      invariant Tracks(matches, ws, Filter(auditors[..i], isAuditor))
      invariant forall m :: m in matches.Values ==> m in matches0.Values || fresh(m)
    {
      FilterStep(auditors, i, isAuditor);
      matches := AuditorTurn(matches, auditors[i], username, fold, ws, Filter(auditors[..i], isAuditor));
    }
    assert auditors[..|auditors|] == auditors;
  }

  // ---------- walking the map ----------

  function TokenDetections(tokens: seq<Source>): (ds: seq<Detection>)
    ensures |ds| == |tokens| && forall i :: 0 <= i < |ds| ==> ds[i] == Detection(tokens[i], NoExtra)
  {
    seq(|tokens|, i requires 0 <= i < |tokens| => Detection(tokens[i], NoExtra))
  }

  /** The project of one record ID; `slugs` holds the reply to the slug lookup made for it. */
  function MatchProject(ws: seq<Settings>, aus: seq<Settings>, slugs: string -> string)
    : (nat, string) -> Option<Project>
  {
    (i: nat, id: string) =>
      if id !in Ids(ws + aus) then None else
        var r := FirstWith(ws + aus, id);
        if r.data.Malformed? || r.data.data.uid == "" then None
        else Some(Project(r.data.data.uid, slugs(id), TokenDetections(SourcesFor(ws, aus, id))))
  }

  /** `order` lists every element of `s` once. */
  ghost predicate OrderOf(order: seq<string>, s: set<string>) {
    && (forall id :: id in order <==> id in s)
    && (forall i, j :: 0 <= i < j < |order| ==> order[i] != order[j])
  }

  /** The body of the final loop, for one entry of the map. */
  method EmitMatch(m: ProjectMatch, slug: string) returns (p: Option<Project>)
    ensures p == if m.record.data.Malformed? || m.record.data.data.uid == "" then None
                 else Some(Project(m.record.data.data.uid, slug, TokenDetections(m.sources)))
  {
    if m.record.data.Malformed? {
      return None;
    }
    var data := m.record.data.data;
    if data.uid == "" {
      return None;
    }
    var detections: seq<Detection> := [];
    for i := 0 to |m.sources|
      invariant detections == TokenDetections(m.sources[..i])
    {
      detections := detections + [Detection(m.sources[i], NoExtra)];
    }
    assert m.sources[..|m.sources|] == m.sources;
    p := Some(Project(data.uid, slug, detections));
  }

  /** The final loop. Go walks the map in an arbitrary order; `order` is the one it took. */
  method EmitMatches(matches: map<string, ProjectMatch>, slugs: string -> string, ghost ws: seq<Settings>,
                     ghost aus: seq<Settings>)
    returns (projects: seq<Project>, ghost order: seq<string>)
    requires Tracks(matches, ws, aus)
    ensures OrderOf(order, Ids(ws + aus))
    ensures projects == Emit(order, MatchProject(ws, aus, slugs))
  {
    ghost var f := MatchProject(ws, aus, slugs);
    projects, order := [], [];
    var left := matches.Keys;
    ghost var done := {};
    while left != {}
      invariant done !! left && done + left == matches.Keys && OrderOf(order, done)
      invariant projects == Emit(order, f)
    {
      var id :| id in left;
      projects := AddMatch(projects, matches, id, slugs, ws, aus, order);
      OrderGrows(order, done, id);
      left, done, order := left - {id}, done + {id}, order + [id];
    }
  }

  /** One turn of the final loop, after the entries in `order`. */
  method AddMatch(projects: seq<Project>, matches: map<string, ProjectMatch>, id: string, slugs: string -> string,
                  ghost ws: seq<Settings>, ghost aus: seq<Settings>, ghost order: seq<string>)
    returns (more: seq<Project>)
    requires Tracks(matches, ws, aus) && id in matches
    requires projects == Emit(order, MatchProject(ws, aus, slugs))
    ensures more == Emit(order + [id], MatchProject(ws, aus, slugs))
  {
    var p := EmitMatch(matches[id], slugs(id));
    EntryProject(matches, ws, aus, slugs, |order|, id);
    EmitSnoc(order, id, MatchProject(ws, aus, slugs));
    more := if p.Some? then projects + [p.value] else projects;
  }

  lemma EntryProject(matches: map<string, ProjectMatch>, ws: seq<Settings>, aus: seq<Settings>, slugs: string -> string,
                     i: nat, id: string)
    requires Tracks(matches, ws, aus) && id in matches
    ensures MatchProject(ws, aus, slugs)(i, id) ==
            var data := matches[id].record.data;
            if data.Malformed? || data.data.uid == "" then None
            else Some(Project(data.data.uid, slugs(id), TokenDetections(matches[id].sources)))
  {}

  lemma OrderGrows(order: seq<string>, done: set<string>, id: string)
    requires OrderOf(order, done) && id !in done
    ensures OrderOf(order + [id], done + {id})
  {
    assert id !in order;
  }

  method SourceWriterAuditor(writers: Leg<ProjectData>, auditors: Leg<ProjectData>, username: string,
                             fold: string -> string, slugs: string -> string)
    returns (o: Outcome, ghost order: seq<string>)
    ensures username == "" ==> o == Succeeded([])
    ensures username != "" && writers.LegFailed? && auditors.LegFailed? ==> o == Failed
    ensures username != "" && !(writers.LegFailed? && auditors.LegFailed?) ==>
      var ws := Filter(writers.Records(), IsWriter(username, fold));
      var aus := Filter(auditors.Records(), IsAuditor(username, fold));
      OrderOf(order, Ids(ws + aus)) && o == Succeeded(Emit(order, MatchProject(ws, aus, slugs)))
    ensures username != "" && o.Succeeded? ==>
      && HitsExact(writers.Records(), auditors.Records(), username, fold, o.projects)
      && SlugsLookedUp(writers.Records(), auditors.Records(), username, fold, slugs, o.projects)
  {
    order := [];
    if username == "" {
      return Succeeded([]), [];
    }
    if writers.LegFailed? && auditors.LegFailed? {
      return Failed, [];
    }
    var matches := AccumulateWriters(writers.Records(), username, fold);
    ghost var ws := Filter(writers.Records(), IsWriter(username, fold));
    ghost var aus := Filter(auditors.Records(), IsAuditor(username, fold));
    matches := AccumulateAuditors(matches, auditors.Records(), username, fold, ws);
    var projects;
    projects, order := EmitMatches(matches, slugs, ws, aus);
    WalkExact(writers.Records(), auditors.Records(), username, fold, slugs, order);
    o := Succeeded(projects);
  }

  // ---------- the order of the walk does not matter ----------

  lemma {:induction false} OrderCounts(order: seq<string>, s: set<string>)
    requires OrderOf(order, s)
    ensures forall id :: multiset(order)[id] == if id in s then 1 else 0
    decreases |order|
  {
    if order == [] {
      assert forall id :: id in s ==> id in order;
    } else {
      var front, last := order[..|order| - 1], order[|order| - 1];
      assert order == front + [last];
      assert OrderOf(front, s - {last});
      OrderCounts(front, s - {last});
    }
  }

  /** Two walks give the same projects, possibly in another order. */
  lemma WalkOrderIrrelevant(o1: seq<string>, o2: seq<string>, s: set<string>, f: (nat, string) -> Option<Project>)
    requires OrderOf(o1, s) && OrderOf(o2, s)
    requires forall i, j, id :: f(i, id) == f(j, id)
    ensures multiset(Emit(o1, f)) == multiset(Emit(o2, f))
    ensures SameAnswer(Group(Emit(o1, f)), Group(Emit(o2, f)))
  {
    OrderCounts(o1, s);
    OrderCounts(o2, s);
    assert multiset(o1) == multiset(o2);
    EmitIsBag(o1, f);
    EmitIsBag(o2, f);
    BagSumPermutation(o1, o2, id => Made(f, id));
    PermutedAnswer(Emit(o1, f), Emit(o2, f));
  }

  function Made(f: (nat, string) -> Option<Project>, id: string): multiset<Project> {
    match f(0, id) case None => multiset{} case Some(p) => multiset{p}
  }

  lemma {:induction false} EmitIsBag(order: seq<string>, f: (nat, string) -> Option<Project>)
    requires forall i, j, id :: f(i, id) == f(j, id)
    ensures multiset(Emit(order, f)) == BagSum(order, id => Made(f, id))
  {
    if order != [] {
      var k := |order| - 1;
      EmitIsBag(order[..k], f);
      assert f(k, order[k]) == f(0, order[k]);
    }
  }

  lemma PermutedAnswer(a: seq<Project>, b: seq<Project>)
    requires multiset(a) == multiset(b)
    ensures SameAnswer(Group(a), Group(b))
  {
    BagSumPermutation(a, b, Tags);
    forall u
      ensures u in Uids(a) <==> u in Uids(b)
    {
      UidsAre(a, u);
      UidsAre(b, u);
      assert forall p: Project :: p in a <==> p in multiset(a);
      assert forall p: Project :: p in b <==> p in multiset(b);
      if i :| 0 <= i < |a| && a[i].uid == u {
        assert a[i] in b;
      }
      if i :| 0 <= i < |b| && b[i].uid == u {
        assert b[i] in a;
      }
    }
    SameTagsSameAnswer(a, b);
  }

  /** Whatever order the map was walked in, the grouped result answers the same. */
  lemma WriterAuditorOrderIndependent(ws: seq<Settings>, aus: seq<Settings>, slugs: string -> string,
                                      o1: seq<string>, o2: seq<string>)
    requires OrderOf(o1, Ids(ws + aus)) && OrderOf(o2, Ids(ws + aus))
    ensures var f := MatchProject(ws, aus, slugs);
            && multiset(Emit(o1, f)) == multiset(Emit(o2, f))
            && SameAnswer(Group(Emit(o1, f)), Group(Emit(o2, f)))
  {
    WalkOrderIrrelevant(o1, o2, Ids(ws + aus), MatchProject(ws, aus, slugs));
  }

  /** Every entry has a non-empty UID and at least one detection, all of them writer or auditor. */
  lemma WriterAuditorLawful(ws: seq<Settings>, aus: seq<Settings>, slugs: string -> string, order: seq<string>)
    ensures Lawful(Emit(order, MatchProject(ws, aus, slugs)))
  {
    var f := MatchProject(ws, aus, slugs);
    forall i | 0 <= i < |order| && f(i, order[i]).Some?
      ensures f(i, order[i]).value.detections != []
    {
      SomeOccurrence(ws, aus, order[i]);
    }
    EmitLawful(order, f);
  }

  lemma SomeOccurrence(ws: seq<Settings>, aus: seq<Settings>, id: string)
    requires id in Ids(ws + aus)
    ensures SourcesFor(ws, aus, id) != []
  {
    IdsConcat(ws, aus);
    if id in Ids(ws) {
      Occurs(ws, id);
    } else {
      Occurs(aus, id);
    }
  }

  lemma {:induction false} Occurs(rs: seq<Settings>, id: string)
    requires id in Ids(rs)
    ensures Occurrences(rs, id) > 0
  {
    var k := |rs| - 1;
    assert rs == rs[..k] + [rs[k]];
    HitSnoc(rs[..k], rs[k], id);
    if rs[k].id != id {
      Occurs(rs[..k], id);
    }
  }

  // ---------- the outcome, told from the replies ----------

  /** `r` decodes, and its list of writers has the user's name. */
  ghost predicate NamesWriter(r: Settings, username: string, fold: string -> string) {
    r.data.Fields? && exists k :: 0 <= k < |r.data.data.writers| && fold(r.data.data.writers[k]) == fold(username)
  }

  ghost predicate NamesAuditor(r: Settings, username: string, fold: string -> string) {
    r.data.Fields? && exists k :: 0 <= k < |r.data.data.auditors| && fold(r.data.data.auditors[k]) == fold(username)
  }

  /** The writers leg's first record with this ID that names the user is `r`, at position `i`. */
  ghost predicate FirstWriter(rs: seq<Settings>, username: string, fold: string -> string, i: int, r: Settings) {
    && 0 <= i < |rs| && rs[i] == r && NamesWriter(r, username, fold)
    && forall j :: 0 <= j < i && rs[j].id == r.id ==> !NamesWriter(rs[j], username, fold)
  }

  ghost predicate FirstAuditor(rs: seq<Settings>, username: string, fold: string -> string, i: int, r: Settings) {
    && 0 <= i < |rs| && rs[i] == r && NamesAuditor(r, username, fold)
    && forall j :: 0 <= j < i && rs[j].id == r.id ==> !NamesAuditor(rs[j], username, fold)
  }

  /** Some record of the writers leg with this ID names the user. */
  ghost predicate Writes(writers: seq<Settings>, username: string, fold: string -> string, id: string) {
    exists i :: 0 <= i < |writers| && writers[i].id == id && NamesWriter(writers[i], username, fold)
  }

  ghost predicate Audits(auditors: seq<Settings>, username: string, fold: string -> string, id: string) {
    exists i :: 0 <= i < |auditors| && auditors[i].id == id && NamesAuditor(auditors[i], username, fold)
  }

  /** `r` stands for its ID: the first hit of the writers leg or, where that leg has none, of the auditors leg. */
  ghost predicate Stands(writers: seq<Settings>, auditors: seq<Settings>, username: string, fold: string -> string,
                         r: Settings) {
    || (exists i :: FirstWriter(writers, username, fold, i, r))
    || (!Writes(writers, username, fold, r.id) && exists i :: FirstAuditor(auditors, username, fold, i, r))
  }

  /** What is reported of the record ID that `r` stands for. */
  ghost predicate Reports(writers: seq<Settings>, auditors: seq<Settings>, username: string, fold: string -> string,
                          r: Settings, u: string, d: Detection) {
    && r.data.Fields? && u != "" && r.data.data.uid == u
    && ((d == Detection(Writer, NoExtra) && Writes(writers, username, fold, r.id))
        || (d == Detection(Auditor, NoExtra) && Audits(auditors, username, fold, r.id)))
  }

  /** The detections of each project are exactly those that some record ID calls for. */
  ghost predicate HitsExact(writers: seq<Settings>, auditors: seq<Settings>, username: string, fold: string -> string,
                            ps: seq<Project>) {
    forall u, d :: d in DetectionsOf(ps, u) <==>
      exists r :: Stands(writers, auditors, username, fold, r) && Reports(writers, auditors, username, fold, r, u, d)
  }

  /** Each project is that of a record that stands for its ID, with the slug looked up for it. */
  ghost predicate SlugsLookedUp(writers: seq<Settings>, auditors: seq<Settings>, username: string,
                                fold: string -> string, slugs: string -> string, ps: seq<Project>) {
    forall p :: p in ps ==>
      exists r :: Stands(writers, auditors, username, fold, r) && r.data.Fields? && r.data.data.uid == p.uid
                  && p.slug == slugs(r.id)
  }

  lemma WriterAccepted(rs: seq<Settings>, username: string, fold: string -> string, r: Settings)
    ensures r.id in Ids(Filter(rs, IsWriter(username, fold)))
            && FirstWith(Filter(rs, IsWriter(username, fold)), r.id) == r <==>
            exists i :: FirstWriter(rs, username, fold, i, r)
    ensures forall id :: id in Ids(Filter(rs, IsWriter(username, fold))) <==> Writes(rs, username, fold, id)
  {
    var accept := IsWriter(username, fold);
    assert forall x :: accept(x) <==> NamesWriter(x, username, fold);
    FirstIsAccepted(rs, accept, r);
    forall i
      ensures FirstAccepted(rs, accept, i, r) <==> FirstWriter(rs, username, fold, i, r)
    {}
    forall id
      ensures id in Ids(Filter(rs, accept)) <==> Writes(rs, username, fold, id)
    {
      AcceptedIds(rs, accept, id);
    }
  }

  lemma AuditorAccepted(rs: seq<Settings>, username: string, fold: string -> string, r: Settings)
    ensures r.id in Ids(Filter(rs, IsAuditor(username, fold)))
            && FirstWith(Filter(rs, IsAuditor(username, fold)), r.id) == r <==>
            exists i :: FirstAuditor(rs, username, fold, i, r)
    ensures forall id :: id in Ids(Filter(rs, IsAuditor(username, fold))) <==> Audits(rs, username, fold, id)
  {
    var accept := IsAuditor(username, fold);
    assert forall x :: accept(x) <==> NamesAuditor(x, username, fold);
    FirstIsAccepted(rs, accept, r);
    forall i
      ensures FirstAccepted(rs, accept, i, r) <==> FirstAuditor(rs, username, fold, i, r)
    {}
    forall id
      ensures id in Ids(Filter(rs, accept)) <==> Audits(rs, username, fold, id)
    {
      AcceptedIds(rs, accept, id);
    }
  }

  /** `r` is the first hit with its ID. */
  ghost predicate IsFirst(hits: seq<Settings>, r: Settings) {
    r.id in Ids(hits) && FirstWith(hits, r.id) == r
  }

  lemma StandsIsFirst(writers: seq<Settings>, auditors: seq<Settings>, username: string, fold: string -> string,
                      r: Settings)
    ensures IsFirst(Filter(writers, IsWriter(username, fold)) + Filter(auditors, IsAuditor(username, fold)), r) <==>
            Stands(writers, auditors, username, fold, r)
  {
    var ws, aus := Filter(writers, IsWriter(username, fold)), Filter(auditors, IsAuditor(username, fold));
    WriterAccepted(writers, username, fold, r);
    AuditorAccepted(auditors, username, fold, r);
    IdsConcat(ws, aus);
    if r.id in Ids(ws + aus) {
      FirstWithConcat(ws, aus, r.id);
    }
  }

  /** The tokens of one entry: `writer` if the writers leg has a hit with the ID, `auditor` likewise. */
  lemma EntryTokens(ws: seq<Settings>, aus: seq<Settings>, id: string, d: Detection)
    ensures d in TokenDetections(SourcesFor(ws, aus, id)) <==>
            (d == Detection(Writer, NoExtra) && id in Ids(ws)) || (d == Detection(Auditor, NoExtra) && id in Ids(aus))
  {
    var m, n := Occurrences(ws, id), Occurrences(aus, id);
    OccursIff(ws, id);
    OccursIff(aus, id);
    var tokens := SourcesFor(ws, aus, id);
    assert |tokens| == m + n;
    assert forall k :: 0 <= k < m ==> tokens[k] == Writer;
    assert forall k :: m <= k < m + n ==> tokens[k] == Auditor;
    if m > 0 {
      assert TokenDetections(tokens)[0] == Detection(Writer, NoExtra);
    }
    if n > 0 {
      assert TokenDetections(tokens)[m] == Detection(Auditor, NoExtra);
    }
  }

  lemma OccursIff(rs: seq<Settings>, id: string)
    ensures Occurrences(rs, id) > 0 <==> id in Ids(rs)
  {
    if id in Ids(rs) {
      Occurs(rs, id);
    } else {
      NoOccurrence(rs, id);
    }
  }

  /** The entry of `r`'s ID reports `d` on the project `u`. */
  ghost predicate EntryReports(ws: seq<Settings>, aus: seq<Settings>, r: Settings, u: string, d: Detection) {
    && IsFirst(ws + aus, r) && r.data.Fields? && u != "" && r.data.data.uid == u
    && d in TokenDetections(SourcesFor(ws, aus, r.id))
  }

  lemma WalkReports(ws: seq<Settings>, aus: seq<Settings>, slugs: string -> string, order: seq<string>, u: string,
                    d: Detection)
    requires OrderOf(order, Ids(ws + aus))
    ensures d in DetectionsOf(Emit(order, MatchProject(ws, aus, slugs)), u) <==>
            exists r :: EntryReports(ws, aus, r, u, d)
  {
    var f := MatchProject(ws, aus, slugs);
    DetectionsMembers(Emit(order, f), u, d);
    if p :| p in Emit(order, f) && p.uid == u && d in p.detections {
      var r := EntryBehind(ws, aus, slugs, order, p);
      assert EntryReports(ws, aus, r, u, d);
    }
    if r :| EntryReports(ws, aus, r, u, d) {
      var i :| 0 <= i < |order| && order[i] == r.id;
      EmitInto(order, f, i);
    }
  }

  lemma EntryBehind(ws: seq<Settings>, aus: seq<Settings>, slugs: string -> string, order: seq<string>, p: Project)
    returns (r: Settings)
    requires p in Emit(order, MatchProject(ws, aus, slugs))
    ensures IsFirst(ws + aus, r) && r.data.Fields? && p.uid != "" && r.data.data.uid == p.uid
    ensures p.slug == slugs(r.id) && p.detections == TokenDetections(SourcesFor(ws, aus, r.id))
  {
    var f := MatchProject(ws, aus, slugs);
    EmitMembers(order, f, p);
    var i: nat :| Makes(order, f, i, p);
    r := FirstWith(ws + aus, order[i]);
    FirstWithHasId(ws + aus, order[i]);
  }

  lemma WalkExact(writers: seq<Settings>, auditors: seq<Settings>, username: string, fold: string -> string,
                  slugs: string -> string, order: seq<string>)
    requires OrderOf(order, Ids(Filter(writers, IsWriter(username, fold))
                                + Filter(auditors, IsAuditor(username, fold))))
    ensures var f := MatchProject(Filter(writers, IsWriter(username, fold)),
                                  Filter(auditors, IsAuditor(username, fold)), slugs);
            && HitsExact(writers, auditors, username, fold, Emit(order, f))
            && SlugsLookedUp(writers, auditors, username, fold, slugs, Emit(order, f))
  {
    var ws, aus := Filter(writers, IsWriter(username, fold)), Filter(auditors, IsAuditor(username, fold));
    var f := MatchProject(ws, aus, slugs);
    forall u, d
      ensures d in DetectionsOf(Emit(order, f), u) <==>
              exists r :: Stands(writers, auditors, username, fold, r)
                          && Reports(writers, auditors, username, fold, r, u, d)
    {
      WalkReports(ws, aus, slugs, order, u, d);
      forall r
        ensures EntryReports(ws, aus, r, u, d) <==>
                Stands(writers, auditors, username, fold, r) && Reports(writers, auditors, username, fold, r, u, d)
      {
        EntryIsReported(writers, auditors, username, fold, r, u, d);
      }
    }
    forall p | p in Emit(order, f)
      ensures exists r :: Stands(writers, auditors, username, fold, r) && r.data.Fields? && r.data.data.uid == p.uid
                          && p.slug == slugs(r.id)
    {
      var r := EntryBehind(ws, aus, slugs, order, p);
      StandsIsFirst(writers, auditors, username, fold, r);
    }
  }

  lemma EntryIsReported(writers: seq<Settings>, auditors: seq<Settings>, username: string, fold: string -> string,
                        r: Settings, u: string, d: Detection)
    ensures EntryReports(Filter(writers, IsWriter(username, fold)), Filter(auditors, IsAuditor(username, fold)),
                         r, u, d) <==>
            Stands(writers, auditors, username, fold, r) && Reports(writers, auditors, username, fold, r, u, d)
  {
    StandsIsFirst(writers, auditors, username, fold, r);
    EntryTokens(Filter(writers, IsWriter(username, fold)), Filter(auditors, IsAuditor(username, fold)), r.id, d);
    WriterAccepted(writers, username, fold, r);
    AuditorAccepted(auditors, username, fold, r);
  }
}
