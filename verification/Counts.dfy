/** How many detections of each token a UID gets: one for every record, not one for every source. */
module Counts {
  import opened PersonaModel
  import opened Grouping
  import opened Legs
  import opened Emission
  import opened WriterAuditor

  function Count(ds: seq<Detection>, token: Source): nat {
    if ds == [] then 0 else
      Count(ds[..|ds| - 1], token) + if ds[|ds| - 1].source == token then 1 else 0
  }

  lemma {:induction false} CountConcat(a: seq<Detection>, b: seq<Detection>, token: Source)
    ensures Count(a + b, token) == Count(a, token) + Count(b, token)
    decreases |b|
  {
    if b == [] {
      assert a + b == a;
    } else {
      CountConcat(a, b[..|b| - 1], token);
      assert (a + b)[..|a + b| - 1] == a + b[..|b| - 1];
    }
  }

  // ---------- one detection per record ----------

  /** The positions of the elements that become a project of `u`. */
  function Makers<T>(s: seq<T>, f: (nat, T) -> Option<Project>, u: string): set<nat> {
    set i: nat | i < |s| && f(i, s[i]).Some? && f(i, s[i]).value.uid == u
  }

  function HowMany<T>(s: seq<T>, f: (nat, T) -> Option<Project>, u: string): nat {
    |Makers(s, f, u)|
  }

  /** Every project made has one detection, with this token. */
  ghost predicate SingleToken<T>(s: seq<T>, f: (nat, T) -> Option<Project>, token: Source) {
    forall i: nat :: i < |s| && f(i, s[i]).Some? ==> HasOnly(f(i, s[i]).value, token)
  }

  predicate HasOnly(p: Project, token: Source) {
    |p.detections| == 1 && p.detections[0].source == token
  }

  lemma MakersSnoc<T>(front: seq<T>, x: T, f: (nat, T) -> Option<Project>, u: string)
    ensures var made := f(|front|, x);
            HowMany(front + [x], f, u) == HowMany(front, f, u) + if made.Some? && made.value.uid == u then 1 else 0
  {
    var made := f(|front|, x);
    var last: set<nat> := if made.Some? && made.value.uid == u then {|front|} else {};
    assert forall i: nat :: i < |front| ==> (front + [x])[i] == front[i];
    assert Makers(front + [x], f, u) == Makers(front, f, u) + last;
  }

  lemma CountOfOne(p: Project, made: Source, token: Source)
    requires HasOnly(p, made)
    ensures Count(p.detections, token) == if token == made then 1 else 0
  {
    assert p.detections[..0] == [];
  }

  lemma {:induction false} OnePerRecord<T>(s: seq<T>, f: (nat, T) -> Option<Project>, made: Source, u: string,
                                           token: Source)
    requires SingleToken(s, f, made)
    ensures Count(DetectionsOf(Emit(s, f), u), token) == if token == made then HowMany(s, f, u) else 0
  {
    if s == [] {
      assert Makers(s, f, u) == {};
    } else {
      var front, x := s[..|s| - 1], s[|s| - 1];
      assert front + [x] == s;
      assert SingleToken(front, f, made) by {
        assert forall i :: 0 <= i < |front| ==> front[i] == s[i];
      }
      OnePerRecord(front, f, made, u, token);
      OneMoreRecord(front, x, f, made, u, token);
    }
  }

  lemma OneMoreRecord<T>(front: seq<T>, x: T, f: (nat, T) -> Option<Project>, made: Source, u: string, token: Source)
    requires f(|front|, x).Some? ==> HasOnly(f(|front|, x).value, made)
    requires Count(DetectionsOf(Emit(front, f), u), token) == if token == made then HowMany(front, f, u) else 0
    ensures Count(DetectionsOf(Emit(front + [x], f), u), token) ==
            if token == made then HowMany(front + [x], f, u) else 0
  {
    MakersSnoc(front, x, f, u);
    EmitSnoc(front, x, f);
    if f(|front|, x).Some? {
      EmittedCount(Emit(front, f), f(|front|, x).value, u, token);
      CountOfOne(f(|front|, x).value, made, token);
    }
  }

  lemma EmittedCount(ps: seq<Project>, p: Project, u: string, token: Source)
    ensures Count(DetectionsOf(ps + [p], u), token) ==
            Count(DetectionsOf(ps, u), token) + if p.uid == u then Count(p.detections, token) else 0
  {
    SnocDetections(ps, p, u);
    CountConcat(DetectionsOf(ps, u), if p.uid == u then p.detections else [], token);
  }

  // ---------- writers and auditors: one detection per accepted record ----------

  /** The entry for `id` is a project of `u`. */
  predicate Belongs(all: seq<Settings>, id: string, u: string) {
    id in Ids(all) && u != "" &&
    var data := FirstWith(all, id).data;
    data.Fields? && data.data.uid == u
  }

  /** The accepted records of one leg that count towards `u`. */
  function HitsFor(hits: seq<Settings>, all: seq<Settings>, u: string): set<nat> {
    set i: nat | i < |hits| && Belongs(all, hits[i].id, u)
  }

  /** Those among them that the walk has passed. */
  function Walked(hits: seq<Settings>, all: seq<Settings>, u: string, order: seq<string>): set<nat> {
    set i: nat | i < |hits| && hits[i].id in order && Belongs(all, hits[i].id, u)
  }

  function Positions(hits: seq<Settings>, id: string): set<nat> {
    set i: nat | i < |hits| && hits[i].id == id
  }

  lemma {:induction false} OccurrencesArePositions(hits: seq<Settings>, id: string)
    ensures |Positions(hits, id)| == Occurrences(hits, id)
  {
    if hits == [] {
      assert Positions(hits, id) == {};
    } else {
      var front, k := hits[..|hits| - 1], |hits| - 1;
      OccurrencesArePositions(front, id);
      assert Positions(hits, id) == Positions(front, id) + if hits[k].id == id then {k} else {};
    }
  }

  lemma WalkedSnoc(hits: seq<Settings>, all: seq<Settings>, u: string, order: seq<string>, id: string)
    requires id !in order
    ensures |Walked(hits, all, u, order + [id])| ==
            |Walked(hits, all, u, order)| + if Belongs(all, id, u) then Occurrences(hits, id) else 0
  {
    OccurrencesArePositions(hits, id);
    var added: set<nat> := if Belongs(all, id, u) then Positions(hits, id) else {};
    WalkedAdds(hits, all, u, order, id);
    assert Walked(hits, all, u, order) !! added;
  }

  lemma WalkedAdds(hits: seq<Settings>, all: seq<Settings>, u: string, order: seq<string>, id: string)
    ensures Walked(hits, all, u, order + [id]) ==
            Walked(hits, all, u, order) + if Belongs(all, id, u) then Positions(hits, id) else {}
  {
    assert forall x :: x in order + [id] <==> x in order || x == id;
  }

  lemma {:induction false} CountTokens(s: Source, n: nat, token: Source)
    ensures Count(TokenDetections(Tokens(s, n)), token) == if token == s then n else 0
  {
    if n > 0 {
      CountTokens(s, n - 1, token);
      var ds := TokenDetections(Tokens(s, n));
      assert ds[..n - 1] == TokenDetections(Tokens(s, n - 1));
    }
  }

  /** How often a token occurs in one entry of the map. */
  function EntryCount(ws: seq<Settings>, aus: seq<Settings>, id: string, token: Source): nat {
    match token case Writer => Occurrences(ws, id) case Auditor => Occurrences(aus, id) case _ => 0
  }

  lemma CountEntry(ws: seq<Settings>, aus: seq<Settings>, id: string, token: Source)
    ensures Count(TokenDetections(SourcesFor(ws, aus, id)), token) == EntryCount(ws, aus, id, token)
  {
    var writers, auditors := Tokens(Writer, Occurrences(ws, id)), Tokens(Auditor, Occurrences(aus, id));
    assert TokenDetections(writers + auditors) == TokenDetections(writers) + TokenDetections(auditors);
    CountConcat(TokenDetections(writers), TokenDetections(auditors), token);
    CountTokens(Writer, Occurrences(ws, id), token);
    CountTokens(Auditor, Occurrences(aus, id), token);
  }

  function WalkedCount(ws: seq<Settings>, aus: seq<Settings>, u: string, order: seq<string>, token: Source): nat {
    match token
    case Writer => |Walked(ws, ws + aus, u, order)|
    case Auditor => |Walked(aus, ws + aus, u, order)|
    case _ => 0
  }

  lemma {:induction false} WalkCounts(ws: seq<Settings>, aus: seq<Settings>, slugs: string -> string,
                                      order: seq<string>,
                                      u: string, token: Source)
    requires forall i, j :: 0 <= i < j < |order| ==> order[i] != order[j]
    ensures Count(DetectionsOf(Emit(order, MatchProject(ws, aus, slugs)), u), token)
            == WalkedCount(ws, aus, u, order, token)
  {
    if order == [] {
      assert Walked(ws, ws + aus, u, order) == {} && Walked(aus, ws + aus, u, order) == {};
    } else {
      var front, id := order[..|order| - 1], order[|order| - 1];
      WalkCounts(ws, aus, slugs, front, u, token);
      WalkCountSnoc(ws, aus, slugs, front, id, u, token);
      assert front + [id] == order;
    }
  }

  lemma WalkCountSnoc(ws: seq<Settings>, aus: seq<Settings>, slugs: string -> string, front: seq<string>, id: string,
                      u: string, token: Source)
    requires id !in front
    requires Count(DetectionsOf(Emit(front, MatchProject(ws, aus, slugs)), u), token)
             == WalkedCount(ws, aus, u, front, token)
    ensures Count(DetectionsOf(Emit(front + [id], MatchProject(ws, aus, slugs)), u), token)
            == WalkedCount(ws, aus, u, front + [id], token)
  {
    WalkedSnoc(ws, ws + aus, u, front, id);
    WalkedSnoc(aus, ws + aus, u, front, id);
    MatchCount(ws, aus, slugs, front, id, u, token);
  }

  lemma MatchCount(ws: seq<Settings>, aus: seq<Settings>, slugs: string -> string, front: seq<string>, id: string,
                   u: string, token: Source)
    ensures var f := MatchProject(ws, aus, slugs);
            Count(DetectionsOf(Emit(front + [id], f), u), token) ==
            Count(DetectionsOf(Emit(front, f), u), token)
            + if Belongs(ws + aus, id, u) then EntryCount(ws, aus, id, token) else 0
  {
    var f := MatchProject(ws, aus, slugs);
    var made := f(|front|, id);
    assert Belongs(ws + aus, id, u) <==> made.Some? && made.value.uid == u;
    EmitSnoc(front, id, f);
    CountEntry(ws, aus, id, token);
    if made.Some? {
      EmittedCount(Emit(front, f), made.value, u, token);
    }
  }

  /** The tokens that the writer and auditor source gives `u`. */
  function HitCount(ws: seq<Settings>, aus: seq<Settings>, u: string, token: Source): nat {
    match token
    case Writer => |HitsFor(ws, ws + aus, u)|
    case Auditor => |HitsFor(aus, ws + aus, u)|
    case _ => 0
  }

  /** Whatever the order of the walk: one token for every accepted record whose ID was first seen with this UID. */
  lemma OnePerHit(ws: seq<Settings>, aus: seq<Settings>, slugs: string -> string, order: seq<string>, u: string,
                  token: Source)
    requires OrderOf(order, Ids(ws + aus))
    ensures Count(DetectionsOf(Emit(order, MatchProject(ws, aus, slugs)), u), token) == HitCount(ws, aus, u, token)
  {
    WalkCounts(ws, aus, slugs, order, u, token);
    assert Walked(ws, ws + aus, u, order) == HitsFor(ws, ws + aus, u);
    assert Walked(aus, ws + aus, u, order) == HitsFor(aus, ws + aus, u);
  }
}
