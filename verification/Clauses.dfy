/**
 Query Service clauses: lists joined by commas, each clause a field and a value joined by a
 colon. An accepted username survives both encodings.
 */
module Clauses {

  // ---------- joining and splitting ----------

  function Join(cs: seq<string>, sep: char): string {
    if cs == [] then "" else if |cs| == 1 then cs[0] else cs[0] + [sep] + Join(cs[1..], sep)
  }

  /** Cuts at every separator. */
  function Split(s: string, sep: char): (r: seq<string>)
    ensures r != []
  {
    if s == "" then [""]
    else if s[0] == sep then [""] + Split(s[1..], sep)
    else var rest := Split(s[1..], sep); [[s[0]] + rest[0]] + rest[1..]
  }

  lemma {:induction false} SplitClean(s: string, sep: char)
    requires sep !in s
    ensures Split(s, sep) == [s]
  {
    if s != "" {
      SplitClean(s[1..], sep);
      assert s == [s[0]] + s[1..];
    }
  }

  lemma {:induction false} SplitAtFirst(s: string, rest: string, sep: char)
    requires sep !in s
    ensures Split(s + [sep] + rest, sep) == [s] + Split(rest, sep)
  {
    var whole := s + [sep] + rest;
    if s == "" {
      assert whole == [sep] + rest;
    } else {
      assert whole[0] == s[0] && whole[1..] == s[1..] + [sep] + rest;
      SplitAtFirst(s[1..], rest, sep);
      assert s == [s[0]] + s[1..];
    }
  }

  lemma {:induction false} PiecesAreClean(s: string, sep: char)
    ensures forall i :: 0 <= i < |Split(s, sep)| ==> sep !in Split(s, sep)[i]
  {
    if s != "" {
      PiecesAreClean(s[1..], sep);
    }
  }

  ghost predicate Clean(cs: seq<string>, sep: char) {
    forall i :: 0 <= i < |cs| ==> sep !in cs[i]
  }

  lemma {:induction false} SplitOfJoin(cs: seq<string>, sep: char)
    requires cs != [] && Clean(cs, sep)
    ensures Split(Join(cs, sep), sep) == cs
  {
    if |cs| == 1 {
      SplitClean(cs[0], sep);
    } else {
      SplitAtFirst(cs[0], Join(cs[1..], sep), sep);
      SplitOfJoin(cs[1..], sep);
    }
  }

  /** A clause list comes back from its joined form exactly when no clause contains the separator. */
  lemma RoundTripIffClean(cs: seq<string>, sep: char)
    requires cs != []
    ensures Split(Join(cs, sep), sep) == cs <==> Clean(cs, sep)
  {
    PiecesAreClean(Join(cs, sep), sep);
    if Clean(cs, sep) {
      SplitOfJoin(cs, sep);
    }
  }

  // ---------- usernames ----------

  predicate UsernameChar(c: char) {
    'a' <= c <= 'z' || 'A' <= c <= 'Z' || '0' <= c <= '9' || c == '_' || c == '-' || c == '.'
  }

  /** The empty username is accepted: it means the username legs are skipped. */
  predicate IsValidQueryUsername(username: string) {
    forall i :: 0 <= i < |username| ==> UsernameChar(username[i])
  }

  // ---------- the searches of a request ----------

  datatype SearchParams = SearchParams(resource: string, tagsAll: seq<string>, filters: seq<string>)

  datatype Search = BoardMembers | AllMembers | Directors | Writers | Auditors | Subscriptions | Attendance

  const BOARD_TAG := "committee_category:Board"

  /** The field that a username leg matches, with its colon left out. */
  function UsernameField(q: Search): string {
    match q
    case Directors => "executive_director.username"
    case Writers => "writers.username"
    case Auditors => "auditors.username"
    case _ => "username"
  }

  function UsernameClause(q: Search, username: string): string {
    UsernameField(q) + ":" + username
  }

  function UsernameLegParams(q: Search, username: string): SearchParams {
    var clause := UsernameClause(q, username);
    match q
    case BoardMembers => SearchParams("committee_member", [BOARD_TAG], [clause])
    case AllMembers => SearchParams("committee_member", [], [clause])
    case Directors => SearchParams("project_settings", [], [clause])
    case Writers => SearchParams("project_settings", [], [clause])
    case Auditors => SearchParams("project_settings", [], [clause])
    case Subscriptions => SearchParams("groupsio_member", [], [clause])
    case Attendance => SearchParams("v1_past_meeting_participant", [clause], [])
  }

  /** The email legs; only these four searches have one. */
  function EmailLegTags(q: Search, email: string): seq<string> {
    if q.BoardMembers? then ["email:" + email, BOARD_TAG] else ["email:" + email]
  }

  /** A list parameter is only set when it is not empty; the receiver then cuts it at the commas. */
  ghost predicate Survives(clauses: seq<string>) {
    clauses == [] || Split(Join(clauses, ','), ',') == clauses
  }

  lemma DirectorFieldIsClean()
    ensures ',' !in "executive_director.username" && ':' !in "executive_director.username"
  {}

  lemma WriterFieldIsClean()
    ensures ',' !in "writers.username" && ':' !in "writers.username"
  {}

  lemma AuditorFieldIsClean()
    ensures ',' !in "auditors.username" && ':' !in "auditors.username"
  {}

  lemma FieldIsClean(q: Search)
    ensures ',' !in UsernameField(q) && ':' !in UsernameField(q)
  {
    DirectorFieldIsClean();
    WriterFieldIsClean();
    AuditorFieldIsClean();
  }

  lemma BoardTagSurvives()
    ensures Survives([BOARD_TAG])
  {
    assert ',' !in BOARD_TAG;
    assert Clean([BOARD_TAG], ',');
    RoundTripIffClean([BOARD_TAG], ',');
  }

  /** The username clause is one clause, and it falls apart into the field and the username. */
  lemma UsernameClauseRoundTrip(field: string, username: string)
    requires IsValidQueryUsername(username) && ',' !in field && ':' !in field
    ensures Survives([field + ":" + username])
    ensures Split(field + ":" + username, ':') == [field, username]
  {
    var clause := field + ":" + username;
    assert ',' !in username && ':' !in username;
    assert Clean([clause], ',');
    RoundTripIffClean([clause], ',');
    SplitAtFirst(field, username, ':');
    SplitClean(username, ':');
    assert clause == field + [':'] + username;
  }

  /**
   For an accepted username, every clause list of every username leg survives the join, and the
   username clause falls apart at its only colon into the field and the username.
   */
  lemma UsernameLegRoundTrip(q: Search, username: string)
    requires IsValidQueryUsername(username)
    ensures Survives(UsernameLegParams(q, username).tagsAll)
    ensures Survives(UsernameLegParams(q, username).filters)
    ensures UsernameClause(q, username) in
            UsernameLegParams(q, username).tagsAll + UsernameLegParams(q, username).filters
    ensures Split(UsernameClause(q, username), ':') == [UsernameField(q), username]
  {
    FieldIsClean(q);
    UsernameClauseRoundTrip(UsernameField(q), username);
    BoardTagSurvives();
    UsernameLegCarriesClause(q, username);
  }

  lemma UsernameLegCarriesClause(q: Search, username: string)
    ensures UsernameClause(q, username) in
            UsernameLegParams(q, username).tagsAll + UsernameLegParams(q, username).filters
    ensures UsernameLegParams(q, username).tagsAll in [[], [BOARD_TAG], [UsernameClause(q, username)]]
    ensures UsernameLegParams(q, username).filters in [[], [UsernameClause(q, username)]]
  {
    var p, clause := UsernameLegParams(q, username), [UsernameClause(q, username)];
    if q.Attendance? {
      assert p.tagsAll == clause && (clause + p.filters)[0] == clause[0];
    } else {
      assert p.filters == clause && (p.tagsAll + clause)[|p.tagsAll|] == clause[0];
    }
  }

  /** The email is not restricted: an email leg's clause list survives exactly when the email has no comma. */
  lemma EmailLegRoundTrip(q: Search, email: string)
    ensures Survives(EmailLegTags(q, email)) <==> ',' !in email
  {
    var tags := EmailLegTags(q, email);
    RoundTripIffClean(tags, ',');
    assert ',' !in "email:" && ',' !in BOARD_TAG;
    assert tags[0] == "email:" + email;
    assert ',' in tags[0] <==> ',' in email;
  }

  /** What tells the searches apart: their resource, the field of the username and the Board category. */
  lemma SearchesApart(q: Search, username: string, email: string)
    requires IsValidQueryUsername(username)
    ensures var p := UsernameLegParams(q, username);
            && ("committee_category:Board" in p.tagsAll <==> q.BoardMembers?)
            && Split(UsernameClause(q, username), ':')[0] ==
               (if q.Directors? then "executive_director.username" else if q.Writers? then "writers.username"
                else if q.Auditors? then "auditors.username" else "username")
            && (p.resource == "committee_member" <==> q.BoardMembers? || q.AllMembers?)
            && (p.resource == "project_settings" <==> q.Directors? || q.Writers? || q.Auditors?)
            && (p.resource == "groupsio_member" <==> q.Subscriptions?)
            && (p.resource == "v1_past_meeting_participant" <==> q.Attendance?)
    ensures "email:" + email in EmailLegTags(q, email)
    ensures "committee_category:Board" in EmailLegTags(q, email) <==> q.BoardMembers?
  {
    UsernameLegRoundTrip(q, username);
    assert UsernameClause(q, username)[0] == UsernameField(q)[0];
    assert ("email:" + email)[0] == 'e' && BOARD_TAG[0] == 'c';
    assert EmailLegTags(q, email)[0] == "email:" + email;
    if q.BoardMembers? {
      assert EmailLegTags(q, email)[1] == BOARD_TAG;
    }
  }
}
