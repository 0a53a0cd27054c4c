/**
 Query Service records and the dual-leg lookup: an email leg and a username leg, merged
 by record ID with a local post-filter on the username leg.
 */
module Legs {
  import opened Bags

  /** What json.Unmarshal makes of a record's data for the caller's struct. */
  datatype Decoded<+D> = Malformed | Fields(data: D)

  datatype Record<+D> = Record(id: string, data: Decoded<D>)

  /** The reply to one search; also the result of a whole dual-leg query. */
  datatype Leg<+D> = LegFailed | LegOk(records: seq<Record<D>>)
  {
    /** A failed leg contributes no records. */
    function Records(): seq<Record<D>> {
      if LegFailed? then [] else records
    }
  }

  // ---------- first occurrence by ID ----------

  function Ids<D>(rs: seq<Record<D>>): set<string> {
    set i | 0 <= i < |rs| :: rs[i].id
  }

  /** The records of `rs` whose ID has not occurred before, in order. */
  function FirstById<D>(rs: seq<Record<D>>): seq<Record<D>> {
    if rs == [] then [] else
      var front, r := rs[..|rs| - 1], rs[|rs| - 1];
      if r.id in Ids(front) then FirstById(front) else FirstById(front) + [r]
  }

  function Filter<D>(rs: seq<Record<D>>, accept: Record<D> -> bool): seq<Record<D>> {
    if rs == [] then [] else
      Filter(rs[..|rs| - 1], accept) + if accept(rs[|rs| - 1]) then [rs[|rs| - 1]] else []
  }

  lemma FirstByIdSnoc<D>(rs: seq<Record<D>>, r: Record<D>)
    ensures FirstById(rs + [r]) == if r.id in Ids(rs) then FirstById(rs) else FirstById(rs) + [r]
    ensures Ids(rs + [r]) == Ids(rs) + {r.id}
  {
    assert (rs + [r])[..|rs|] == rs;
    forall i | 0 <= i < |rs|
      ensures rs[i].id in Ids(rs + [r])
    {
      assert (rs + [r])[i] == rs[i];
    }
    assert (rs + [r])[|rs|] == r;
  }

  lemma FilterSnoc<D>(rs: seq<Record<D>>, r: Record<D>, accept: Record<D> -> bool)
    ensures Filter(rs + [r], accept) == Filter(rs, accept) + if accept(r) then [r] else []
  {
    assert (rs + [r])[..|rs|] == rs;
  }

  // ---------- an independent description of FirstById ----------

  /** The record at `i` is the first with its ID. */
  ghost predicate FirstAt<D>(rs: seq<Record<D>>, i: nat)
    requires i < |rs|
  {
    forall j :: 0 <= j < i ==> rs[j].id != rs[i].id
  }

  /** `at` lists, in increasing order, exactly the positions of first occurrences, and `out` the records there. */
  ghost predicate PicksFirsts<D>(rs: seq<Record<D>>, at: seq<nat>, out: seq<Record<D>>) {
    && |at| == |out|
    && (forall k :: 0 <= k < |at| ==> at[k] < |rs| && out[k] == rs[at[k]])
    && (forall j, k :: 0 <= j < k < |at| ==> at[j] < at[k])
    && (forall i {:trigger i in at} :: 0 <= i < |rs| ==> (i in at <==> FirstAt(rs, i)))
  }

  /** FirstById is the subsequence of first occurrences: order kept, one record for every ID. */
  lemma {:induction false} FirstByIdPicksFirsts<D>(rs: seq<Record<D>>) returns (at: seq<nat>)
    ensures PicksFirsts(rs, at, FirstById(rs))
    decreases |rs|
  {
    if rs == [] {
      at := [];
    } else {
      var front, r := rs[..|rs| - 1], rs[|rs| - 1];
      var before := FirstByIdPicksFirsts(front);
      at := PicksOneMore(front, r, before);
      assert front + [r] == rs;
    }
  }

  lemma PicksOneMore<D>(front: seq<Record<D>>, r: Record<D>, before: seq<nat>) returns (at: seq<nat>)
    requires PicksFirsts(front, before, FirstById(front))
    ensures PicksFirsts(front + [r], at, FirstById(front + [r]))
  {
    at := if r.id in Ids(front) then before else before + [|front|];
    PicksSnoc(front, r, before, FirstById(front));
    FirstByIdSnoc(front, r);
  }

  lemma PicksSnoc<D>(front: seq<Record<D>>, r: Record<D>, at: seq<nat>, out: seq<Record<D>>)
    requires PicksFirsts(front, at, out)
    ensures if r.id in Ids(front) then PicksFirsts(front + [r], at, out)
            else PicksFirsts(front + [r], at + [|front|], out + [r])
  {
    var rs, k := front + [r], |front|;
    forall i | 0 <= i < k
      ensures FirstAt(rs, i) <==> FirstAt(front, i)
    {
      assert rs[i] == front[i] && forall j :: 0 <= j < i ==> rs[j] == front[j];
    }
    assert FirstAt(rs, k) <==> r.id !in Ids(front) by {
      if r.id in Ids(front) {
        var i :| 0 <= i < k && front[i].id == r.id;
        assert rs[i].id == rs[k].id;
      } else {
        assert forall j :: 0 <= j < k ==> rs[j].id == front[j].id && front[j].id in Ids(front);
      }
    }
    if r.id !in Ids(front) {
      PicksNew(front, r, at, out);
    }
  }

  lemma PicksNew<D>(front: seq<Record<D>>, r: Record<D>, at: seq<nat>, out: seq<Record<D>>)
    requires PicksFirsts(front, at, out) && FirstAt(front + [r], |front|)
    requires forall i :: 0 <= i < |front| ==> (FirstAt(front + [r], i) <==> FirstAt(front, i))
    ensures PicksFirsts(front + [r], at + [|front|], out + [r])
  {
    var rs, at' := front + [r], at + [|front|];
    forall i | 0 <= i < |rs|
      ensures i in at' <==> FirstAt(rs, i)
    {
      assert i in at' <==> i in at || i == |front|;
      if i == |front| {
        assert at'[|at|] == |front|;
      }
    }
  }

  /** IDs are unique and none is lost. */
  lemma FirstByIdUnique<D>(rs: seq<Record<D>>)
    ensures forall j, k :: 0 <= j < k < |FirstById(rs)| ==> FirstById(rs)[j].id != FirstById(rs)[k].id
    ensures Ids(FirstById(rs)) == Ids(rs)
  {
    var at := FirstByIdPicksFirsts(rs);
    var out := FirstById(rs);
    forall j, k | 0 <= j < k < |out|
      ensures out[j].id != out[k].id
    {
      assert at[k] in at && FirstAt(rs, at[k]) && at[j] < at[k];
    }
    forall i | 0 <= i < |rs|
      ensures rs[i].id in Ids(out)
    {
      var f := FirstIndex(rs, i);
      assert FirstAt(rs, f) && f in at;
      var k :| 0 <= k < |at| && at[k] == f;
      assert out[k].id == rs[i].id;
    }
  }

  lemma {:induction false} FirstIndex<D>(rs: seq<Record<D>>, i: nat) returns (f: nat)
    requires i < |rs|
    ensures f <= i && rs[f].id == rs[i].id && FirstAt(rs, f)
    decreases i
  {
    f := i;
    if j :| 0 <= j < i && rs[j].id == rs[i].id {
      f := FirstIndex(rs, j);
    }
  }

  lemma {:induction false} UniqueIsFirst<D>(rs: seq<Record<D>>)
    requires forall j, k :: 0 <= j < k < |rs| ==> rs[j].id != rs[k].id
    ensures FirstById(rs) == rs
  {
    if rs != [] {
      var k := |rs| - 1;
      UniqueIsFirst(rs[..k]);
      assert rs[k].id !in Ids(rs[..k]);
      assert rs == rs[..k] + [rs[k]];
    }
  }

  /** The first record of `rs` with this ID. */
  function FirstWith<D>(rs: seq<Record<D>>, id: string): Record<D>
    requires id in Ids(rs)
  {
    var front := rs[..|rs| - 1];
    if id in Ids(front) then FirstWith(front, id) else rs[|rs| - 1]
  }

  /** The records that FirstById keeps are the first ones with their IDs. */
  lemma {:induction false} KeptIsFirst<D>(rs: seq<Record<D>>, r: Record<D>)
    ensures r in FirstById(rs) <==> r.id in Ids(rs) && FirstWith(rs, r.id) == r
  {
    if rs != [] {
      var front, last := rs[..|rs| - 1], rs[|rs| - 1];
      KeptIsFirst(front, r);
      assert rs == front + [last];
      FirstByIdSnoc(front, last);
    }
  }

  lemma {:induction false} FirstWithHasId<D>(rs: seq<Record<D>>, id: string)
    requires id in Ids(rs)
    ensures FirstWith(rs, id).id == id
  {
    var front, last := rs[..|rs| - 1], rs[|rs| - 1];
    assert rs == front + [last];
    FirstByIdSnoc(front, last);
    if id in Ids(front) {
      FirstWithHasId(front, id);
    }
  }

  lemma {:induction false} FirstWithConcat<D>(a: seq<Record<D>>, b: seq<Record<D>>, id: string)
    requires id in Ids(a + b)
    ensures id in Ids(a) || id in Ids(b)
    ensures FirstWith(a + b, id) == if id in Ids(a) then FirstWith(a, id) else FirstWith(b, id)
    decreases |b|
  {
    IdsConcat(a, b);
    if b == [] {
      assert a + b == a;
    } else {
      var front, last := b[..|b| - 1], b[|b| - 1];
      assert b == front + [last] && a + b == a + front + [last];
      FirstByIdSnoc(a + front, last);
      IdsConcat(a, front);
      if id in Ids(a + front) {
        FirstWithConcat(a, front, id);
      }
    }
  }

  lemma IdsConcat<D>(a: seq<Record<D>>, b: seq<Record<D>>)
    ensures Ids(a + b) == Ids(a) + Ids(b)
  {
    forall i | 0 <= i < |a|
      ensures a[i].id in Ids(a + b)
    {
      assert (a + b)[i] == a[i];
    }
    forall i | 0 <= i < |b|
      ensures b[i].id in Ids(a + b)
    {
      assert (a + b)[|a| + i] == b[i];
    }
  }

  /** What comes first stays first. */
  lemma {:induction false} FirstByIdPrefix<D>(a: seq<Record<D>>, b: seq<Record<D>>)
    ensures FirstById(a) <= FirstById(a + b)
    decreases |b|
  {
    if b == [] {
      assert a + b == a;
    } else {
      var k := |b| - 1;
      FirstByIdPrefix(a, b[..k]);
      FirstByIdSnoc(a + b[..k], b[k]);
      assert a + b == a + b[..k] + [b[k]];
    }
  }

  // ---------- the dual-leg query ----------

  /** An empty username skips the leg, which then counts as an empty success. */
  function UsernameLeg<D>(username: string, reply: Leg<D>): Leg<D> {
    if username == "" then LegOk([]) else reply
  }

  /** The closed form: the email leg, then the accepted username-leg records, first occurrence wins. */
  function DualLeg<D>(email: Leg<D>, username: Leg<D>, accept: Record<D> -> bool): Leg<D> {
    if email.LegFailed? && username.LegFailed? then LegFailed
    else LegOk(FirstById(email.Records() + Filter(username.Records(), accept)))
  }

  lemma OneMore<D>(before: seq<Record<D>>, r: Record<D>)
    ensures if r.id in Ids(before)
            then FirstById(before + [r]) == FirstById(before) && Ids(before + [r]) == Ids(before)
            else FirstById(before + [r]) == FirstById(before) + [r] && Ids(before + [r]) == Ids(before) + {r.id}
  {
    FirstByIdSnoc(before, r);
  }

  /** The first loop: the email leg. */
  method DedupEmailLeg<D>(es: seq<Record<D>>) returns (seen: set<string>, merged: seq<Record<D>>)
    ensures seen == Ids(es) && merged == FirstById(es)
  {
    seen, merged := {}, [];
    for i := 0 to |es|
      invariant seen == Ids(es[..i]) && merged == FirstById(es[..i])
    {
      OneMore(es[..i], es[i]);
      assert es[..i + 1] == es[..i] + [es[i]];
      if es[i].id !in seen {
        seen := seen + {es[i].id};
        merged := merged + [es[i]];
      }
    }
    assert es[..|es|] == es;
  }

  /** The second loop: the username leg, after the email leg `es`. */
  method AddUsernameLeg<D>(us: seq<Record<D>>, accept: Record<D> -> bool, seen0: set<string>, merged0: seq<Record<D>>,
                           ghost es: seq<Record<D>>)
    returns (merged: seq<Record<D>>)
    requires seen0 == Ids(es) && merged0 == FirstById(es)
    ensures merged == FirstById(es + Filter(us, accept))
  {
    var seen := seen0;
    merged := merged0;
    assert es + Filter(us[..0], accept) == es;
    for i := 0 to |us|
      invariant seen == Ids(es + Filter(us[..i], accept)) && merged == FirstById(es + Filter(us[..i], accept))
    {
      UsernameStep(es, us, i, accept);
      if us[i].id in seen {
        continue;
      }
      if !accept(us[i]) {
        continue;
      }
      seen := seen + {us[i].id};
      merged := merged + [us[i]];
    }
    assert us[..|us|] == us;
  }

  /** The two loops over the legs' results. */
  method MergeLegs<D>(email: Leg<D>, username: Leg<D>, accept: Record<D> -> bool) returns (r: Leg<D>)
    ensures r == DualLeg(email, username, accept)
  {
    if email.LegFailed? && username.LegFailed? {
      return LegFailed;
    }
    var seen, merged := DedupEmailLeg(email.Records());
    merged := AddUsernameLeg(username.Records(), accept, seen, merged, email.Records());
    r := LegOk(merged);
  }

  /** Looking at one more record of `rs` after `before`. */
  lemma PrefixStep<D>(before: seq<Record<D>>, rs: seq<Record<D>>, i: nat)
    requires i < |rs|
    ensures FirstById(before + rs[..i + 1]) ==
            FirstById(before + rs[..i]) + if rs[i].id in Ids(before + rs[..i]) then [] else [rs[i]]
    ensures Ids(before + rs[..i + 1]) == Ids(before + rs[..i]) + {rs[i].id}
  {
    OneMore(before + rs[..i], rs[i]);
    assert before + rs[..i + 1] == before + rs[..i] + [rs[i]];
  }

  lemma FilterStep<D>(us: seq<Record<D>>, i: nat, accept: Record<D> -> bool)
    requires i < |us|
    ensures Filter(us[..i + 1], accept) ==
            if accept(us[i]) then Filter(us[..i], accept) + [us[i]] else Filter(us[..i], accept)
  {
    FilterSnoc(us[..i], us[i], accept);
    assert us[..i + 1] == us[..i] + [us[i]];
    assert Filter(us[..i], accept) + [] == Filter(us[..i], accept);
  }

  /** Looking at one more username-leg record: it counts when it is new and accepted. */
  lemma UsernameStep<D>(es: seq<Record<D>>, us: seq<Record<D>>, i: nat, accept: Record<D> -> bool)
    requires i < |us|
    ensures var before, after := es + Filter(us[..i], accept), es + Filter(us[..i + 1], accept);
            if us[i].id in Ids(before) || !accept(us[i])
            then FirstById(after) == FirstById(before) && Ids(after) == Ids(before)
            else FirstById(after) == FirstById(before) + [us[i]] && Ids(after) == Ids(before) + {us[i].id}
  {
    var kept := Filter(us[..i], accept);
    FilterStep(us, i, accept);
    if accept(us[i]) {
      assert es + (kept + [us[i]]) == es + kept + [us[i]];
      OneMore(es + kept, us[i]);
    }
  }

  lemma {:induction false} FilterHas<D(!new)>(rs: seq<Record<D>>, accept: Record<D> -> bool)
    ensures forall r :: r in Filter(rs, accept) <==> r in rs && accept(r)
  {
    if rs != [] {
      var k := |rs| - 1;
      FilterHas(rs[..k], accept);
      assert rs == rs[..k] + [rs[k]];
    }
  }

  /** The IDs of a dual-leg result: all of the email leg's and the accepted ones of the username leg. */
  lemma DualLegIds<D(!new)>(email: Leg<D>, username: Leg<D>, accept: Record<D> -> bool)
    ensures var r := DualLeg(email, username, accept);
            && Ids(r.Records()) == Ids(email.Records()) + Ids(Filter(username.Records(), accept))
            && forall j, k :: 0 <= j < k < |r.Records()| ==> r.Records()[j].id != r.Records()[k].id
  {
    var rs := email.Records() + Filter(username.Records(), accept);
    FirstByIdUnique(rs);
    IdsConcat(email.Records(), Filter(username.Records(), accept));
  }

  /**
   A username record that the post-filter rejects does not hide a later one with the same ID:
   every accepted record's ID is in the result, whatever was rejected before it, and where
   the email leg does not have the ID, the result's record for it is an accepted one.
   */
  lemma RejectedNeverSuppresses<D(!new)>(email: Leg<D>, username: Leg<D>, accept: Record<D> -> bool, r: Record<D>)
    requires r in username.Records() && accept(r)
    ensures var out := DualLeg(email, username, accept).Records();
            exists x :: x in out && x.id == r.id &&
              if r.id in Ids(email.Records()) then x in email.Records() else x in username.Records() && accept(x)
  {
    var es, us := email.Records(), Filter(username.Records(), accept);
    AcceptedId(username.Records(), accept, r);
    IdsConcat(es, us);
    FirstWithHasId(es + us, r.id);
    KeptIsFirst(es + us, FirstWith(es + us, r.id));
    FirstWithConcat(es, us, r.id);
    if r.id in Ids(es) {
      FirstWithIsThere(es, r.id);
    } else {
      FirstWithIsThere(us, r.id);
      FilterHas(username.Records(), accept);
    }
  }

  lemma AcceptedId<D(!new)>(rs: seq<Record<D>>, accept: Record<D> -> bool, r: Record<D>)
    requires r in rs && accept(r)
    ensures r.id in Ids(Filter(rs, accept))
  {
    FilterHas(rs, accept);
    var kept := Filter(rs, accept);
    var i :| 0 <= i < |kept| && kept[i] == r;
  }

  lemma {:induction false} FirstWithIsThere<D>(rs: seq<Record<D>>, id: string)
    requires id in Ids(rs)
    ensures FirstWith(rs, id) in rs
  {
    var front := rs[..|rs| - 1];
    if id in Ids(front) {
      FirstWithIsThere(front, id);
    }
  }

  // ---------- which records a dual-leg query keeps, told from the legs ----------

  /** The leg's first record with its ID is `r`, at position `i`. */
  ghost predicate FirstHere<D>(rs: seq<Record<D>>, i: int, r: Record<D>) {
    0 <= i < |rs| && rs[i] == r && forall j :: 0 <= j < i ==> rs[j].id != r.id
  }

  /** The leg's first accepted record with its ID is `r`, at position `i`. */
  ghost predicate FirstAccepted<D>(rs: seq<Record<D>>, accept: Record<D> -> bool, i: int, r: Record<D>) {
    0 <= i < |rs| && rs[i] == r && accept(r) && forall j :: 0 <= j < i && rs[j].id == r.id ==> !accept(rs[j])
  }

  ghost predicate NoneWith<D>(rs: seq<Record<D>>, id: string) {
    forall i :: 0 <= i < |rs| ==> rs[i].id != id
  }

  /** The email leg's first record with its ID or, where that leg has none, the username leg's first accepted one. */
  ghost predicate Wins<D>(es: seq<Record<D>>, us: seq<Record<D>>, accept: Record<D> -> bool, r: Record<D>) {
    || (exists i :: FirstHere(es, i, r))
    || (NoneWith(es, r.id) && exists i :: FirstAccepted(us, accept, i, r))
  }

  /** A dual-leg query keeps exactly the winners. */
  lemma DualLegWinners<D(!new)>(email: Leg<D>, username: Leg<D>, accept: Record<D> -> bool, r: Record<D>)
    ensures r in DualLeg(email, username, accept).Records() <==> Wins(email.Records(), username.Records(), accept, r)
  {
    WinnerKept(email.Records(), username.Records(), accept, r);
  }

  lemma WinnerKept<D(!new)>(es: seq<Record<D>>, us: seq<Record<D>>, accept: Record<D> -> bool, r: Record<D>)
    ensures r in FirstById(es + Filter(us, accept)) <==> Wins(es, us, accept, r)
  {
    var kept := Filter(us, accept);
    KeptIsFirst(es + kept, r);
    IdsConcat(es, kept);
    FirstIsHere(es, r);
    FirstIsAccepted(us, accept, r);
    assert r.id in Ids(es) <==> !NoneWith(es, r.id);
    if r.id in Ids(es + kept) {
      FirstWithConcat(es, kept, r.id);
    }
  }

  lemma {:induction false} FirstIsAccepted<D>(us: seq<Record<D>>, accept: Record<D> -> bool, r: Record<D>)
    ensures r.id in Ids(Filter(us, accept)) && FirstWith(Filter(us, accept), r.id) == r <==>
            exists i :: FirstAccepted(us, accept, i, r)
  {
    if us != [] {
      var front, x := us[..|us| - 1], us[|us| - 1];
      FirstIsAccepted(front, accept, r);
      SplitLast(us);
      AcceptedSnoc(front, x, accept, r);
    }
  }

  lemma AcceptedSnoc<D>(front: seq<Record<D>>, x: Record<D>, accept: Record<D> -> bool, r: Record<D>)
    requires r.id in Ids(Filter(front, accept)) && FirstWith(Filter(front, accept), r.id) == r <==>
             exists i :: FirstAccepted(front, accept, i, r)
    ensures r.id in Ids(Filter(front + [x], accept)) && FirstWith(Filter(front + [x], accept), r.id) == r <==>
            exists i :: FirstAccepted(front + [x], accept, i, r)
  {
    FilterSnoc(front, x, accept);
    AcceptedIds(front, accept, r.id);
    FirstAcceptedSnoc(front, x, accept, r);
    if accept(x) {
      FirstWithSnoc(Filter(front, accept), x, r.id);
    } else {
      assert Filter(front, accept) + [] == Filter(front, accept);
    }
  }

  lemma FirstWithSnoc<D>(rs: seq<Record<D>>, x: Record<D>, id: string)
    ensures id in Ids(rs + [x]) <==> id in Ids(rs) || id == x.id
    ensures id in Ids(rs + [x]) ==> FirstWith(rs + [x], id) == if id in Ids(rs) then FirstWith(rs, id) else x
  {
    FirstByIdSnoc(rs, x);
    assert (rs + [x])[..|rs|] == rs;
  }

  /** The leg has an accepted record with this ID. */
  ghost predicate SomeAccepted<D>(rs: seq<Record<D>>, accept: Record<D> -> bool, id: string) {
    exists j :: 0 <= j < |rs| && rs[j].id == id && accept(rs[j])
  }

  lemma {:induction false} AcceptedIds<D>(rs: seq<Record<D>>, accept: Record<D> -> bool, id: string)
    ensures id in Ids(Filter(rs, accept)) <==> SomeAccepted(rs, accept, id)
  {
    if rs != [] {
      var front, x := rs[..|rs| - 1], rs[|rs| - 1];
      AcceptedIds(front, accept, id);
      SplitLast(rs);
      FilterSnoc(front, x, accept);
      if accept(x) {
        FirstWithSnoc(Filter(front, accept), x, id);
        assert x.id == id ==> rs[|front|].id == id;
      } else {
        assert Filter(front, accept) + [] == Filter(front, accept);
      }
      assert forall j :: 0 <= j < |front| ==> rs[j] == front[j];
    }
  }

  lemma FirstAcceptedSnoc<D>(front: seq<Record<D>>, x: Record<D>, accept: Record<D> -> bool, r: Record<D>)
    ensures (exists i :: FirstAccepted(front + [x], accept, i, r)) <==>
            (exists i :: FirstAccepted(front, accept, i, r))
            || (x == r && accept(r) && !SomeAccepted(front, accept, r.id))
  {
    var rs := front + [x];
    assert forall j :: 0 <= j < |front| ==> rs[j] == front[j];
    if i :| FirstAccepted(front, accept, i, r) {
      assert FirstAccepted(rs, accept, i, r);
    }
    if x == r && accept(r) && !SomeAccepted(front, accept, r.id) {
      assert FirstAccepted(rs, accept, |front|, r);
    }
    if i :| FirstAccepted(rs, accept, i, r) {
      assert i < |front| ==> FirstAccepted(front, accept, i, r);
    }
  }

  lemma FirstIsHere<D>(es: seq<Record<D>>, r: Record<D>)
    ensures r.id in Ids(es) && FirstWith(es, r.id) == r <==> exists i :: FirstHere(es, i, r)
  {
    var all := (x: Record<D>) => true;
    NoFilter(es, all);
    FirstIsAccepted(es, all, r);
    forall i
      ensures FirstAccepted(es, all, i, r) <==> FirstHere(es, i, r)
    {}
  }

  /** Losing one leg only loses IDs, and the two single-leg answers together have them all. */
  lemma LegsDegrade<D(!new)>(email: Leg<D>, username: Leg<D>, accept: Record<D> -> bool)
    ensures var full := Ids(DualLeg(email, username, accept).Records());
            var emailOnly := Ids(DualLeg(email, LegFailed, accept).Records());
            var usernameOnly := Ids(DualLeg(LegFailed, username, accept).Records());
            emailOnly <= full && usernameOnly <= full && emailOnly + usernameOnly == full
  {
    DualLegIds(email, username, accept);
    DualLegIds(email, LegFailed, accept);
    DualLegIds(LegFailed, username, accept);
  }

  /** Where the legs share an ID, the first record of either leg is the same. */
  ghost predicate LegsAgree<D>(es: seq<Record<D>>, us: seq<Record<D>>) {
    forall id :: id in Ids(es) && id in Ids(us) ==> FirstWith(es, id) == FirstWith(us, id)
  }

  /**
   Losing the username leg only loses records. Losing the email leg may bring up records that it hid:
   it only loses records exactly when the legs agree on the IDs they share.
   */
  lemma LegLossLosesRecordsIff<D(!new)>(email: Leg<D>, username: Leg<D>, accept: Record<D> -> bool)
    ensures var full := multiset(DualLeg(email, username, accept).Records());
            && multiset(DualLeg(email, LegFailed, accept).Records()) <= full
            && (multiset(DualLeg(LegFailed, username, accept).Records()) <= full <==>
                LegsAgree(email.Records(), Filter(username.Records(), accept)))
  {
    var es, us := email.Records(), Filter(username.Records(), accept);
    assert es + [] == es && [] + us == us;
    FirstByIdPrefix(es, us);
    PrefixIsSubBag(FirstById(es), FirstById(es + us));
    SubBagIffWithin(us, es + us);
    if LegsAgree(es, us) {
      NothingHidden(es, us);
    } else if Within(FirstById(us), FirstById(es + us)) {
      HiddenUnlessAgreed(es, us);
    }
  }

  ghost predicate Within<D(!new)>(a: seq<Record<D>>, b: seq<Record<D>>) {
    forall r :: r in a ==> r in b
  }

  /** Kept records have different IDs, so their bags compare like their sets. */
  lemma SubBagIffWithin<D(!new)>(a: seq<Record<D>>, b: seq<Record<D>>)
    ensures multiset(FirstById(a)) <= multiset(FirstById(b)) <==> Within(FirstById(a), FirstById(b))
  {
    forall r
      ensures multiset(FirstById(a))[r] == if r in FirstById(a) then 1 else 0
      ensures multiset(FirstById(b))[r] == if r in FirstById(b) then 1 else 0
    {
      FirstByIdUnique(a);
      FirstByIdUnique(b);
      DistinctIdsCount(FirstById(a), r);
      DistinctIdsCount(FirstById(b), r);
    }
    if multiset(FirstById(a)) <= multiset(FirstById(b)) {
      forall r | r in FirstById(a)
        ensures r in FirstById(b)
      {
        assert multiset(FirstById(a))[r] <= multiset(FirstById(b))[r];
      }
    }
  }

  lemma {:induction false} DistinctIdsCount<D>(rs: seq<Record<D>>, r: Record<D>)
    requires forall j, k :: 0 <= j < k < |rs| ==> rs[j].id != rs[k].id
    ensures multiset(rs)[r] == if r in rs then 1 else 0
  {
    if rs != [] {
      var front, last := rs[..|rs| - 1], rs[|rs| - 1];
      assert rs == front + [last];
      DistinctIdsCount(front, r);
    }
  }

  lemma NothingHidden<D(!new)>(es: seq<Record<D>>, us: seq<Record<D>>)
    requires LegsAgree(es, us)
    ensures Within(FirstById(us), FirstById(es + us))
  {
    IdsConcat(es, us);
    forall r | r in FirstById(us)
      ensures r in FirstById(es + us)
    {
      KeptIsFirst(us, r);
      KeptIsFirst(es + us, r);
      FirstWithConcat(es, us, r.id);
    }
  }

  lemma HiddenUnlessAgreed<D(!new)>(es: seq<Record<D>>, us: seq<Record<D>>)
    requires Within(FirstById(us), FirstById(es + us))
    ensures LegsAgree(es, us)
  {
    IdsConcat(es, us);
    forall id | id in Ids(es) && id in Ids(us)
      ensures FirstWith(es, id) == FirstWith(us, id)
    {
      var r := FirstWith(us, id);
      FirstWithHasId(us, id);
      KeptIsFirst(us, r);
      KeptIsFirst(es + us, r);
      FirstWithConcat(es, us, id);
    }
  }

  /** Without a post-filter, as in the meeting source, the result is the plain concatenation's first occurrences. */
  lemma {:induction false} NoFilter<D>(rs: seq<Record<D>>, accept: Record<D> -> bool)
    requires forall i :: 0 <= i < |rs| ==> accept(rs[i])
    ensures Filter(rs, accept) == rs
  {
    if rs != [] {
      NoFilter(rs[..|rs| - 1], accept);
    }
  }

  function Chain<D>(slices: seq<seq<Record<D>>>): seq<Record<D>> {
    if slices == [] then [] else Chain(slices[..|slices| - 1]) + slices[|slices| - 1]
  }

  /** The inner loop of deduplicateResources, after the slices that make up `before`. */
  method AddSlice<D>(s: seq<Record<D>>, seen0: set<string>, out0: seq<Record<D>>, ghost before: seq<Record<D>>)
    returns (seen: set<string>, out: seq<Record<D>>)
    requires seen0 == Ids(before) && out0 == FirstById(before)
    ensures seen == Ids(before + s) && out == FirstById(before + s)
  {
    seen, out := seen0, out0;
    assert before + s[..0] == before;
    for j := 0 to |s|
      invariant seen == Ids(before + s[..j]) && out == FirstById(before + s[..j])
    {
      PrefixStep(before, s, j);
      if s[j].id !in seen {
        seen := seen + {s[j].id};
        out := out + [s[j]];
      }
    }
    assert s[..|s|] == s;
  }

  /** deduplicateResources: first occurrence by ID across the slices. */
  method DeduplicateRecords<D>(slices: seq<seq<Record<D>>>) returns (out: seq<Record<D>>)
    ensures out == FirstById(Chain(slices))
  {
    var seen: set<string> := {};
    out := [];
    for i := 0 to |slices|
      invariant seen == Ids(Chain(slices[..i])) && out == FirstById(Chain(slices[..i]))
    {
      ChainStep(slices, i);
      seen, out := AddSlice(slices[i], seen, out, Chain(slices[..i]));
    }
    assert slices[..|slices|] == slices;
  }

  lemma ChainStep<D>(slices: seq<seq<Record<D>>>, i: nat)
    requires i < |slices|
    ensures Chain(slices[..i + 1]) == Chain(slices[..i]) + slices[i]
  {
    assert slices[..i + 1][..i] == slices[..i];
  }
}
