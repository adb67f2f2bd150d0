/** The flaw resolver: picks the tracker bugs out of an advisory's attached
    bugs, and matches tracker bugs with the flaw bugs they block, failing in
    strict mode when some tracker blocks no flaw. */
module FlawResolver {
  import opened Wrappers
  import opened Seqs
  import opened Render
  import opened Bugs

  // ---------------------------------------------------------------------
  // get_tracker_bugs

  /** One non-permissive batch fetch of every attached id, with the caller's fields. */
  function TrackerBugsRequest(advisory: Advisory, fields: seq<string>): Request {
    Fetch(advisory.errataBugs, fields, false)
  }

  /** The tracker bugs among the advisory's attached bugs, in the order the
      service returns them. */
  function GetTrackerBugs(cfg: Config, store: Store, advisory: Advisory, fields: seq<string>): (r: seq<Bug>)
    ensures forall b :: b in r <==>
      IsTracker(cfg, b) && exists i :: i in advisory.errataBugs && i in store && store[i] == b
  {
    ResolveMembers(store, advisory.errataBugs);
    Filter((b: Bug) => IsTracker(cfg, b), Answer(store, TrackerBugsRequest(advisory, fields)))
  }

  /** Splitting the attached ids splits the result the same way: the trackers
      come back in the order of the advisory's ids. */
  lemma GetTrackerBugsInOrder(cfg: Config, store: Store, a: seq<BugId>, b: seq<BugId>, fields: seq<string>)
    ensures GetTrackerBugs(cfg, store, Advisory(a + b), fields)
         == GetTrackerBugs(cfg, store, Advisory(a), fields) + GetTrackerBugs(cfg, store, Advisory(b), fields)
  {
    ResolveAppend(store, a, b);
    FilterAppend((t: Bug) => IsTracker(cfg, t), Resolve(store, a), Resolve(store, b));
  }

  // ---------------------------------------------------------------------
  // get_corresponding_flaw_bugs

  const ProductField: string := "product"
  const ComponentField: string := "component"

  function WithField(fields: seq<string>, f: string): seq<string> {
    if f in fields then fields else fields + [f]
  }

  /** The caller's fields, followed by the two fields the flaw test needs when
      they are not already requested. */
  function FlawFields(fields: seq<string>): (r: seq<string>)
    ensures |fields| <= |r| && r[..|fields|] == fields
    ensures ProductField in r && ComponentField in r
    ensures forall f :: f in r ==> f in fields || f == ProductField || f == ComponentField
    ensures ProductField !in fields && ComponentField !in fields ==>
      r == fields + [ProductField, ComponentField]
  {
    var r := WithField(WithField(fields, ProductField), ComponentField);
    assert WithField(fields, ProductField)[..|fields|] == fields;
    r
  }

  /** Every id some tracker blocks, tracker by tracker. */
  function BlockedIds(trackers: seq<Bug>): (r: seq<BugId>)
    ensures forall x :: x in r <==> exists t :: t in trackers && x in t.blocks
  {
    if trackers == [] then [] else trackers[0].blocks + BlockedIds(trackers[1..])
  }

  /** The blocked ids of a list of trackers are those of its first part
      followed by those of the rest, so they run tracker by tracker. */
  lemma {:induction false} BlockedIdsAppend(a: seq<Bug>, b: seq<Bug>)
    ensures BlockedIds(a + b) == BlockedIds(a) + BlockedIds(b)
  {
    if a == [] {
      assert a + b == b;
    } else {
      assert (a + b)[1..] == a[1..] + b;
      BlockedIdsAppend(a[1..], b);
    }
  }

  /** One batch fetch of the blocked ids, each once, in first-occurrence order. */
  function FlawBugsRequest(trackers: seq<Bug>, fields: seq<string>): (q: Request)
    ensures q.BatchFetch? && q.fields == FlawFields(fields)
    ensures NoDuplicates(q.ids)
    ensures forall x :: x in q.ids <==> exists t :: t in trackers && x in t.blocks
    ensures forall x :: x in q.ids ==> x in BlockedIds(trackers)
    ensures forall i, j :: 0 <= i < j < |q.ids| ==>
      FirstIndex(BlockedIds(trackers), q.ids[i]) < FirstIndex(BlockedIds(trackers), q.ids[j])
  {
    DedupFirstOccurrenceOrder(BlockedIds(trackers));
    BatchFetch(Dedup(BlockedIds(trackers)), FlawFields(fields))
  }

  /** The fetched flaw bugs a tracker blocks, in the order of the flaw list. */
  function MatchedFlaws(t: Bug, flaws: seq<Bug>): (r: seq<Bug>)
    ensures forall f :: f in r <==> f in flaws && f.id in t.blocks
  {
    Filter((f: Bug) => f.id in t.blocks, flaws)
  }

  /** `trackers[i]` is the last tracker in the list with its id. */
  predicate LastWithId(trackers: seq<Bug>, i: int) {
    0 <= i < |trackers| && forall j :: i < j < |trackers| ==> trackers[j].id != trackers[i].id
  }

  /** The map from each tracker's id to the flaw bugs it blocks; when two
      trackers share an id the later one wins, as in a dictionary built in
      list order. */
  function TrackerFlaws(trackers: seq<Bug>, flaws: seq<Bug>): (m: map<BugId, seq<Bug>>)
    ensures m.Keys == IdSet(trackers)
    ensures forall i :: LastWithId(trackers, i) ==> m[trackers[i].id] == MatchedFlaws(trackers[i], flaws)
    decreases |trackers|
  {
    if trackers == [] then map[]
    else
      var n := |trackers| - 1;
      var m := TrackerFlaws(trackers[..n], flaws);
      TrackerFlawsStep(trackers[..n], trackers[n], flaws, m);
      assert trackers[..n] + [trackers[n]] == trackers;
      m[trackers[n].id := MatchedFlaws(trackers[n], flaws)]
  }

  /** Adding the last tracker's entry to the map of all the others gives the
      map of the whole list. */
  lemma TrackerFlawsStep(init: seq<Bug>, last: Bug, flaws: seq<Bug>, m: map<BugId, seq<Bug>>)
    requires m.Keys == IdSet(init)
    requires forall i :: LastWithId(init, i) ==> m[init[i].id] == MatchedFlaws(init[i], flaws)
    ensures var m' := m[last.id := MatchedFlaws(last, flaws)];
      && m'.Keys == IdSet(init + [last])
      && forall i :: LastWithId(init + [last], i) ==> m'[(init + [last])[i].id] == MatchedFlaws((init + [last])[i], flaws)
  {
    var trackers := init + [last];
    var m' := m[last.id := MatchedFlaws(last, flaws)];
    IdSetAppend(init, [last]);
    assert IdSet([last]) == {last.id};
    forall i | LastWithId(trackers, i)
      ensures m'[trackers[i].id] == MatchedFlaws(trackers[i], flaws)
    {
      if i < |init| {
        assert trackers[i] == init[i];
        assert trackers[|init|] == last;
        forall j | i < j < |init| ensures init[j].id != init[i].id {
          assert trackers[j] == init[j];
        }
        assert LastWithId(init, i);
      }
    }
  }

  /** The ids of a list of records, as a set. */
  function IdSet(bugs: seq<Bug>): set<BugId> {
    set b | b in bugs :: b.id
  }

  lemma IdSetAppend(a: seq<Bug>, b: seq<Bug>)
    ensures IdSet(a + b) == IdSet(a) + IdSet(b)
  {
  }

  /** What the resolver returns: the map from tracker id to flaw bugs, then
      the flaw bugs. */
  datatype FlawMatch = FlawMatch(trackerFlaws: map<BugId, seq<Bug>>, flaws: seq<Bug>)

  function MatchFlaws(store: Store, trackers: seq<Bug>, fields: seq<string>): (r: FlawMatch)
    ensures forall f :: f in r.flaws ==> IsFlaw(f)
  {
    var flaws := Filter(IsFlaw, Answer(store, FlawBugsRequest(trackers, fields)));
    FlawMatch(TrackerFlaws(trackers, flaws), flaws)
  }

  /** The ids of the trackers whose entry in `m` is empty, ascending. */
  function UnmatchedIds(trackers: seq<Bug>, m: map<BugId, seq<Bug>>): (r: seq<BugId>)
    ensures StrictlyIncreasing(r)
    ensures forall id :: id in r <==> id in IdSet(trackers) && id in m && m[id] == []
  {
    var ids := Ids(trackers);
    assert forall id :: id in ids <==> id in IdSet(trackers) by {
      forall id ensures id in ids <==> id in IdSet(trackers) {
        if id in ids {
          var k :| 0 <= k < |ids| && ids[k] == id;
          assert trackers[k] in trackers;
        }
        if id in IdSet(trackers) {
          var t :| t in trackers && t.id == id;
          var k :| 0 <= k < |trackers| && trackers[k] == t;
          assert ids[k] == id;
        }
      }
    }
    SortedUnique(Filter((id: BugId) => id in m && m[id] == [], ids))
  }

  const NoFlawPrefix: string := "No flaw bugs could be found for these trackers: "

  function NoFlawMessage(ids: seq<BugId>): string {
    NoFlawPrefix + SetLiteral(ids)
  }

  /** get_corresponding_flaw_bugs: the fatal error text in strict mode when
      some entry of the tracker map is empty, the match otherwise. */
  function GetCorrespondingFlawBugs(store: Store, trackers: seq<Bug>, fields: seq<string>, strict: bool)
    : (r: Result<FlawMatch>)
    ensures !strict ==> r.Success?
    ensures r.Success? ==> r.value == MatchFlaws(store, trackers, fields)
  {
    var m := MatchFlaws(store, trackers, fields);
    var missing := UnmatchedIds(trackers, m.trackerFlaws);
    if strict && missing != [] then Failure(NoFlawMessage(missing)) else Success(m)
  }

  // ---------------------------------------------------------------------
  // Properties of the resolver

  /** The id of a flaw bug the service knows under that id. */
  predicate ValidFlawId(store: Store, x: BugId) {
    x in store && IsFlaw(store[x])
  }

  /** The flaw list holds exactly the known flaw bugs that some tracker blocks. */
  lemma FlawsAreBlockedFlaws(store: Store, trackers: seq<Bug>, fields: seq<string>)
    requires WellFormed(store)
    ensures forall f :: f in MatchFlaws(store, trackers, fields).flaws <==>
      ValidFlawId(store, f.id) && store[f.id] == f && exists t :: t in trackers && f.id in t.blocks
  {
    var q := FlawBugsRequest(trackers, fields);
    ResolveMembers(store, q.ids);
    forall f ensures f in MatchFlaws(store, trackers, fields).flaws <==>
      ValidFlawId(store, f.id) && store[f.id] == f && exists t :: t in trackers && f.id in t.blocks
    {
      if f in Resolve(store, q.ids) {
        var i :| i in q.ids && i in store && store[i] == f;
      }
      if ValidFlawId(store, f.id) && store[f.id] == f && exists t :: t in trackers && f.id in t.blocks {
        assert f.id in q.ids;
      }
    }
  }

  /** No flaw bug is listed twice. */
  lemma FlawsDistinct(store: Store, trackers: seq<Bug>, fields: seq<string>)
    requires WellFormed(store)
    ensures NoDuplicates(Ids(MatchFlaws(store, trackers, fields).flaws))
  {
    var fetched := Resolve(store, FlawBugsRequest(trackers, fields).ids);
    ResolveDistinct(store, FlawBugsRequest(trackers, fields).ids);
    FilterKeepsDistinctIds(IsFlaw, fetched);
  }

  lemma {:induction false} FilterKeepsDistinctIds(p: Bug -> bool, bugs: seq<Bug>)
    requires NoDuplicates(Ids(bugs))
    ensures NoDuplicates(Ids(Filter(p, bugs)))
  {
    if bugs != [] {
      var rest := bugs[1..];
      assert Ids(rest) == Ids(bugs)[1..];
      FilterKeepsDistinctIds(p, rest);
      var fr := Filter(p, rest);
      if p(bugs[0]) {
        assert Ids([bugs[0]] + fr) == [bugs[0].id] + Ids(fr);
        forall k | 0 <= k < |fr| ensures Ids(fr)[k] != bugs[0].id {
          assert fr[k] in rest;
          var j :| 0 <= j < |rest| && rest[j] == fr[k];
          assert Ids(bugs)[j + 1] == fr[k].id;
          assert Ids(bugs)[0] == bugs[0].id;
        }
        NoDuplicatesCons(bugs[0].id, Ids(fr));
      } else {
        assert [] + fr == fr;
      }
    }
  }

  /** Each tracker (the last one, for a repeated id) maps to exactly the
      known flaw bugs it blocks, each once, in the order of the flaw list. */
  lemma TrackerFlawsExact(store: Store, trackers: seq<Bug>, fields: seq<string>, i: int)
    requires WellFormed(store)
    requires LastWithId(trackers, i)
    ensures var m := MatchFlaws(store, trackers, fields);
      && trackers[i].id in m.trackerFlaws
      && m.trackerFlaws[trackers[i].id] == Filter((f: Bug) => f.id in trackers[i].blocks, m.flaws)
      && (forall f :: f in m.trackerFlaws[trackers[i].id] <==>
            f.id in trackers[i].blocks && ValidFlawId(store, f.id) && store[f.id] == f)
      && NoDuplicates(Ids(m.trackerFlaws[trackers[i].id]))
  {
    var t := trackers[i];
    assert t in trackers;
    FlawsAreBlockedFlaws(store, trackers, fields);
    FlawsDistinct(store, trackers, fields);
    FilterKeepsDistinctIds((f: Bug) => f.id in t.blocks, MatchFlaws(store, trackers, fields).flaws);
  }

  /** A blocked id has a record in its tracker's entry exactly when the
      service knows it as a flaw bug. */
  lemma MatchedIdExact(store: Store, trackers: seq<Bug>, fields: seq<string>, i: int, x: BugId)
    requires WellFormed(store)
    requires LastWithId(trackers, i) && x in trackers[i].blocks
    ensures trackers[i].id in MatchFlaws(store, trackers, fields).trackerFlaws
    ensures (exists f :: f in MatchFlaws(store, trackers, fields).trackerFlaws[trackers[i].id] && f.id == x)
        <==> ValidFlawId(store, x)
  {
    TrackerFlawsExact(store, trackers, fields, i);
    if ValidFlawId(store, x) {
      var f := store[x];
      assert f.id == x;
      assert f in MatchFlaws(store, trackers, fields).trackerFlaws[trackers[i].id];
    }
  }

  /** Some tracker's blocks hold no known flaw bug; for a repeated tracker id
      only the last tracker with that id is looked at. */
  ghost predicate Unresolved(store: Store, trackers: seq<Bug>, id: BugId) {
    exists i :: LastWithId(trackers, i) && trackers[i].id == id &&
      forall x :: x in trackers[i].blocks ==> !ValidFlawId(store, x)
  }

  lemma UnresolvedExact(store: Store, trackers: seq<Bug>, fields: seq<string>, id: BugId)
    requires WellFormed(store)
    ensures id in UnmatchedIds(trackers, MatchFlaws(store, trackers, fields).trackerFlaws) <==>
      Unresolved(store, trackers, id)
  {
    var m := MatchFlaws(store, trackers, fields).trackerFlaws;
    if id in IdSet(trackers) {
      var i := LastIndexWithId(trackers, id);
      TrackerFlawsExact(store, trackers, fields, i);
      assert m[id] == [] <==> forall x :: x in trackers[i].blocks ==> !ValidFlawId(store, x) by {
        if m[id] != [] {
          assert m[id][0] in m[id];
        }
        forall x | x in trackers[i].blocks && ValidFlawId(store, x) ensures m[id] != [] {
          MatchedIdExact(store, trackers, fields, i, x);
        }
      }
      forall j | LastWithId(trackers, j) && trackers[j].id == id ensures j == i {
      }
    } else {
      forall j | LastWithId(trackers, j) ensures trackers[j].id != id {
        assert trackers[j] in trackers;
      }
    }
  }

  /** The position of the last tracker with a given id. */
  function LastIndexWithId(trackers: seq<Bug>, id: BugId): (i: int)
    requires id in IdSet(trackers)
    ensures LastWithId(trackers, i) && trackers[i].id == id
    decreases |trackers|
  {
    var n := |trackers| - 1;
    if trackers[n].id == id then n
    else
      assert id in IdSet(trackers[..n]) by {
        var t :| t in trackers && t.id == id;
        assert t != trackers[n];
        var k :| 0 <= k < |trackers| && trackers[k] == t;
        assert trackers[..n][k] == t;
      }
      var i := LastIndexWithId(trackers[..n], id);
      assert trackers[..n][i] == trackers[i];
      i
  }

  /** The ascending list the strict-mode message renders is exactly the
      unresolved tracker ids. */
  lemma MissingExact(store: Store, trackers: seq<Bug>, fields: seq<string>)
    requires WellFormed(store)
    ensures forall id :: id in UnmatchedIds(trackers, MatchFlaws(store, trackers, fields).trackerFlaws) <==>
      Unresolved(store, trackers, id)
  {
    forall id ensures id in UnmatchedIds(trackers, MatchFlaws(store, trackers, fields).trackerFlaws) <==>
      Unresolved(store, trackers, id)
    {
      UnresolvedExact(store, trackers, fields, id);
    }
  }

  /** Strict mode fails exactly when the last tracker with some id blocks no
      known flaw bug, and its message lists all such tracker ids once each,
      ascending, as a set literal. */
  lemma StrictFailure(store: Store, trackers: seq<Bug>, fields: seq<string>)
    requires WellFormed(store)
    ensures GetCorrespondingFlawBugs(store, trackers, fields, true).Failure? <==>
      exists id :: Unresolved(store, trackers, id)
    ensures GetCorrespondingFlawBugs(store, trackers, fields, true).Failure? ==>
      exists ids :: ids != [] && StrictlyIncreasing(ids) &&
        (forall id :: id in ids <==> Unresolved(store, trackers, id)) &&
        GetCorrespondingFlawBugs(store, trackers, fields, true).error == NoFlawPrefix + SetLiteral(ids)
  {
    var r := GetCorrespondingFlawBugs(store, trackers, fields, true);
    var missing := UnmatchedIds(trackers, MatchFlaws(store, trackers, fields).trackerFlaws);
    MissingExact(store, trackers, fields);
    assert r.Failure? <==> missing != [];
    if missing != [] {
      assert missing[0] in missing;
      assert Unresolved(store, trackers, missing[0]);
    }
    if exists id :: Unresolved(store, trackers, id) {
      var id :| Unresolved(store, trackers, id);
      assert id in missing;
    }
    if r.Failure? {
      assert r.error == NoFlawPrefix + SetLiteral(missing);
    }
  }
}
