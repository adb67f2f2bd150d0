/** The concrete situations the repository's tests pin down, each stated as
    a lemma over the model. */
module Scenarios {
  import opened Wrappers
  import opened Seqs
  import opened Render
  import opened Bugs
  import opened FlawResolver
  import opened FirstFix

  /** A record with only the fields a scenario cares about set. */
  function Record(id: BugId, keywords: set<string>): Bug {
    Bug(id, keywords, "", "", "", "", "", [], [], [])
  }

  function FlawRecord(id: BugId, product: string, component: string): Bug {
    Record(id, {}).(product := product, component := component)
  }

  function Blocking(id: BugId, blocks: seq<BugId>): Bug {
    Record(id, {}).(blocks := blocks)
  }

  function TrackerRecord(cfg: Config, id: BugId, whiteboard: string, release: string, status: string): Bug {
    Record(id, cfg.trackerKeywords).(product := cfg.releaseProduct, whiteboard := whiteboard,
                                     targetRelease := [release], status := status)
  }

  // ---------------------------------------------------------------------
  // is_tracker_bug

  lemma TrackerKeywordScenarios(cfg: Config)
    requires Evidenced(cfg)
    ensures IsTracker(cfg, Record(1, cfg.trackerKeywords))
    ensures !IsTracker(cfg, Record(1, {"SomeOtherKeyword"}))
  {
    var k :| k in cfg.trackerKeywords;
    assert k in Record(1, cfg.trackerKeywords).keywords;
  }

  // ---------------------------------------------------------------------
  // get_tracker_bugs

  lemma TrackerBugsScenario(cfg: Config)
    requires Evidenced(cfg)
    ensures var valid, invalid := Record(123, cfg.trackerKeywords), Record(456, {});
      var store := map[123 := valid, 456 := invalid];
      && TrackerBugsRequest(Advisory([123, 456]), ["keywords"]) == Fetch([123, 456], ["keywords"], false)
      && GetTrackerBugs(cfg, store, Advisory([123, 456]), ["keywords"]) == [valid]
  {
    var valid, invalid := Record(123, cfg.trackerKeywords), Record(456, {});
    var store := map[123 := valid, 456 := invalid];
    TrackerKeywordScenarios(cfg);
    assert IsTracker(cfg, valid);
    assert !IsTracker(cfg, invalid);
    assert [123, 456][1..] == [456];
    assert Resolve(store, [456]) == [invalid];
    assert Resolve(store, [123, 456]) == [valid, invalid];
    var p := (b: Bug) => IsTracker(cfg, b);
    assert [valid, invalid][1..] == [invalid];
    assert Filter(p, [invalid]) == [];
    assert Filter(p, [valid, invalid]) == [valid];
  }

  // ---------------------------------------------------------------------
  // get_corresponding_flaw_bugs

  const Flaw1: Bug := FlawRecord(1, FlawProduct, FlawComponent)
  const Flaw2: Bug := FlawRecord(2, FlawProduct, FlawComponent)
  const WrongProduct3: Bug := FlawRecord(3, "foo", FlawComponent)
  const WrongComponent4: Bug := FlawRecord(4, FlawProduct, "bar")
  const MatchTrackers: seq<Bug> := [Blocking(10, [1, 2]), Blocking(11, [2, 3, 4])]
  const MatchStore: Store := map[1 := Flaw1, 2 := Flaw2, 3 := WrongProduct3, 4 := WrongComponent4]

  /** The flaw query asks once for each blocked id, in first-occurrence order,
      with the product and component fields added; two of the four records
      it returns are flaw bugs. */
  lemma FlawBugsScenario()
    ensures FlawBugsRequest(MatchTrackers, ["somefield"]) == BatchFetch([1, 2, 3, 4], ["somefield", "product", "component"])
    ensures GetCorrespondingFlawBugs(MatchStore, MatchTrackers, ["somefield"], false).Success?
    ensures GetCorrespondingFlawBugs(MatchStore, MatchTrackers, ["somefield"], false).value.flaws == [Flaw1, Flaw2]
  {
    MatchRequest();
    MatchAnswer();
  }

  lemma MatchRequest()
    ensures FlawBugsRequest(MatchTrackers, ["somefield"]) == BatchFetch([1, 2, 3, 4], ["somefield", "product", "component"])
  {
    assert MatchTrackers[1..] == [Blocking(11, [2, 3, 4])];
    assert BlockedIds(MatchTrackers) == [1, 2, 2, 3, 4];
    DedupFive();
  }

  lemma MatchAnswer()
    ensures Filter(IsFlaw, Resolve(MatchStore, [1, 2, 3, 4])) == [Flaw1, Flaw2]
  {
    ResolveFour(MatchStore);
    assert MatchStore[1] == Flaw1 && MatchStore[2] == Flaw2 && MatchStore[3] == WrongProduct3 && MatchStore[4] == WrongComponent4;
    KeepFirstTwo(IsFlaw, Flaw1, Flaw2, WrongProduct3, WrongComponent4);
  }

  /** Filtering four records of which only the first two pass. */
  lemma KeepFirstTwo(p: Bug -> bool, b1: Bug, b2: Bug, b3: Bug, b4: Bug)
    requires p(b1) && p(b2) && !p(b3) && !p(b4)
    ensures Filter(p, [b1, b2, b3, b4]) == [b1, b2]
  {
    var good, bad := [b1, b2], [b3, b4];
    assert good + bad == [b1, b2, b3, b4];
    FilterAppend(p, good, bad);
    FilterAll(p, good);
    FilterNone(p, bad);
  }

  lemma DedupTwo()
    ensures Dedup<BugId>([1, 2]) == [1, 2]
  {
    var e: seq<BugId>, s1: seq<BugId> := [], [1];
    DedupSnoc(e, 1);
    assert e + [1] == s1;
    DedupSnoc(s1, 2);
    assert s1 + [2] == [1, 2];
  }

  lemma DedupThree()
    ensures Dedup<BugId>([1, 2, 2]) == [1, 2]
  {
    var s2: seq<BugId> := [1, 2];
    DedupTwo();
    DedupSnoc(s2, 2);
    assert s2 + [2] == [1, 2, 2];
  }

  lemma DedupFour()
    ensures Dedup<BugId>([1, 2, 2, 3]) == [1, 2, 3]
  {
    var s3: seq<BugId> := [1, 2, 2];
    DedupThree();
    DedupSnoc(s3, 3);
    assert s3 + [3] == [1, 2, 2, 3];
  }

  lemma DedupFive()
    ensures Dedup<BugId>([1, 2, 2, 3, 4]) == [1, 2, 3, 4]
  {
    var s4: seq<BugId> := [1, 2, 2, 3];
    DedupFour();
    DedupSnoc(s4, 4);
    assert s4 + [4] == [1, 2, 2, 3, 4];
  }

  lemma ResolveThree(b1: Bug, b2: Bug, b3: Bug)
    ensures Resolve(map[1 := b1, 2 := b2, 3 := b3], [1, 2, 3]) == [b1, b2, b3]
  {
    var store := map[1 := b1, 2 := b2, 3 := b3];
    var ids: seq<BugId> := [1, 2, 3];
    assert ids[1..] == [2, 3] && ids[1..][1..] == [3];
    assert Resolve(store, [3]) == [b3];
    assert Resolve(store, [2, 3]) == [b2, b3];
  }

  lemma ResolveFour(store: Store)
    requires 1 in store && 2 in store && 3 in store && 4 in store
    ensures Resolve(store, [1, 2, 3, 4]) == [store[1], store[2], store[3], store[4]]
  {
    ResolveAppend(store, [1, 2], [3, 4]);
    assert [1, 2] + [3, 4] == [1, 2, 3, 4];
    ResolvePair(store, 1, 2);
    ResolvePair(store, 3, 4);
  }

  lemma ResolvePair(store: Store, i: BugId, j: BugId)
    requires i in store && j in store
    ensures Resolve(store, [i, j]) == [store[i], store[j]]
  {
    assert [i, j][1..] == [j];
    assert Resolve(store, [j]) == [store[j]];
  }

  function Keep(p: Bug -> bool, b: Bug): seq<Bug> {
    if p(b) then [b] else []
  }

  lemma FilterThree(p: Bug -> bool, b1: Bug, b2: Bug, b3: Bug)
    ensures Filter(p, [b1, b2, b3]) == Keep(p, b1) + Keep(p, b2) + Keep(p, b3)
  {
    var bs := [b1, b2, b3];
    assert bs[1..] == [b2, b3] && bs[1..][1..] == [b3];
    assert Filter(p, [b3]) == Keep(p, b3);
  }

  const BadComponent1: Bug := FlawRecord(1, FlawProduct, "wrong_component")
  const BadProduct2: Bug := FlawRecord(2, "wrong_product", FlawComponent)
  const Flaw3: Bug := FlawRecord(3, FlawProduct, FlawComponent)
  const StrictTrackers: seq<Bug> := [Blocking(10, [1, 2]), Blocking(11, [2, 3]), Blocking(12, [])]
  const StrictStore: Store := map[1 := BadComponent1, 2 := BadProduct2, 3 := Flaw3]

  /** In strict mode, trackers 10 and 12 match no flaw bug and the call fails
      naming both. */
  lemma StrictScenario()
    ensures GetCorrespondingFlawBugs(StrictStore, StrictTrackers, ["some_field"], true)
         == Failure("No flaw bugs could be found for these trackers: {10, 12}")
  {
    StrictMatch();
    StrictMissing();
    StrictMessage();
  }

  lemma StrictMatch()
    ensures MatchFlaws(StrictStore, StrictTrackers, ["some_field"]) == FlawMatch(TrackerFlaws(StrictTrackers, [Flaw3]), [Flaw3])
  {
    StrictFlaws();
    MatchFlawsOf(StrictStore, StrictTrackers, ["some_field"], [Flaw3]);
  }

  lemma MatchFlawsOf(store: Store, trackers: seq<Bug>, fields: seq<string>, flaws: seq<Bug>)
    requires Filter(IsFlaw, Answer(store, FlawBugsRequest(trackers, fields))) == flaws
    ensures MatchFlaws(store, trackers, fields) == FlawMatch(TrackerFlaws(trackers, flaws), flaws)
  {
  }

  lemma StrictMissing()
    ensures UnmatchedIds(StrictTrackers, TrackerFlaws(StrictTrackers, [Flaw3])) == [10, 12]
  {
    StrictMap();
    StrictIds();
    UnmatchedOfThree(StrictTrackers, TrackerFlaws(StrictTrackers, [Flaw3]), 10, 11, 12);
  }

  lemma StrictIds()
    ensures IdSet(StrictTrackers) == {10, 11, 12}
  {
    assert StrictTrackers[0] in StrictTrackers && StrictTrackers[1] in StrictTrackers && StrictTrackers[2] in StrictTrackers;
  }

  /** Three trackers, of which the middle one matched something. */
  lemma UnmatchedOfThree(trackers: seq<Bug>, m: map<BugId, seq<Bug>>, a: BugId, b: BugId, c: BugId)
    requires a < b < c
    requires IdSet(trackers) == {a, b, c} && m.Keys == {a, b, c}
    requires m[a] == [] && m[b] != [] && m[c] == []
    ensures UnmatchedIds(trackers, m) == [a, c]
  {
    var e := [a, c];
    assert forall id :: id in e <==> id == a || id == c;
    UnmatchedOf(trackers, m, e);
  }

  /** The unmatched ids are determined by which tracker ids map to nothing. */
  lemma UnmatchedOf(trackers: seq<Bug>, m: map<BugId, seq<Bug>>, expected: seq<BugId>)
    requires StrictlyIncreasing(expected)
    requires forall id :: id in expected <==> id in IdSet(trackers) && id in m && m[id] == []
    ensures UnmatchedIds(trackers, m) == expected
  {
    StrictlyIncreasingUnique(UnmatchedIds(trackers, m), expected);
  }

  lemma StrictFlaws()
    ensures Answer(StrictStore, FlawBugsRequest(StrictTrackers, ["some_field"])) == [BadComponent1, BadProduct2, Flaw3]
    ensures Filter(IsFlaw, [BadComponent1, BadProduct2, Flaw3]) == [Flaw3]
  {
    assert StrictTrackers[1..] == [Blocking(11, [2, 3]), Blocking(12, [])];
    assert StrictTrackers[1..][1..] == [Blocking(12, [])];
    assert BlockedIds(StrictTrackers) == [1, 2, 2, 3];
    DedupFour();
    ResolveThree(BadComponent1, BadProduct2, Flaw3);
    FilterThree(IsFlaw, BadComponent1, BadProduct2, Flaw3);
  }

  lemma StrictMap()
    ensures var m := TrackerFlaws(StrictTrackers, [Flaw3]);
      m.Keys == {10, 11, 12} && m[10] == [] && m[11] != [] && m[12] == []
  {
    TrackerFlawsThree(Blocking(10, [1, 2]), Blocking(11, [2, 3]), Blocking(12, []), [Flaw3]);
    NoMatch(Blocking(10, [1, 2]), [Flaw3]);
    NoMatch(Blocking(12, []), [Flaw3]);
    assert Flaw3 in MatchedFlaws(Blocking(11, [2, 3]), [Flaw3]);
  }

  /** The tracker map of three trackers with distinct ids. */
  lemma TrackerFlawsThree(t1: Bug, t2: Bug, t3: Bug, flaws: seq<Bug>)
    requires t1.id != t2.id && t1.id != t3.id && t2.id != t3.id
    ensures var m := TrackerFlaws([t1, t2, t3], flaws);
      && m.Keys == {t1.id, t2.id, t3.id}
      && m[t1.id] == MatchedFlaws(t1, flaws)
      && m[t2.id] == MatchedFlaws(t2, flaws)
      && m[t3.id] == MatchedFlaws(t3, flaws)
  {
    var ts := [t1, t2, t3];
    assert ts[0] in ts && ts[1] in ts && ts[2] in ts;
    assert IdSet(ts) == {t1.id, t2.id, t3.id};
    assert LastWithId(ts, 0) && LastWithId(ts, 1) && LastWithId(ts, 2);
  }

  /** A tracker that blocks none of the flaw bugs maps to nothing. */
  lemma NoMatch(t: Bug, flaws: seq<Bug>)
    requires forall i :: 0 <= i < |flaws| ==> flaws[i].id !in t.blocks
    ensures MatchedFlaws(t, flaws) == []
  {
    FilterNone((f: Bug) => f.id in t.blocks, flaws);
  }

  lemma StrictMessage()
    ensures NoFlawMessage([10, 12]) == "No flaw bugs could be found for these trackers: {10, 12}"
  {
    TwoDigits(1, 0);
    TwoDigits(1, 2);
    assert [10, 12][1..] == [12];
    assert JoinIds([10, 12]) == Decimal(10) + ", " + Decimal(12);
    assert "10" + ", " + "12" == "10, 12";
    assert SetLiteral([10, 12]) == "{" + "10, 12" + "}";
    assert "{" + "10, 12" + "}" == "{10, 12}";
  }

  /** The numeral of a two-digit number. */
  lemma TwoDigits(d1: nat, d0: nat)
    requires 1 <= d1 < 10 && d0 < 10
    ensures Decimal(10 * d1 + d0) == [DigitChar(d1), DigitChar(d0)]
  {
    var n := 10 * d1 + d0;
    assert n / 10 == d1 && n % 10 == d0;
  }

  // ---------------------------------------------------------------------
  // is_first_fix_any

  const FixTarget: string := "4.8.0"

  lemma DegenerateFlawScenarios(cfg: Config, store: Store)
    ensures IsFirstFixAny(cfg, store, None, "4.8.z")
    ensures IsFirstFixAny(cfg, store, Some(Record(1, {}).(dependsOn := [])), FixTarget)
  {
  }

  /** The records the first-fix query returns for dependent ids [1, 2] when
      the service knows only record 1, filed under the release product. */
  lemma QueryOne(cfg: Config, b1: Bug)
    requires b1.product == cfg.releaseProduct
    ensures Answer(map[1 := b1], FirstFixRequest(cfg, Record(9, {}).(dependsOn := [1, 2]))) == [b1]
  {
    var store := map[1 := b1];
    assert [1, 2][1..] == [2];
    assert Resolve(store, [2]) == [];
    assert Resolve(store, [1, 2]) == [b1];
  }

  /** The same query when the service knows records 1 and 2. */
  lemma QueryTwo(cfg: Config, b1: Bug, b2: Bug)
    requires b1.product == cfg.releaseProduct && b2.product == cfg.releaseProduct
    ensures Answer(map[1 := b1, 2 := b2], FirstFixRequest(cfg, Record(9, {}).(dependsOn := [1, 2]))) == [b1, b2]
  {
    var store := map[1 := b1, 2 := b2];
    assert [1, 2][1..] == [2];
    assert Resolve(store, [2]) == [b2];
    assert Resolve(store, [1, 2]) == [b1, b2];
    var p := (b: Bug) => b.product == cfg.releaseProduct;
    assert [b1, b2][1..] == [b2];
    assert Filter(p, [b2]) == [b2];
  }

  lemma QueryThree(cfg: Config, b1: Bug, b2: Bug, b3: Bug)
    requires b1.product == cfg.releaseProduct && b2.product == cfg.releaseProduct && b3.product == cfg.releaseProduct
    ensures Answer(map[1 := b1, 2 := b2, 3 := b3], FirstFixRequest(cfg, Record(9, {}).(dependsOn := [1, 2, 3])))
         == [b1, b2, b3]
  {
    ResolveThree(b1, b2, b3);
    FilterThree((b: Bug) => b.product == cfg.releaseProduct, b1, b2, b3);
  }

  lemma TrackerRecordIsTracker(cfg: Config, id: BugId, whiteboard: string, release: string, status: string)
    requires Evidenced(cfg)
    ensures IsTracker(cfg, TrackerRecord(cfg, id, whiteboard, release, status))
  {
    var k :| k in cfg.trackerKeywords;
    assert k in TrackerRecord(cfg, id, whiteboard, release, status).keywords;
  }

  lemma ComponentOf(name: string)
    requires name != [] && NoSpace(name)
    ensures ParseComponent("component:" + name) == Some(name)
  {
    assert "component:" == ComponentTag;
    ParseComponentOfToken(name);
  }

  lemma Majors()
    ensures Major("3.11.z") == "3" && Major("4.7.z") == "4" && Major(FixTarget) == "4"
  {
    MajorOfRelease("3", "11.z");
    assert "3" + "." + "11.z" == "3.11.z";
    MajorOfRelease("4", "7.z");
    assert "4" + "." + "7.z" == "4.7.z";
    MajorOfRelease("4", "8.0");
    assert "4" + "." + "8.0" == FixTarget;
  }

  lemma NoTrackersScenario(cfg: Config)
    requires Evidenced(cfg)
    ensures var flaw := Record(9, {}).(dependsOn := [1, 2]);
      && FirstFixRequest(cfg, flaw) == ProductQuery(cfg.releaseProduct, [1, 2],
           ["keywords", "target_release", "status", "resolution", "whiteboard"])
      && IsFirstFixAny(cfg, map[1 := Record(1, {"foo"}).(product := cfg.releaseProduct)], Some(flaw), FixTarget)
  {
    var b1 := Record(1, {"foo"}).(product := cfg.releaseProduct);
    QueryOne(cfg, b1);
    assert NoTracker(cfg, [b1]);
  }

  lemma MissingComponentScenario(cfg: Config)
    requires Evidenced(cfg)
    ensures !IsFirstFixAny(cfg, map[1 := TrackerRecord(cfg, 1, "", FixTarget, "")],
                           Some(Record(9, {}).(dependsOn := [1, 2])), FixTarget)
  {
    var t1 := TrackerRecord(cfg, 1, "", FixTarget, "");
    QueryOne(cfg, t1);
    TrackerRecordIsTracker(cfg, 1, "", FixTarget, "");
    assert Component(t1) == None;
    AmbiguousTrackerGivesFalse(cfg, [t1], FixTarget, t1);
  }

  /** The whiteboard of the first-fix tests names the `runc` component. */
  lemma RuncComponent()
    ensures ParseComponent("component:runc") == Some("runc")
  {
    ComponentOf("runc");
    assert "component:" + "runc" == "component:runc";
  }

  /** The whiteboards of the any-component test name `runc` and `crio`. */
  lemma TwoComponents()
    ensures ParseComponent("component:runc") == Some("runc")
    ensures ParseComponent("component:crio") == Some("crio")
  {
    RuncComponent();
    ComponentOf("crio");
    assert "component:" + "crio" == "component:crio";
  }

  lemma SameMajorScenario(cfg: Config)
    requires Evidenced(cfg)
    ensures IsFirstFixAny(cfg,
                          map[1 := TrackerRecord(cfg, 1, "component:runc", "3.11.z", "RELEASE_PENDING"),
                              2 := TrackerRecord(cfg, 2, "component:runc", FixTarget, "ON_QA")],
                          Some(Record(9, {}).(dependsOn := [1, 2])), FixTarget)
  {
    var t1 := TrackerRecord(cfg, 1, "component:runc", "3.11.z", "RELEASE_PENDING");
    var t2 := TrackerRecord(cfg, 2, "component:runc", FixTarget, "ON_QA");
    QueryTwo(cfg, t1, t2);
    RuncComponent();
    Majors();
    TrackerRecordIsTracker(cfg, 2, "component:runc", FixTarget, "ON_QA");
    assert !InMajorLine(t1, FixTarget);
    assert CountsFor(cfg, t2, FixTarget, "runc");
    ComponentDecides(cfg, [t1, t2], FixTarget, "runc");
  }

  /** Two trackers of one component in the target's major line, the first
      of them fixed: no first fix. */
  lemma FixedComponentDecision(cfg: Config, t1: Bug, t2: Bug, target: string, c: string)
    requires IsTracker(cfg, t1) && CountsFor(cfg, t1, target, c) && IsFixed(cfg, t1)
    requires Component(t2) == Some(c)
    ensures !Decide(cfg, [t1, t2], target)
  {
    var fetched := [t1, t2];
    assert t1 in fetched;
    forall d ensures !ComponentFirstFix(cfg, fetched, target, d) {
      if exists t :: t in fetched && CountsFor(cfg, t, target, d) {
        var t :| t in fetched && CountsFor(cfg, t, target, d);
        assert d == c;
      }
    }
  }

  /** A fixed 4.7 tracker for the only component means 4.8 is not a first fix. */
  lemma AlreadyFixedScenario(cfg: Config)
    requires Evidenced(cfg)
    ensures !IsFirstFixAny(cfg,
                           map[1 := TrackerRecord(cfg, 1, "component:runc", "4.7.z", "RELEASE_PENDING"),
                               2 := TrackerRecord(cfg, 2, "component:runc", FixTarget, "ON_QA")],
                           Some(Record(9, {}).(dependsOn := [1, 2])), FixTarget)
  {
    var t1 := TrackerRecord(cfg, 1, "component:runc", "4.7.z", "RELEASE_PENDING");
    var t2 := TrackerRecord(cfg, 2, "component:runc", FixTarget, "ON_QA");
    QueryTwo(cfg, t1, t2);
    RuncComponent();
    Majors();
    TrackerRecordIsTracker(cfg, 1, "component:runc", "4.7.z", "RELEASE_PENDING");
    assert "4.7.z" in t1.targetRelease;
    assert InMajorLine(t1, FixTarget);
    FixedComponentDecision(cfg, t1, t2, FixTarget, "runc");
  }

  /** Three trackers, none ambiguous, the third the only counting one for its
      component and unfixed: a first fix. */
  lemma UnfixedComponentDecision(cfg: Config, t1: Bug, t2: Bug, t3: Bug, target: string, c: string)
    requires Component(t1).Some? && Component(t2).Some? && Component(t1) != Some(c) && Component(t2) != Some(c)
    requires CountsFor(cfg, t3, target, c) && !IsFixed(cfg, t3)
    ensures Decide(cfg, [t1, t2, t3], target)
  {
    ComponentDecides(cfg, [t1, t2, t3], target, c);
  }

  /** A second component with only an unfixed 4.8 tracker makes 4.8 a first fix. */
  lemma AnyComponentScenario(cfg: Config)
    requires Evidenced(cfg)
    ensures IsFirstFixAny(cfg,
                          map[1 := TrackerRecord(cfg, 1, "component:runc", "4.7.z", "RELEASE_PENDING"),
                              2 := TrackerRecord(cfg, 2, "component:runc", FixTarget, "ON_QA"),
                              3 := TrackerRecord(cfg, 3, "component:crio", FixTarget, "ON_QA")],
                          Some(Record(9, {}).(dependsOn := [1, 2, 3])), FixTarget)
  {
    var t1 := TrackerRecord(cfg, 1, "component:runc", "4.7.z", "RELEASE_PENDING");
    var t2 := TrackerRecord(cfg, 2, "component:runc", FixTarget, "ON_QA");
    var t3 := TrackerRecord(cfg, 3, "component:crio", FixTarget, "ON_QA");
    QueryThree(cfg, t1, t2, t3);
    TwoComponents();
    Majors();
    TrackerRecordIsTracker(cfg, 3, "component:crio", FixTarget, "ON_QA");
    assert CountsFor(cfg, t3, FixTarget, "crio");
    UnfixedComponentDecision(cfg, t1, t2, t3, FixTarget, "crio");
  }
}
