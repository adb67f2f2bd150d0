/** The first-fix analyzer: whether a target release is the first, within
    its major-version line, to fix a flaw for at least one affected
    component. */
module FirstFix {
  import opened Wrappers
  import opened Seqs
  import opened Bugs

  const FirstFixFields: seq<string> := ["keywords", "target_release", "status", "resolution", "whiteboard"]

  /** The query for the flaw's dependent bugs, restricted to the release
      family's product. */
  function FirstFixRequest(cfg: Config, flaw: Bug): Request {
    ProductQuery(cfg.releaseProduct, flaw.dependsOn, FirstFixFields)
  }

  /** The records the query returns are the known dependent bugs filed under
      the release family's product. */
  lemma FirstFixQueryContents(cfg: Config, store: Store, flaw: Bug)
    ensures forall b :: b in Answer(store, FirstFixRequest(cfg, flaw)) <==>
      b.product == cfg.releaseProduct && exists i :: i in flaw.dependsOn && i in store && store[i] == b
  {
    ResolveMembers(store, flaw.dependsOn);
  }

  /** A tracker without a usable component whose target releases include the
      release under test: the comparison cannot be trusted. */
  predicate Ambiguous(t: Bug, target: string) {
    Component(t).None? && target in t.targetRelease
  }

  /** Some record of `ts` has key `c`. */
  ghost predicate HasKey(key: Bug -> Option<string>, ts: seq<Bug>, c: string) {
    exists t :: t in ts && key(t) == Some(c)
  }

  /** `grp` holds exactly the records of `ts` with key `c`. */
  ghost predicate GroupOf(key: Bug -> Option<string>, ts: seq<Bug>, grp: seq<Bug>, c: string) {
    forall t :: t in grp <==> t in ts && key(t) == Some(c)
  }

  /** `g` files every record of `ts` that has a key under that key, and
      nothing else. */
  ghost predicate IsGrouping(key: Bug -> Option<string>, ts: seq<Bug>, g: map<string, seq<Bug>>) {
    && (forall c :: c in g <==> HasKey(key, ts, c))
    && (forall c :: c in g ==> GroupOf(key, ts, g[c], c))
  }

  /** The records that have a key, grouped by it, in list order within each
      group; records without one are left out. */
  function GroupBy(key: Bug -> Option<string>, ts: seq<Bug>): (g: map<string, seq<Bug>>)
    ensures IsGrouping(key, ts, g)
    decreases |ts|
  {
    if ts == [] then map[]
    else
      var n := |ts| - 1;
      var g := GroupBy(key, ts[..n]);
      assert ts[..n] + [ts[n]] == ts;
      GroupStep(key, ts[..n], ts[n], g);
      AddToGroup(key, g, ts[n])
  }

  /** Files one more record under its key, if it has one. */
  function AddToGroup(key: Bug -> Option<string>, g: map<string, seq<Bug>>, t: Bug): map<string, seq<Bug>> {
    match key(t)
    case None => g
    case Some(c) => g[c := (if c in g then g[c] else []) + [t]]
  }

  lemma GroupStep(key: Bug -> Option<string>, init: seq<Bug>, last: Bug, g: map<string, seq<Bug>>)
    requires IsGrouping(key, init, g)
    ensures IsGrouping(key, init + [last], AddToGroup(key, g, last))
  {
    var g' := AddToGroup(key, g, last);
    forall c ensures (c in g' <==> HasKey(key, init + [last], c)) && (c in g' ==> GroupOf(key, init + [last], g'[c], c)) {
      GroupStepAt(key, init, last, g, c);
    }
  }

  lemma GroupStepAt(key: Bug -> Option<string>, init: seq<Bug>, last: Bug, g: map<string, seq<Bug>>, c: string)
    requires IsGrouping(key, init, g)
    ensures var g' := AddToGroup(key, g, last);
      && (c in g' <==> HasKey(key, init + [last], c))
      && (c in g' ==> GroupOf(key, init + [last], g'[c], c))
  {
    var ts := init + [last];
    var g' := AddToGroup(key, g, last);
    assert forall t :: t in ts <==> t in init || t == last;
    assert c in g <==> HasKey(key, init, c);
    if key(last) == Some(c) {
      assert last in ts;
      var old_ := if c in g then g[c] else [];
      assert g'[c] == old_ + [last];
      assert forall t :: t in old_ <==> t in init && key(t) == Some(c);
    } else {
      assert c in g' <==> c in g;
      assert c in g' ==> g'[c] == g[c];
      assert HasKey(key, ts, c) <==> HasKey(key, init, c);
    }
  }

  /** The trackers with a usable whiteboard component, grouped by it. */
  function GroupByComponent(ts: seq<Bug>): (g: map<string, seq<Bug>>)
    ensures IsGrouping(Component, ts, g)
  {
    GroupBy(Component, ts)
  }

  predicate NoneFixed(cfg: Config, ts: seq<Bug>) {
    forall t :: t in ts ==> !IsFixed(cfg, t)
  }

  /** Some component's group holds no fixed tracker. */
  predicate AnyComponentUnfixed(cfg: Config, g: map<string, seq<Bug>>) {
    exists c :: c in g && NoneFixed(cfg, g[c])
  }

  /** The decision over the records the query returned. It is true exactly
      when no returned record is a tracker, or no tracker is ambiguous and
      some component is a first fix (the reference definition below). */
  function Decide(cfg: Config, fetched: seq<Bug>, target: string): (r: bool)
    ensures r <==>
      NoTracker(cfg, fetched) ||
      (!SomeTrackerAmbiguous(cfg, fetched, target) && SomeComponentFirstFix(cfg, fetched, target))
  {
    var trackers := Filter((t: Bug) => IsTracker(cfg, t), fetched);
    assert forall t :: t in trackers <==> t in fetched && IsTracker(cfg, t);
    if trackers == [] then
      assert NoTracker(cfg, fetched);
      true
    else
      assert !NoTracker(cfg, fetched) by {
        assert trackers[0] in trackers;
      }
      assert (exists t :: t in trackers && Ambiguous(t, target)) <==> SomeTrackerAmbiguous(cfg, fetched, target);
      if exists t :: t in trackers && Ambiguous(t, target) then false
      else
        var relevant := Filter((t: Bug) => InMajorLine(t, target), trackers);
        assert forall t :: t in relevant <==> t in fetched && IsTracker(cfg, t) && InMajorLine(t, target);
        var g := GroupByComponent(relevant);
        assert AnyComponentUnfixed(cfg, g) <==> SomeComponentFirstFix(cfg, fetched, target) by {
          forall c ensures (c in g && NoneFixed(cfg, g[c])) <==> ComponentFirstFix(cfg, fetched, target, c) {
            GroupEntry(cfg, fetched, target, relevant, g, c);
          }
        }
        AnyComponentUnfixed(cfg, g)
  }

  /** is_first_fix_any: true for an absent flaw or one without dependent bugs,
      whatever the service holds; otherwise the decision over the dependent
      bugs the query returns. */
  function IsFirstFixAny(cfg: Config, store: Store, flaw: Option<Bug>, target: string): (r: bool)
    ensures flaw.None? ==> r
    ensures flaw.Some? && flaw.value.dependsOn == [] ==> r
    ensures flaw.Some? && flaw.value.dependsOn != [] ==>
      r == Decide(cfg, Answer(store, FirstFixRequest(cfg, flaw.value)), target)
  {
    match flaw
    case None => true
    case Some(f) =>
      if f.dependsOn == [] then true
      else Decide(cfg, Answer(store, FirstFixRequest(cfg, f)), target)
  }

  // ---------------------------------------------------------------------
  // Reference definition of the decision

  /** `t` is a tracker in the target's major line filed against component `c`. */
  predicate CountsFor(cfg: Config, t: Bug, target: string, c: string) {
    IsTracker(cfg, t) && InMajorLine(t, target) && Component(t) == Some(c)
  }

  /** Component `c` has a counting tracker and none of its counting trackers is fixed. */
  ghost predicate ComponentFirstFix(cfg: Config, fetched: seq<Bug>, target: string, c: string) {
    && (exists t :: t in fetched && CountsFor(cfg, t, target, c))
    && (forall u :: u in fetched && CountsFor(cfg, u, target, c) ==> !IsFixed(cfg, u))
  }

  ghost predicate NoTracker(cfg: Config, fetched: seq<Bug>) {
    forall t :: t in fetched ==> !IsTracker(cfg, t)
  }

  ghost predicate SomeTrackerAmbiguous(cfg: Config, fetched: seq<Bug>, target: string) {
    exists t :: t in fetched && IsTracker(cfg, t) && Ambiguous(t, target)
  }

  ghost predicate SomeComponentFirstFix(cfg: Config, fetched: seq<Bug>, target: string) {
    exists c :: ComponentFirstFix(cfg, fetched, target, c)
  }

  lemma GroupEntry(cfg: Config, fetched: seq<Bug>, target: string, relevant: seq<Bug>, g: map<string, seq<Bug>>, c: string)
    requires forall t :: t in relevant <==> t in fetched && IsTracker(cfg, t) && InMajorLine(t, target)
    requires IsGrouping(Component, relevant, g)
    ensures (c in g && NoneFixed(cfg, g[c])) <==> ComponentFirstFix(cfg, fetched, target, c)
  {
    if c in g {
      assert forall u :: u in g[c] <==> u in fetched && CountsFor(cfg, u, target, c);
      var t :| t in relevant && Component(t) == Some(c);
      assert t in fetched && CountsFor(cfg, t, target, c);
    }
  }

  // ---------------------------------------------------------------------
  // Properties the analyzer promises

  /** A record outside the target's major line changes nothing, once some
      tracker was returned. */
  lemma OtherMajorLineIgnored(cfg: Config, fetched: seq<Bug>, target: string, t: Bug)
    requires exists u :: u in fetched && IsTracker(cfg, u)
    requires !InMajorLine(t, target)
    ensures Decide(cfg, fetched + [t], target) == Decide(cfg, fetched, target)
  {
    OtherMajorLineReference(cfg, fetched, target, t);
  }

  /** The reference definition does not see a record outside the target's
      major line, apart from its being a tracker. */
  lemma OtherMajorLineReference(cfg: Config, fetched: seq<Bug>, target: string, t: Bug)
    requires exists u :: u in fetched && IsTracker(cfg, u)
    requires !InMajorLine(t, target)
    ensures !NoTracker(cfg, fetched) && !NoTracker(cfg, fetched + [t])
    ensures SomeTrackerAmbiguous(cfg, fetched + [t], target) <==> SomeTrackerAmbiguous(cfg, fetched, target)
    ensures SomeComponentFirstFix(cfg, fetched + [t], target) <==> SomeComponentFirstFix(cfg, fetched, target)
  {
    var more := fetched + [t];
    assert forall x :: x in more <==> x in fetched || x == t;
    var u :| u in fetched && IsTracker(cfg, u);
    assert u in more;
    assert !Ambiguous(t, target) by {
      assert target in t.targetRelease ==> InMajorLine(t, target);
    }
    forall c ensures ComponentFirstFix(cfg, more, target, c) <==> ComponentFirstFix(cfg, fetched, target, c) {
      assert !CountsFor(cfg, t, target, c);
    }
  }

  /** An ambiguous tracker among the returned records makes the answer false. */
  lemma AmbiguousTrackerGivesFalse(cfg: Config, fetched: seq<Bug>, target: string, t: Bug)
    requires t in fetched && IsTracker(cfg, t) && Ambiguous(t, target)
    ensures !Decide(cfg, fetched, target)
  {
  }

  /** Once trackers were returned but none of them counts for the target's
      major line, no component is a first fix. */
  lemma NoCountingTrackerGivesFalse(cfg: Config, fetched: seq<Bug>, target: string)
    requires exists u :: u in fetched && IsTracker(cfg, u)
    requires forall u :: u in fetched && IsTracker(cfg, u) ==> !InMajorLine(u, target)
    ensures !Decide(cfg, fetched, target)
  {
  }

  /** A component whose counting trackers are all unfixed makes the answer
      true when nothing is ambiguous. */
  lemma ComponentDecides(cfg: Config, fetched: seq<Bug>, target: string, c: string)
    requires forall t :: t in fetched && IsTracker(cfg, t) ==> !Ambiguous(t, target)
    requires exists t :: t in fetched && CountsFor(cfg, t, target, c)
    requires forall u :: u in fetched && CountsFor(cfg, u, target, c) ==> !IsFixed(cfg, u)
    ensures Decide(cfg, fetched, target)
  {
    assert ComponentFirstFix(cfg, fetched, target, c);
  }
}
