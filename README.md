# CVE flaw reconciliation (elliott `attach_cve_flaws`)

This project models the core that elliott uses to attach CVE flaw bugs to a
release advisory. It is written in Dafny and its properties are proved. The core decides four things:

- **`is_tracker_bug`**: a bug is a *tracker* when it carries at least one of
  the configured tracker keywords.
- **`get_tracker_bugs`**: one fetch of the advisory's attached bug ids,
  non-permissive, with the caller's fields, then a filter that keeps the trackers.
- **`get_corresponding_flaw_bugs`**:
  - takes the ids every tracker *blocks*, each once, in first-occurrence order;
  - fetches them with the caller's fields plus `product` and `component`;
  - keeps the *flaw bugs*, those filed under product "Security Response", component "vulnerability";
  - returns the map from each tracker id to the fetched flaw bugs it blocks, and the flaw list.
  - In strict mode it fails with
    `No flaw bugs could be found for these trackers: {…}` when the last
    tracker with some id blocks no flaw bug. The ids are written ascending.
- **`is_first_fix_any`**: whether a target release is the first, within its
  major-version line, to fix the flaw for at least one affected component.
  - It is true for an absent flaw or one without dependent bugs, and true
    when none of the dependent bugs is a tracker.
  - It is false when a tracker has no `component:<name>` whiteboard token
    and targets the release itself.
  - Otherwise the trackers of the target's major line are grouped by
    component. The result is true when some component has no fixed tracker.

The module's own implementation file is not part of this model. Its
behaviour is reconstructed from `tests/test_attach_cve_flaws.py`, and every
test case there is a lemma in `scenarios.dfy`.

Two modelling choices shape the result types and the first-fix rule:

- The resolver's result is the pair (tracker-to-flaw map, flaw list). The flaw list is element `[1]`, as line 63 of the test reads it.
- The first-fix rule is per component: a component is a first fix when none of its trackers in the target's major line is fixed. "## Left out" says what the tests leave open here.

Layout:
- `wrappers.dfy`: `Option` and `Result`.
- `seqs.dfy`: filtering, first-occurrence de-duplication, ascending de-duplicated sorting.
- `render.dfy`: decimal numerals and the set-literal rendering of the message.
- `bugs.dfy`:
  - the bug record, advisory and configuration;
  - the tracker, flaw and fixed classifiers;
  - whiteboard component parsing and major versions;
  - the bug service, modelled as a finite map from id to record.
- `flaw_resolver.dfy`: `get_tracker_bugs` and `get_corresponding_flaw_bugs`.
- `first_fix.dfy`: `is_first_fix_any`, with an independent reference definition.
- `scenarios.dfy`: the test cases.

## Model

| member | source | states |
|---|---|---|
| Bugs.IsTracker | tests/test_attach_cve_flaws.py:7-17 | a bug is a tracker exactly when some keyword of it is a configured tracker keyword |
| Bugs.IsFlaw | tests/test_attach_cve_flaws.py:46-53 | a flaw bug is one filed under product "Security Response" and component "vulnerability" |
| Bugs.FlawTestReadsFetchedFields | tests/test_attach_cve_flaws.py:55-59 | the flaw test depends only on `product` and `component`, the two fields the flaw fetch adds |
| Bugs.ResolveMembers | tests/test_attach_cve_flaws.py:106-122 | the service returns exactly the records of the requested ids it knows; unknown ids are dropped |
| Bugs.ResolveAppend | tests/test_attach_cve_flaws.py:22-34 | resolving a concatenation of id lists concatenates the answers, so records come back in request order |
| Bugs.ResolveDistinct | tests/test_attach_cve_flaws.py:45-60 | distinct requested ids give records with distinct ids |
| Bugs.ParseComponent | tests/test_attach_cve_flaws.py:158-164 | a parsed component name is non-empty and contains no white space |
| Bugs.ParseComponentSound | tests/test_attach_cve_flaws.py:158-164 | a parsed name is the whole token right after the first `component:` tag in the whiteboard: no tag comes earlier, and the name ends at white space or at the end |
| Bugs.ParseComponentComplete | tests/test_attach_cve_flaws.py:158-164 | conversely, the whole token right after the first `component:` tag is returned wherever it sits in the whiteboard, whatever text surrounds it |
| Bugs.ParseComponentOfToken | tests/test_attach_cve_flaws.py:193-240 | the whiteboard `component:<name>` yields `<name>` |
| Bugs.ParseComponentWithoutTag | tests/test_attach_cve_flaws.py:131 | a whiteboard that never contains the tag (such as `''`) yields no component |
| Bugs.Major | tests/test_attach_cve_flaws.py:159-170 | the major version is the prefix of the release before the first `.`, and contains no `.` |
| Bugs.MajorOfRelease | tests/test_attach_cve_flaws.py:159-170 | `m.rest` has major version `m` (`3.11.z` gives `3`, `4.8.0` gives `4`) |
| Render.DecimalRoundTrip | tests/test_attach_cve_flaws.py:87 | an id's numeral reads back as the id, so the message names each id unambiguously |
| FlawResolver.GetTrackerBugs | tests/test_attach_cve_flaws.py:19-38 | the result holds exactly the trackers among the records of the advisory's attached ids |
| FlawResolver.GetTrackerBugsInOrder | tests/test_attach_cve_flaws.py:36-37 | trackers come back in the order of the attached ids: splitting the id list splits the result |
| FlawResolver.FlawFields | tests/test_attach_cve_flaws.py:55-59 | requested fields are the caller's fields as a prefix, then `product` and `component` if missing, nothing else |
| FlawResolver.BlockedIdsAppend | tests/test_attach_cve_flaws.py:41-45 | the blocked ids run tracker by tracker: those of a list's first part, then those of the rest |
| FlawResolver.FlawBugsRequest | tests/test_attach_cve_flaws.py:41-60 | one batch fetch whose ids are each id some tracker blocks, each once, in the order of their first occurrence in the trackers' `blocks` |
| FlawResolver.MatchedFlaws | tests/test_attach_cve_flaws.py:66-89 | a tracker's entry holds exactly the fetched flaw bugs whose id it blocks |
| FlawResolver.TrackerFlaws | tests/test_attach_cve_flaws.py:66-89 | the map has one key per tracker id; each key maps to the last such tracker's matched flaw bugs |
| FlawResolver.MatchFlaws | tests/test_attach_cve_flaws.py:46-64 | every bug in the flaw list is filed under "Security Response" / "vulnerability" |
| FlawResolver.FlawsAreBlockedFlaws | tests/test_attach_cve_flaws.py:46-64 | the flaw list holds exactly the known flaw bugs some tracker blocks |
| FlawResolver.FlawsDistinct | tests/test_attach_cve_flaws.py:41-64 | no flaw bug is listed twice |
| FlawResolver.TrackerFlawsExact | tests/test_attach_cve_flaws.py:66-89 | each tracker maps to the flaw list filtered to the ids it blocks: exactly the known flaw bugs it blocks, each once, in flaw-list order |
| FlawResolver.MatchedIdExact | tests/test_attach_cve_flaws.py:66-89 | a blocked id has a record in its tracker's entry exactly when the service knows it as a flaw bug |
| FlawResolver.UnmatchedIds | tests/test_attach_cve_flaws.py:85-89 | the listed ids ascend strictly and are exactly the tracker ids whose entry is empty |
| FlawResolver.LastIndexWithId | tests/test_attach_cve_flaws.py:66-89 | every tracker id has a last tracker carrying it |
| FlawResolver.UnresolvedExact | tests/test_attach_cve_flaws.py:66-89 | an id is listed as unmatched exactly when the last tracker with that id blocks no known flaw bug |
| FlawResolver.MissingExact | tests/test_attach_cve_flaws.py:66-89 | the unmatched list is exactly the set of unresolved tracker ids |
| FlawResolver.GetCorrespondingFlawBugs | tests/test_attach_cve_flaws.py:40-89 | non-strict calls always succeed; a success carries the tracker map and the flaw list |
| FlawResolver.StrictFailure | tests/test_attach_cve_flaws.py:66-89 | strict mode fails exactly when the last tracker with some id blocks no known flaw bug; the message is the prefix and then all such ids, ascending, in braces |
| FirstFix.FirstFixQueryContents | tests/test_attach_cve_flaws.py:106-122 | the first-fix query returns exactly the known dependent bugs filed under the release product |
| FirstFix.GroupBy | tests/test_attach_cve_flaws.py:223-261 | each component key holds exactly the records with that component; records without one are left out |
| FirstFix.GroupByComponent | tests/test_attach_cve_flaws.py:223-261 | trackers are grouped by their whiteboard component |
| FirstFix.IsFirstFixAny | tests/test_attach_cve_flaws.py:91-126 | true for an absent flaw or empty `depends_on`; otherwise the decision over the records the product query returns |
| FirstFix.Decide | tests/test_attach_cve_flaws.py:106-262 | the filter, restrict and group decision is true exactly when no record is a tracker, or (no tracker is ambiguous and some component has a counting tracker and no fixed counting tracker) |
| FirstFix.OtherMajorLineIgnored | tests/test_attach_cve_flaws.py:152-186 | once some tracker was returned, adding a record outside the target's major line does not change the decision |
| FirstFix.AmbiguousTrackerGivesFalse | tests/test_attach_cve_flaws.py:128-150 | a tracker without a component that targets the release itself makes the decision false |
| FirstFix.NoCountingTrackerGivesFalse | tests/test_attach_cve_flaws.py:152-262 | when trackers exist but none is in the target's major line, the decision is false |
| FirstFix.ComponentDecides | tests/test_attach_cve_flaws.py:223-262 | with no ambiguous tracker, a component whose counting trackers are all unfixed makes the decision true |
| Scenarios.TrackerKeywordScenarios | tests/test_attach_cve_flaws.py:7-17 | the tracker keyword set makes a tracker; `['SomeOtherKeyword']` does not |
| Scenarios.TrackerBugsScenario | tests/test_attach_cve_flaws.py:19-38 | the request is the non-permissive fetch of `[123, 456]` with `['keywords']`; the result is the valid tracker alone |
| Scenarios.FlawBugsScenario | tests/test_attach_cve_flaws.py:40-64 | the request is the fetch of `[1, 2, 3, 4]` with `["somefield", "product", "component"]`; the flaw list is flaws 1 and 2 |
| Scenarios.StrictScenario | tests/test_attach_cve_flaws.py:66-89 | strict mode fails with exactly `No flaw bugs could be found for these trackers: {10, 12}` |
| Scenarios.DegenerateFlawScenarios | tests/test_attach_cve_flaws.py:91-104 | with no flaw, or empty `depends_on`, the answer is true whatever the service holds |
| Scenarios.NoTrackersScenario | tests/test_attach_cve_flaws.py:106-126 | the query is over `[1, 2]` with the five first-fix fields; a non-tracker record gives true |
| Scenarios.MissingComponentScenario | tests/test_attach_cve_flaws.py:128-150 | a component-less tracker for `4.8.0` gives false |
| Scenarios.SameMajorScenario | tests/test_attach_cve_flaws.py:152-186 | a fixed `3.11.z` tracker is ignored for `4.8.0`; the `ON_QA` one makes it true |
| Scenarios.AlreadyFixedScenario | tests/test_attach_cve_flaws.py:188-221 | a fixed `4.7.z` tracker of the only component gives false |
| Scenarios.AnyComponentScenario | tests/test_attach_cve_flaws.py:223-262 | an unfixed `crio` tracker gives true although `runc` is fixed |

## Left out

- The module's implementation file is not part of this model. Each operation is reconstructed from the test assertions.
- The bug service's transport, its client objects, the test doubles and logging are not modelled. The service is a finite map from id to record, and each call is recorded as a `Request` value.
- Unknown ids are always dropped: the model does not model the rejection that a non-permissive fetch of an unknown id might raise. The `permissive` flag is recorded, not interpreted.
- The tracker keyword set, the release product and the fixed-status vocabulary are parameters (`Config`), because their values are not shown.
  - `Evidenced` holds only the facts the tests fix: the keyword set is non-empty; `SomeOtherKeyword` and `foo` are not tracker keywords; `RELEASE_PENDING` is fixed and `ON_QA` is not.
- `resolution` is fetched but never consulted: no test shows it affecting whether a tracker is fixed.
- A tracker without a component that does not target the release under test is ignored. No test observes that case.
- Decide: any fixed tracker in the target's major line rules its component out. That includes trackers for later releases (a fixed `4.9.0` tracker rules out `4.8.0`) and the target's own tracker (a `RELEASE_PENDING` `4.8.0` tracker makes `4.8.0` not a first fix). Another rule is also consistent with every test: only an earlier-or-equal fixed tracker that is not the target's own counts. The tests do not decide between the two.
- OtherMajorLineIgnored, NoCountingTrackerGivesFalse: a record outside the target's major line is ignored only once some tracker was returned. A flaw whose only trackers are in another major line is not a first fix (the decision is false), whereas a flaw with no trackers at all is. The tests do not observe a lone other-major tracker.
- A shortcut for z-stream target releases is not modelled, because no test shows one.
- Bug ids are unbounded naturals. Keyword lists are sets, since only membership is observed.
- The whiteboard token rule is an assumption. The component name runs from after the first `component:` to the next white space, and an empty name counts as no component.
- The major version is the text before the first `.`.
- InMajorLine: a tracker is in the target's major line when any of its target releases is. The tests only show one-element `target_release` lists, so a tracker with several is not covered by them.
- The caller's field list is not changed in place: the extended list is a new sequence.
- The fatal error is a `Failure` carrying the message text, not an exception type.
- For repeated tracker ids, the last tracker's entry wins, as in a dictionary built in list order. The tests have no repeated ids.
- StrictFailure, UnresolvedExact: the strict check reads the tracker map, so for a repeated tracker id only the last tracker with that id is checked. Trackers `[10 blocking nothing, 10 blocking flaw 3]` succeed in strict mode, although the first of them blocks no flaw. The tests have no repeated ids.
- TrackerFlaws: each entry is the list of matched flaw records in flaw-list order, not a set. The tests only observe which entries are empty.
- `setup.py` (packaging, a `git describe` subprocess, file I/O) and `functional_tests/test_find_bugs_sweep.py` (the real command line against a live service) are outside the core.
