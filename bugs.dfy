/** Bug records as the bug-tracking service returns them, the injected
    vocabulary, the classifier predicates and the service client modelled as
    a finite map from bug id to record. */
module Bugs {
  import opened Wrappers
  import opened Seqs

  type BugId = nat

  /** One read-only snapshot of a ticket (tracker or flaw). `dependsOn` and
      `blocks` keep the order the service reports them in. */
  datatype Bug = Bug(
    id: BugId,
    keywords: set<string>,
    product: string,
    component: string,
    status: string,
    resolution: string,
    whiteboard: string,
    targetRelease: seq<string>,
    dependsOn: seq<BugId>,
    blocks: seq<BugId>)

  /** The bundle of bugs attached to a pending release. */
  datatype Advisory = Advisory(errataBugs: seq<BugId>)

  /** Read-only configuration: the tracker-marker keywords, the statuses that
      mean a fix has shipped, and the product the release family's trackers
      are filed under. */
  datatype Config = Config(
    trackerKeywords: set<string>,
    fixedStatuses: set<string>,
    releaseProduct: string)

  /** The facts about the configuration that the test suite relies on. */
  predicate Evidenced(cfg: Config) {
    && cfg.trackerKeywords != {}
    && "SomeOtherKeyword" !in cfg.trackerKeywords
    && "foo" !in cfg.trackerKeywords
    && "RELEASE_PENDING" in cfg.fixedStatuses
    && "ON_QA" !in cfg.fixedStatuses
  }

  const FlawProduct: string := "Security Response"
  const FlawComponent: string := "vulnerability"

  /** A tracker bug carries at least one tracker-marker keyword. */
  function IsTracker(cfg: Config, b: Bug): (r: bool)
    ensures r <==> exists k :: k in b.keywords && k in cfg.trackerKeywords
  {
    var common := b.keywords * cfg.trackerKeywords;
    assert forall k :: k in b.keywords && k in cfg.trackerKeywords ==> k in common;
    assert common != {} ==> exists k :: k in b.keywords && k in cfg.trackerKeywords by {
      if common != {} {
        var k :| k in common;
      }
    }
    common != {}
  }

  /** A flaw bug is filed under the security product's vulnerability component. */
  predicate IsFlaw(b: Bug) {
    b.product == FlawProduct && b.component == FlawComponent
  }

  /** The flaw test reads only the two fields the flaw fetch adds to the
      caller's: records that agree on them are classified alike. */
  lemma FlawTestReadsFetchedFields(a: Bug, b: Bug)
    requires a.product == b.product && a.component == b.component
    ensures IsFlaw(a) <==> IsFlaw(b)
  {
  }

  /** A status from the configured vocabulary means the fix has shipped. */
  predicate IsFixed(cfg: Config, b: Bug) {
    b.status in cfg.fixedStatuses
  }

  // ---------------------------------------------------------------------
  // Whiteboard component token

  const ComponentTag: string := "component:"

  predicate IsSpace(c: char) {
    c == ' ' || c == '\t' || c == '\n' || c == '\r'
  }

  predicate NoSpace(s: string) {
    forall i :: 0 <= i < |s| ==> !IsSpace(s[i])
  }

  /** The longest prefix of `s` without white space. */
  function Token(s: string): (t: string)
    ensures t <= s && NoSpace(t)
    ensures |t| < |s| ==> IsSpace(s[|t|])
  {
    if s == [] || IsSpace(s[0]) then [] else [s[0]] + Token(s[1..])
  }

  predicate HasTagAt(w: string, i: nat) {
    i + |ComponentTag| <= |w| && w[i..i + |ComponentTag|] == ComponentTag
  }

  /** The name in the first `component:<name>` token of a whiteboard; absent
      when there is no such token or no name follows the tag. */
  function ParseComponent(w: string): (r: Option<string>)
    ensures r.Some? ==> r.value != [] && NoSpace(r.value)
    decreases |w|
  {
    if |w| < |ComponentTag| then None
    else if w[..|ComponentTag|] == ComponentTag then
      var name := Token(w[|ComponentTag|..]);
      if name == [] then None else Some(name)
    else ParseComponent(w[1..])
  }

  /** `name` is the token right after the first tag in `w`, which sits at
      position `i`: it runs up to the next white space or the end. */
  predicate ComponentAt(w: string, i: nat, name: string) {
    && i + |ComponentTag| + |name| <= |w|
    && HasTagAt(w, i)
    && w[i + |ComponentTag|..i + |ComponentTag| + |name|] == name
    && (forall j :: 0 <= j < i ==> !HasTagAt(w, j))
    && (i + |ComponentTag| + |name| == |w| || IsSpace(w[i + |ComponentTag| + |name|]))
  }

  /** A parsed name is the token after the first occurrence of the tag in
      the whiteboard. */
  lemma {:induction false} ParseComponentSound(w: string)
    requires ParseComponent(w).Some?
    ensures exists i :: ComponentAt(w, i, ParseComponent(w).value)
    decreases |w|
  {
    if w[..|ComponentTag|] == ComponentTag {
      ComponentAtStart(w);
    } else {
      ParseComponentSound(w[1..]);
      var i :| ComponentAt(w[1..], i, ParseComponent(w).value);
      ComponentAtShift(w, i, ParseComponent(w).value);
    }
  }

  lemma ComponentAtStart(w: string)
    requires |w| >= |ComponentTag| && w[..|ComponentTag|] == ComponentTag
    requires Token(w[|ComponentTag|..]) != []
    ensures ComponentAt(w, 0, Token(w[|ComponentTag|..]))
  {
    var rest, name := w[|ComponentTag|..], Token(w[|ComponentTag|..]);
    assert w[|ComponentTag|..|ComponentTag| + |name|] == rest[..|name|];
    assert |name| < |rest| ==> rest[|name|] == w[|ComponentTag| + |name|];
  }

  lemma ComponentAtShift(w: string, i: nat, name: string)
    requires w != [] && !HasTagAt(w, 0)
    requires ComponentAt(w[1..], i, name)
    ensures ComponentAt(w, i + 1, name)
  {
    TagShift(w, i);
    assert w[i + 1 + |ComponentTag|..i + 1 + |ComponentTag| + |name|]
        == w[1..][i + |ComponentTag|..i + |ComponentTag| + |name|];
    forall j | 1 <= j < i + 1 ensures !HasTagAt(w, j) {
      TagShift(w, j - 1);
    }
    assert i + 1 + |ComponentTag| + |name| < |w| ==>
      w[i + 1 + |ComponentTag| + |name|] == w[1..][i + |ComponentTag| + |name|];
  }

  /** Conversely, the token after the first tag is found wherever it sits
      in the whiteboard, whatever text surrounds it. */
  lemma {:induction false} ParseComponentComplete(w: string, i: nat, name: string)
    requires ComponentAt(w, i, name) && name != [] && NoSpace(name)
    ensures ParseComponent(w) == Some(name)
    decreases i
  {
    if i == 0 {
      assert w[..|ComponentTag|] == ComponentTag;
      var rest := w[|ComponentTag|..];
      assert rest[..|name|] == name;
      assert |name| < |rest| ==> rest[|name|] == w[|ComponentTag| + |name|];
      TokenOfPrefix(rest, name);
    } else {
      assert !HasTagAt(w, 0);
      TagShift(w, i - 1);
      forall j | 0 <= j < i - 1 ensures !HasTagAt(w[1..], j) {
        TagShift(w, j);
      }
      assert w[1..][i - 1 + |ComponentTag|..i - 1 + |ComponentTag| + |name|]
          == w[i + |ComponentTag|..i + |ComponentTag| + |name|];
      assert i + |ComponentTag| + |name| < |w| ==>
        w[1..][i - 1 + |ComponentTag| + |name|] == w[i + |ComponentTag| + |name|];
      ParseComponentComplete(w[1..], i - 1, name);
    }
  }

  /** The token of a string that starts with a word and then white space (or
      ends) is that word. */
  lemma {:induction false} TokenOfPrefix(s: string, n: string)
    requires |n| <= |s| && s[..|n|] == n && NoSpace(n)
    requires |n| == |s| || IsSpace(s[|n|])
    ensures Token(s) == n
  {
    if n != [] {
      assert s[0] == n[0];
      assert s[1..][..|n| - 1] == n[1..];
      TokenOfPrefix(s[1..], n[1..]);
    }
  }

  /** A whiteboard holding just the token for a name gives that name back. */
  lemma ParseComponentOfToken(name: string)
    requires name != [] && NoSpace(name)
    ensures ParseComponent(ComponentTag + name) == Some(name)
  {
    var w := ComponentTag + name;
    assert w[..|ComponentTag|] == ComponentTag;
    assert w[|ComponentTag|..] == name;
    TokenOfWord(name);
  }

  lemma {:induction false} TokenOfWord(s: string)
    requires NoSpace(s)
    ensures Token(s) == s
  {
    if s != [] {
      TokenOfWord(s[1..]);
    }
  }

  /** A whiteboard that never mentions the tag has no component. */
  lemma {:induction false} ParseComponentWithoutTag(w: string)
    requires forall i :: 0 <= i ==> !HasTagAt(w, i)
    ensures ParseComponent(w) == None
    decreases |w|
  {
    if |w| >= |ComponentTag| {
      assert !HasTagAt(w, 0);
      forall i | 0 <= i ensures HasTagAt(w[1..], i) ==> HasTagAt(w, i + 1) {
        TagShift(w, i);
      }
      ParseComponentWithoutTag(w[1..]);
    }
  }

  lemma TagShift(w: string, i: nat)
    requires w != []
    ensures HasTagAt(w[1..], i) <==> HasTagAt(w, i + 1)
  {
    if i + |ComponentTag| <= |w[1..]| {
      var a, b := w[i + 1..i + 1 + |ComponentTag|], w[1..][i..i + |ComponentTag|];
      forall k | 0 <= k < |ComponentTag| ensures a[k] == b[k] {
        assert a[k] == w[i + 1 + k] && b[k] == w[1..][i + k];
      }
      assert a == b;
    }
  }

  function Component(b: Bug): Option<string> {
    ParseComponent(b.whiteboard)
  }

  // ---------------------------------------------------------------------
  // Release versions

  /** The major-version part of a release string: everything before the
      first '.'. */
  function Major(release: string): (m: string)
    ensures m <= release && '.' !in m
    ensures |m| < |release| ==> release[|m|] == '.'
  {
    if release == [] || release[0] == '.' then []
    else [release[0]] + Major(release[1..])
  }

  lemma MajorOfRelease(m: string, rest: string)
    requires '.' !in m
    ensures Major(m + "." + rest) == m
  {
    var r := m + "." + rest;
    var x := Major(r);
    assert r[|m|] == '.';
    assert m == r[..|m|];
  }

  /** A bug targets the same major-version line as `release` when one of its
      target releases does. */
  predicate InMajorLine(b: Bug, release: string) {
    exists t :: t in b.targetRelease && Major(t) == Major(release)
  }

  // ---------------------------------------------------------------------
  // The bug-tracking service client

  /** What the service knows: the record of every resolvable id. */
  type Store = map<BugId, Bug>

  predicate WellFormed(store: Store) {
    forall i :: i in store ==> store[i].id == i
  }

  /** The calls the core makes: a fetch by ids with an explicit permissive
      flag, a plain batch fetch by ids, and a query restricted to one product.
      Field lists are recorded as requested; the model's records always carry
      every field. */
  datatype Request =
    | Fetch(ids: seq<BugId>, fields: seq<string>, permissive: bool)
    | BatchFetch(ids: seq<BugId>, fields: seq<string>)
    | ProductQuery(product: string, ids: seq<BugId>, fields: seq<string>)

  /** The records of the resolvable ids, in request order; unresolvable ids
      are left out. */
  function Resolve(store: Store, ids: seq<BugId>): (r: seq<Bug>)
    ensures |r| <= |ids|
  {
    if ids == [] then []
    else (if ids[0] in store then [store[ids[0]]] else []) + Resolve(store, ids[1..])
  }

  /** The resolved records are exactly the records of the requested ids the
      service knows. */
  lemma {:induction false} ResolveMembers(store: Store, ids: seq<BugId>)
    ensures forall i :: i in ids && i in store ==> store[i] in Resolve(store, ids)
    ensures forall b :: b in Resolve(store, ids) ==> exists i :: i in ids && i in store && store[i] == b
  {
    if ids != [] {
      ResolveMembers(store, ids[1..]);
      assert forall i :: i in ids ==> i == ids[0] || i in ids[1..];
    }
  }

  lemma {:induction false} ResolveAppend(store: Store, a: seq<BugId>, b: seq<BugId>)
    ensures Resolve(store, a + b) == Resolve(store, a) + Resolve(store, b)
  {
    if a == [] {
      assert a + b == b;
    } else {
      assert (a + b)[1..] == a[1..] + b;
      ResolveAppend(store, a[1..], b);
    }
  }

  /** Distinct ids resolve to records with distinct ids. */
  lemma {:induction false} ResolveDistinct(store: Store, ids: seq<BugId>)
    requires WellFormed(store) && NoDuplicates(ids)
    ensures NoDuplicates(Ids(Resolve(store, ids)))
  {
    if ids != [] {
      ResolveDistinct(store, ids[1..]);
      ResolveMembers(store, ids[1..]);
      var rest := Resolve(store, ids[1..]);
      if ids[0] in store {
        assert Ids([store[ids[0]]] + rest) == [ids[0]] + Ids(rest);
        forall k | 0 <= k < |rest| ensures Ids(rest)[k] != ids[0] {
          assert rest[k] in rest;
          var i :| i in ids[1..] && i in store && store[i] == rest[k];
        }
        NoDuplicatesCons(ids[0], Ids(rest));
      } else {
        assert [] + rest == rest;
      }
    }
  }

  /** The ids of a list of records, in order. */
  function Ids(bugs: seq<Bug>): (r: seq<BugId>)
    ensures |r| == |bugs|
    ensures forall k :: 0 <= k < |bugs| ==> r[k] == bugs[k].id
  {
    if bugs == [] then [] else [bugs[0].id] + Ids(bugs[1..])
  }

  /** The service's answer to a request. */
  function Answer(store: Store, req: Request): seq<Bug> {
    match req
    case Fetch(ids, _, _) => Resolve(store, ids)
    case BatchFetch(ids, _) => Resolve(store, ids)
    case ProductQuery(product, ids, _) => Filter((b: Bug) => b.product == product, Resolve(store, ids))
  }
}
