/** The version resolver of update.js: the selector picks which tags count and the
    highest of them by semantic-version precedence wins. `latest` counts the stable
    versions (`semverPre.maxStable`), `prerelease` counts every version
    (`semverPre.max`), anything else is a range (`semver.maxSatisfying`). Tags that
    are not versions never count (sure for `maxSatisfying`; taken to hold for the
    two semver-extra functions as well). Among tags of equal precedence the first one listed
    wins, as in `maxSatisfying`, which only replaces its best on a strictly greater one. */
module Resolver {
  import opened Wrappers
  import opened Semver

  const Latest := "latest"
  const Prerelease := "prerelease"

  /** `tag` is a candidate for `selector`. */
  predicate Eligible(lib: Library, selector: string, tag: string) {
    match lib.parse(tag)
    case None => false
    case Some(v) =>
      if selector == Latest then v.IsStable()
      else if selector == Prerelease then true
      else lib.satisfies(selector, v)
  }

  function VersionOf(lib: Library, tag: string): Version
    requires lib.parse(tag).Some?
  {
    lib.parse(tag).value
  }

  /** `tags[i]` is what the resolver picks: a candidate no other candidate exceeds, and
      strictly above every candidate listed before it. */
  ghost predicate IsPick(lib: Library, selector: string, tags: seq<string>, i: int) {
    && 0 <= i < |tags|
    && Eligible(lib, selector, tags[i])
    && (forall j :: 0 <= j < |tags| && Eligible(lib, selector, tags[j]) ==>
          Compare(VersionOf(lib, tags[j]), VersionOf(lib, tags[i])) != Greater)
    && (forall j :: 0 <= j < i && Eligible(lib, selector, tags[j]) ==>
          Compare(VersionOf(lib, tags[j]), VersionOf(lib, tags[i])) == Less)
  }

  /** The index of the highest candidate among `tags[i..]`, the first one on ties. */
  function HighestFrom(lib: Library, selector: string, tags: seq<string>, i: nat): (r: Option<nat>)
    requires i <= |tags|
    ensures r.None? <==> forall j :: i <= j < |tags| ==> !Eligible(lib, selector, tags[j])
    ensures r.Some? ==> i <= r.value < |tags| && Eligible(lib, selector, tags[r.value])
    ensures r.Some? ==> forall j :: i <= j < |tags| && Eligible(lib, selector, tags[j]) ==>
      Compare(VersionOf(lib, tags[j]), VersionOf(lib, tags[r.value])) != Greater
    ensures r.Some? ==> forall j :: i <= j < r.value && Eligible(lib, selector, tags[j]) ==>
      Compare(VersionOf(lib, tags[j]), VersionOf(lib, tags[r.value])) == Less
    decreases |tags| - i
  {
    if i == |tags| then None
    else
      var rest := HighestFrom(lib, selector, tags, i + 1);
      if !Eligible(lib, selector, tags[i]) then rest
      else if rest.None? then
        CompareFlip(VersionOf(lib, tags[i]), VersionOf(lib, tags[i]));
        Some(i)
      else
        var vi, vb := VersionOf(lib, tags[i]), VersionOf(lib, tags[rest.value]);
        if Compare(vi, vb) == Less then rest
        else
          assert forall j :: i <= j < |tags| && Eligible(lib, selector, tags[j]) ==>
                   Compare(VersionOf(lib, tags[j]), vi) != Greater by {
            CompareFlip(vi, vb);
            forall j | i < j < |tags| && Eligible(lib, selector, tags[j])
              ensures Compare(VersionOf(lib, tags[j]), vi) != Greater
            {
              CompareTransitive(VersionOf(lib, tags[j]), vb, vi);
            }
            CompareFlip(vi, vi);
          }
          Some(i)
  }

  /** The tag update.js resolves `selector` to among `avail`, `None` for `null`. */
  function Resolve(lib: Library, selector: string, avail: seq<string>): (r: Option<string>)
    ensures r.None? <==> forall t :: t in avail ==> !Eligible(lib, selector, t)
    ensures r.Some? ==> r.value in avail && Eligible(lib, selector, r.value)
    ensures r.Some? ==> forall t :: t in avail && Eligible(lib, selector, t) ==>
      Compare(VersionOf(lib, t), VersionOf(lib, r.value)) != Greater
  {
    match HighestFrom(lib, selector, avail, 0)
    case None => None
    case Some(i) => Some(avail[i])
  }

  /** The pick is unique: whatever index satisfies `IsPick` names the resolved tag. */
  lemma ResolveIsPick(lib: Library, selector: string, tags: seq<string>, i: int)
    requires IsPick(lib, selector, tags, i)
    ensures Resolve(lib, selector, tags) == Some(tags[i])
  {
    var r := HighestFrom(lib, selector, tags, 0);
    assert r.Some?;
    var b := r.value;
    var vi, vb := VersionOf(lib, tags[i]), VersionOf(lib, tags[b]);
    CompareFlip(vi, vb);
    assert b == i;
  }

  /** `latest` yields the highest stable version listed. */
  lemma LatestIsHighestStable(lib: Library, tags: seq<string>)
    requires Resolve(lib, Latest, tags).Some?
    ensures var t := Resolve(lib, Latest, tags).value;
      lib.parse(t).Some? && lib.parse(t).value.IsStable()
    ensures var t := Resolve(lib, Latest, tags).value;
      forall u :: u in tags && lib.parse(u).Some? && lib.parse(u).value.IsStable() ==>
        Compare(lib.parse(u).value, lib.parse(t).value) != Greater
  {
    var t := Resolve(lib, Latest, tags).value;
    forall u | u in tags && lib.parse(u).Some? && lib.parse(u).value.IsStable()
      ensures Compare(lib.parse(u).value, lib.parse(t).value) != Greater
    {
      assert Eligible(lib, Latest, u);
    }
  }

  /** `prerelease` resolves whenever `latest` does, never to something lower, and to
      the highest version listed. */
  lemma PrereleaseAtLeastLatest(lib: Library, tags: seq<string>)
    requires Resolve(lib, Latest, tags).Some?
    ensures Resolve(lib, Prerelease, tags).Some?
    ensures var l, p := Resolve(lib, Latest, tags).value, Resolve(lib, Prerelease, tags).value;
      Compare(VersionOf(lib, l), VersionOf(lib, p)) != Greater
    ensures var p := Resolve(lib, Prerelease, tags).value;
      forall u :: u in tags && lib.parse(u).Some? ==> Compare(lib.parse(u).value, VersionOf(lib, p)) != Greater
  {
    var l := Resolve(lib, Latest, tags).value;
    assert Eligible(lib, Prerelease, l);
    var p := Resolve(lib, Prerelease, tags).value;
    forall u | u in tags && lib.parse(u).Some?
      ensures Compare(lib.parse(u).value, VersionOf(lib, p)) != Greater
    {
      assert Eligible(lib, Prerelease, u);
    }
  }

  // ---------------------------------------------------------------------------
  // A worked example: three tags, where node-semver reads the caret range `^1.0.0`
  // as "major version 1, no pre-release".

  function ExampleParse(t: string): Option<Version> {
    if t == "1.0.0" then Some(Version(1, 0, 0, [], []))
    else if t == "1.2.0" then Some(Version(1, 2, 0, [], []))
    else if t == "2.0.0-beta.1" then Some(Version(2, 0, 0, [AlphaNumeric("beta"), Numeric(1)], []))
    else None
  }

  function ExampleSatisfies(range: string, v: Version): bool {
    range == "^1.0.0" && v.major == 1 && v.IsStable()
  }

  function ExampleLibrary(): Library {
    Library(ExampleParse, ExampleSatisfies)
  }

  const ExampleTags := ["1.0.0", "1.2.0", "2.0.0-beta.1"]

  lemma ExampleVersions()
    ensures ExampleParse(ExampleTags[0]) == Some(Version(1, 0, 0, [], []))
    ensures ExampleParse(ExampleTags[1]) == Some(Version(1, 2, 0, [], []))
    ensures ExampleParse(ExampleTags[2]) == Some(Version(2, 0, 0, [AlphaNumeric("beta"), Numeric(1)], []))
  {
  }

  lemma ExampleLatest()
    ensures Resolve(ExampleLibrary(), Latest, ExampleTags) == Some("1.2.0")
  {
    ExampleVersions();
    ResolveIsPick(ExampleLibrary(), Latest, ExampleTags, 1);
  }

  lemma ExamplePrerelease()
    ensures Resolve(ExampleLibrary(), Prerelease, ExampleTags) == Some("2.0.0-beta.1")
  {
    ExampleVersions();
    ResolveIsPick(ExampleLibrary(), Prerelease, ExampleTags, 2);
  }

  lemma ExampleCaret()
    ensures Resolve(ExampleLibrary(), "^1.0.0", ExampleTags) == Some("1.2.0")
  {
    ExampleVersions();
    ResolveIsPick(ExampleLibrary(), "^1.0.0", ExampleTags, 1);
  }

  lemma ExampleNoMatch()
    ensures Resolve(ExampleLibrary(), "^3.0.0", ExampleTags) == None
  {
    ExampleVersions();
  }
}
