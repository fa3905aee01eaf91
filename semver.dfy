/** Semantic versions and their precedence, as section 11 of Semantic Versioning 2.0.0
    defines it (and as node-semver's `compare` implements it): major, minor and patch
    compared numerically; a version with a pre-release has lower precedence than the
    same version without; pre-release identifiers compared left to right, numeric ones
    numerically and below alphanumeric ones, alphanumeric ones by character code, and a
    shorter list below a longer one it is a prefix of. Build metadata is ignored.

    Which strings are versions and which versions satisfy a range is node-semver's
    business and stays abstract: `Library` carries both as functions. */
module Semver {
  import opened Wrappers

  datatype Identifier = Numeric(n: nat) | AlphaNumeric(s: string)

  datatype Version = Version(major: nat, minor: nat, patch: nat,
                             prerelease: seq<Identifier>, build: seq<string>)
  {
    /** A stable version: one without a pre-release part. */
    predicate IsStable() { prerelease == [] }
  }

  /** What the update engine uses of node-semver and semver-extra without looking
      inside: `parse` reads a tag as a version (`None` when the tag is not valid
      semver), `satisfies(range, v)` tests a version against a range expression
      (false for every version when the range does not parse). */
  datatype Library = Library(parse: string -> Option<Version>,
                             satisfies: (string, Version) -> bool)

  datatype Ordering = Less | Equal | Greater {
    function Flip(): Ordering {
      match this
      case Less => Greater
      case Equal => Equal
      case Greater => Less
    }
  }

  function CompareNat(a: nat, b: nat): Ordering {
    if a < b then Less else if a > b then Greater else Equal
  }

  /** Lexicographic order by character code; a proper prefix comes first. */
  function CompareStrings(a: string, b: string): Ordering {
    if a == [] then (if b == [] then Equal else Less)
    else if b == [] then Greater
    else if a[0] < b[0] then Less
    else if a[0] > b[0] then Greater
    else CompareStrings(a[1..], b[1..])
  }

  function CompareIdentifiers(a: Identifier, b: Identifier): Ordering {
    match (a, b)
    case (Numeric(x), Numeric(y)) => CompareNat(x, y)
    case (Numeric(_), AlphaNumeric(_)) => Less
    case (AlphaNumeric(_), Numeric(_)) => Greater
    case (AlphaNumeric(x), AlphaNumeric(y)) => CompareStrings(x, y)
  }

  /** Identifier lists compared field by field; a proper prefix comes first. */
  function CompareIdentifierLists(a: seq<Identifier>, b: seq<Identifier>): Ordering {
    if a == [] then (if b == [] then Equal else Less)
    else if b == [] then Greater
    else
      var c := CompareIdentifiers(a[0], b[0]);
      if c != Equal then c else CompareIdentifierLists(a[1..], b[1..])
  }

  /** Pre-release precedence: no pre-release ranks above any pre-release. */
  function ComparePrerelease(a: seq<Identifier>, b: seq<Identifier>): Ordering {
    if a == [] && b == [] then Equal
    else if a == [] then Greater
    else if b == [] then Less
    else CompareIdentifierLists(a, b)
  }

  /** Precedence of two versions (`semver.compare`). */
  function Compare(a: Version, b: Version): Ordering {
    if a.major != b.major then CompareNat(a.major, b.major)
    else if a.minor != b.minor then CompareNat(a.minor, b.minor)
    else if a.patch != b.patch then CompareNat(a.patch, b.patch)
    else ComparePrerelease(a.prerelease, b.prerelease)
  }

  /** Same precedence: everything but build metadata agrees. */
  predicate SamePrecedence(a: Version, b: Version) {
    a.major == b.major && a.minor == b.minor && a.patch == b.patch && a.prerelease == b.prerelease
  }

  // ---------------------------------------------------------------------------
  // Strings

  lemma {:induction false} CompareStringsFlip(a: string, b: string)
    ensures CompareStrings(b, a) == CompareStrings(a, b).Flip()
    ensures CompareStrings(a, b) == Equal <==> a == b
  {
    if a != [] && b != [] && a[0] == b[0] {
      CompareStringsFlip(a[1..], b[1..]);
      assert a == [a[0]] + a[1..] && b == [b[0]] + b[1..];
    }
  }

  lemma {:induction false} CompareStringsTransitive(a: string, b: string, c: string)
    requires CompareStrings(a, b) != Greater && CompareStrings(b, c) != Greater
    ensures CompareStrings(a, c) != Greater
    ensures CompareStrings(a, b) == Less || CompareStrings(b, c) == Less ==> CompareStrings(a, c) == Less
  {
    if a != [] && b != [] && c != [] && a[0] == b[0] && b[0] == c[0] {
      CompareStringsTransitive(a[1..], b[1..], c[1..]);
    }
  }

  // ---------------------------------------------------------------------------
  // Identifiers

  lemma CompareIdentifiersFlip(a: Identifier, b: Identifier)
    ensures CompareIdentifiers(b, a) == CompareIdentifiers(a, b).Flip()
    ensures CompareIdentifiers(a, b) == Equal <==> a == b
  {
    if a.AlphaNumeric? && b.AlphaNumeric? {
      CompareStringsFlip(a.s, b.s);
    }
  }

  lemma CompareIdentifiersTransitive(a: Identifier, b: Identifier, c: Identifier)
    requires CompareIdentifiers(a, b) != Greater && CompareIdentifiers(b, c) != Greater
    ensures CompareIdentifiers(a, c) != Greater
    ensures CompareIdentifiers(a, b) == Less || CompareIdentifiers(b, c) == Less ==> CompareIdentifiers(a, c) == Less
  {
    if a.AlphaNumeric? && b.AlphaNumeric? && c.AlphaNumeric? {
      CompareStringsTransitive(a.s, b.s, c.s);
    }
  }

  lemma {:induction false} CompareIdentifierListsFlip(a: seq<Identifier>, b: seq<Identifier>)
    ensures CompareIdentifierLists(b, a) == CompareIdentifierLists(a, b).Flip()
    ensures CompareIdentifierLists(a, b) == Equal <==> a == b
  {
    if a != [] && b != [] {
      CompareIdentifiersFlip(a[0], b[0]);
      CompareIdentifierListsFlip(a[1..], b[1..]);
      assert a == [a[0]] + a[1..] && b == [b[0]] + b[1..];
    }
  }

  lemma {:induction false} CompareIdentifierListsTransitive(a: seq<Identifier>, b: seq<Identifier>, c: seq<Identifier>)
    requires CompareIdentifierLists(a, b) != Greater && CompareIdentifierLists(b, c) != Greater
    ensures CompareIdentifierLists(a, c) != Greater
    ensures CompareIdentifierLists(a, b) == Less || CompareIdentifierLists(b, c) == Less ==> CompareIdentifierLists(a, c) == Less
  {
    if a != [] && b != [] && c != [] {
      CompareIdentifiersFlip(a[0], b[0]);
      CompareIdentifiersFlip(b[0], c[0]);
      CompareIdentifiersFlip(a[0], c[0]);
      CompareIdentifiersTransitive(a[0], b[0], c[0]);
      if a[0] == b[0] && b[0] == c[0] {
        CompareIdentifierListsTransitive(a[1..], b[1..], c[1..]);
      }
    }
  }

  // ---------------------------------------------------------------------------
  // Versions

  /** Precedence is antisymmetric, and two versions tie exactly when they differ at most
      in build metadata. */
  lemma CompareFlip(a: Version, b: Version)
    ensures Compare(b, a) == Compare(a, b).Flip()
    ensures Compare(a, b) == Equal <==> SamePrecedence(a, b)
  {
    CompareIdentifierListsFlip(a.prerelease, b.prerelease);
  }

  /** Precedence is transitive, and strictly so when either step is strict. */
  lemma CompareTransitive(a: Version, b: Version, c: Version)
    requires Compare(a, b) != Greater && Compare(b, c) != Greater
    ensures Compare(a, c) != Greater
    ensures Compare(a, b) == Less || Compare(b, c) == Less ==> Compare(a, c) == Less
  {
    CompareIdentifierListsFlip(a.prerelease, b.prerelease);
    CompareIdentifierListsFlip(b.prerelease, c.prerelease);
    if a.major == b.major == c.major && a.minor == b.minor == c.minor && a.patch == b.patch == c.patch
       && a.prerelease != [] && b.prerelease != [] && c.prerelease != [] {
      CompareIdentifierListsTransitive(a.prerelease, b.prerelease, c.prerelease);
    }
  }

  /** A pre-release ranks below the release of the same major.minor.patch. */
  lemma PrereleaseBelowRelease(a: Version, b: Version)
    requires a.major == b.major && a.minor == b.minor && a.patch == b.patch
    requires !a.IsStable() && b.IsStable()
    ensures Compare(a, b) == Less
  {
  }
}
