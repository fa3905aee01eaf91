/** `parseSourceLocVer` of update.js: a source-location string such as
    `git+ssh://user@host:/srv/git/repo.git#semver:^1.2.0` becomes the repository address
    plus the version selector found in its fragment. `url.parse` and `decodeURI` are
    oracles of the `World`; what is specified here is the fragment-to-selector step,
    the capture of the regular expression `/#semver:(.+)/` on the decoded fragment. */
module SourceParser {
  import opened Wrappers
  import opened JsString
  import opened Host

  const SemverMark := "#semver:"

  /** The message of the `URIError` `decodeURI` throws on a malformed escape. */
  const UriMalformed := "URI malformed"

  /** The parsed source: repository address, decoded fragment, and selector. */
  datatype ParsedSource = ParsedSource(remote: Remote, hash: Option<string>, semver: Option<string>)

  /** The marker `#semver:` starts at `k`. */
  predicate MarkAt(h: string, k: nat) {
    k + |SemverMark| <= |h| && h[k..k + |SemverMark|] == SemverMark
  }

  /** `/#semver:(.+)/` can match at `k`: the marker, then one character `.` accepts. */
  predicate SelectorMatchAt(h: string, k: nat) {
    MarkAt(h, k) && k + |SemverMark| < |h| && !IsLineTerminator(h[k + |SemverMark|])
  }

  /** `x` is what the regular expression captures in `h`: it matches at the leftmost
      place it can, and the greedy `.+` runs to the first line terminator or the end. */
  ghost predicate IsSelectorCapture(h: string, x: string) {
    exists k: nat :: SelectorMatchAt(h, k)
      && (forall j :: 0 <= j < k ==> !SelectorMatchAt(h, j))
      && k + |SemverMark| + |x| <= |h|
      && h[k + |SemverMark|..k + |SemverMark| + |x|] == x
      && NoLineTerminator(x)
      && (k + |SemverMark| + |x| == |h| || IsLineTerminator(h[k + |SemverMark| + |x|]))
  }

  /** The leftmost match position at or after `i`. */
  function FirstSelectorMatch(h: string, i: nat): (r: Option<nat>)
    requires i <= |h|
    ensures r.None? ==> forall k :: i <= k ==> !SelectorMatchAt(h, k)
    ensures r.Some? ==> i <= r.value && SelectorMatchAt(h, r.value)
    ensures r.Some? ==> forall k :: i <= k < r.value ==> !SelectorMatchAt(h, k)
    decreases |h| - i
  {
    if i == |h| then None
    else if SelectorMatchAt(h, i) then Some(i)
    else FirstSelectorMatch(h, i + 1)
  }

  /** `h.match(/#semver:(.+)/)`, then `m !== null ? m[1] : undefined`. */
  function SelectorOf(h: string): (r: Option<string>)
    ensures r.None? <==> forall k :: !SelectorMatchAt(h, k)
    ensures r.Some? ==> r.value != [] && IsSelectorCapture(h, r.value)
  {
    match FirstSelectorMatch(h, 0)
    case None => None
    case Some(k) =>
      var start := k + |SemverMark|;
      var x := h[start..LineEnd(h, start)];
      assert h[start..start + |x|] == x;
      Some(x)
  }

  /** The selector written after `#semver:` comes back out of the fragment, when no
      match starts before the marker and the selector is a single line. */
  lemma SelectorRoundTrip(p: string, x: string)
    requires forall k: nat :: k < |p| ==> !SelectorMatchAt(p + SemverMark + x, k)
    requires x != [] && NoLineTerminator(x)
    ensures SelectorOf(p + SemverMark + x) == Some(x)
  {
    var h := p + SemverMark + x;
    var start := |p| + |SemverMark|;
    assert h[|p|..start] == SemverMark;
    assert h[start] == x[0];
    assert SelectorMatchAt(h, |p|);
    var r := FirstSelectorMatch(h, 0);
    assert r == Some(|p|);
    assert h[start..] == x;
    forall m | start <= m < |h| ensures !IsLineTerminator(h[m]) {
      assert h[m] == x[m - start];
    }
    var e := LineEnd(h, start);
    assert e == |h|;
    assert h[start..e] == x;
  }

  /** A fragment with no `#semver:` marker in it yields no selector. */
  lemma NoMarkNoSelector(h: string)
    requires forall k :: !MarkAt(h, k)
    ensures SelectorOf(h) == None
  {
  }

  /** `parseSourceLocVer(source)`. Fails exactly when the fragment is present and
      `decodeURI` throws; otherwise the selector is present exactly when the decoded
      fragment holds a `#semver:` match, and it is that match's capture. */
  function ParseSourceLocVer(w: World, source: string): (r: Result<ParsedSource, string>)
    ensures var u := w.urlParse(source);
      r.Failure? <==> u.hash.Some? && u.hash.value != "" && w.decodeUri(u.hash.value).None?
    ensures r.Success? ==> r.value.remote == w.urlParse(source).remote
    ensures r.Success? ==> var u := w.urlParse(source);
      r.value.hash == (if u.hash.Some? && u.hash.value != "" then w.decodeUri(u.hash.value) else u.hash)
    ensures r.Success? && r.value.semver.Some? ==>
      r.value.hash.Some? && IsSelectorCapture(r.value.hash.value, r.value.semver.value)
    ensures r.Success? ==> var u := w.urlParse(source);
      (r.value.semver.None? <==>
        (u.hash.None? || u.hash.value == "" || forall k :: !SelectorMatchAt(w.decodeUri(u.hash.value).value, k)))
  {
    var u := w.urlParse(source);
    if u.hash.Some? && u.hash.value != "" then
      match w.decodeUri(u.hash.value)
      case None => Failure(UriMalformed)
      case Some(h) => Success(ParsedSource(u.remote, Some(h), SelectorOf(h)))
    else
      Success(ParsedSource(u.remote, u.hash, None))
  }
}
