/** The remote tag lister of update.js: `getAvailableVersions` runs
    `git ls-remote --tags` and cuts its output into lines, and the loop after it keeps,
    from each line's last tab-separated field, the capture of
    `/refs\/tags\/(.+)\^\{\}/`: the names of annotated tags, in the order listed. */
module TagLister {
  import opened Wrappers
  import opened JsString
  import opened Host

  const TagsPrefix := "refs/tags/"
  const PeelMark := "^{}"

  predicate PrefixAt(s: string, i: int) {
    0 <= i && i + |TagsPrefix| <= |s| && s[i..i + |TagsPrefix|] == TagsPrefix
  }

  predicate PeelAt(s: string, k: int) {
    0 <= k && k + |PeelMark| <= |s| && s[k..k + |PeelMark|] == PeelMark
  }

  /** The regular expression can match starting at `i` with its capture ending at `k`:
      `refs/tags/`, then at least one character `.` accepts, then `^{}`. */
  predicate TagRefAt(s: string, i: int, k: int) {
    PrefixAt(s, i) && i + |TagsPrefix| < k && PeelAt(s, k) && NoLineTerminator(s[i + |TagsPrefix|..k])
  }

  /** `x` is what `s.match(/refs\/tags\/(.+)\^\{\}/)[1]` is: the match starts at the
      leftmost place it can, and the greedy `.+` keeps the last `^{}` it can reach. */
  ghost predicate IsTagCapture(s: string, x: string) {
    exists a: nat, k: nat :: TagRefAt(s, a, k)
      && (forall a', k' :: a' < a ==> !TagRefAt(s, a', k'))
      && (forall k' :: k < k' ==> !TagRefAt(s, a, k'))
      && x == s[a + |TagsPrefix|..k]
  }

  /** A capture ending at `k` cannot cross the first line terminator after `j`. */
  lemma WithinLine(s: string, j: nat, k: nat)
    requires j <= k <= |s|
    ensures NoLineTerminator(s[j..k]) <==> k <= LineEnd(s, j)
  {
    var e := LineEnd(s, j);
    if k > e {
      assert s[j..k][e - j] == s[e];
    } else {
      assert forall m :: 0 <= m < k - j ==> s[j..k][m] == s[j..e][m];
    }
  }

  /** The largest `k` in `lo..hi` at which `^{}` starts. */
  function LastPeel(s: string, lo: nat, hi: int): (r: Option<nat>)
    ensures r.Some? ==> lo <= r.value <= hi && PeelAt(s, r.value)
    ensures r.Some? ==> forall k :: r.value < k <= hi ==> !PeelAt(s, k)
    ensures r.None? ==> forall k :: lo <= k <= hi ==> !PeelAt(s, k)
    decreases hi - lo + 1
  {
    if hi < lo then None
    else if PeelAt(s, hi) then Some(hi)
    else LastPeel(s, lo, hi - 1)
  }

  /** Where the capture of a match starting at `i` ends: `.+` runs to the first line
      terminator and backtracks to the last `^{}` before it. */
  function GreedyEnd(s: string, i: nat): (r: Option<nat>)
    requires PrefixAt(s, i)
    ensures r.Some? ==> TagRefAt(s, i, r.value)
    ensures r.Some? ==> forall k :: r.value < k ==> !TagRefAt(s, i, k)
    ensures r.None? ==> forall k :: !TagRefAt(s, i, k)
  {
    var j := i + |TagsPrefix|;
    var e := LineEnd(s, j);
    var r := LastPeel(s, j + 1, e);
    assert forall k :: TagRefAt(s, i, k) ==> k <= e by {
      forall k | TagRefAt(s, i, k) ensures k <= e { WithinLine(s, j, k); }
    }
    assert r.Some? ==> TagRefAt(s, i, r.value) by {
      if r.Some? { WithinLine(s, j, r.value); }
    }
    r
  }

  /** The leftmost match at or after `i`, with its greedy end. */
  function FirstTagRef(s: string, i: nat): (r: Option<(nat, nat)>)
    requires i <= |s|
    ensures r.None? ==> forall a, k :: i <= a ==> !TagRefAt(s, a, k)
    ensures r.Some? ==> i <= r.value.0 && TagRefAt(s, r.value.0, r.value.1)
    ensures r.Some? ==> forall a, k :: i <= a < r.value.0 ==> !TagRefAt(s, a, k)
    ensures r.Some? ==> forall k :: r.value.1 < k ==> !TagRefAt(s, r.value.0, k)
    decreases |s| - i
  {
    if i == |s| then None
    else if PrefixAt(s, i) then
      match GreedyEnd(s, i)
      case Some(k) => Some((i, k))
      case None => FirstTagRef(s, i + 1)
    else FirstTagRef(s, i + 1)
  }

  /** `p.match(/refs\/tags\/(.+)\^\{\}/)` and its group 1, `null` as `None`. */
  function TagRefMatch(field: string): (r: Option<string>)
    ensures r.None? <==> forall a, k :: !TagRefAt(field, a, k)
    ensures r.Some? ==> r.value != [] && NoLineTerminator(r.value) && IsTagCapture(field, r.value)
  {
    match FirstTagRef(field, 0)
    case None => None
    case Some((a, k)) =>
      var x := field[a + |TagsPrefix|..k];
      assert TagRefAt(field, a, k) && x == field[a + |TagsPrefix|..k];
      assert IsTagCapture(field, x);
      Some(x)
  }

  /** A field has at most one capture. */
  lemma TagCaptureUnique(s: string, x: string, y: string)
    requires IsTagCapture(s, x) && IsTagCapture(s, y)
    ensures x == y
  {
    var a1: nat, k1: nat :| TagRefAt(s, a1, k1)
      && (forall a', k' :: a' < a1 ==> !TagRefAt(s, a', k'))
      && (forall k' :: k1 < k' ==> !TagRefAt(s, a1, k'))
      && x == s[a1 + |TagsPrefix|..k1];
    var a2: nat, k2: nat :| TagRefAt(s, a2, k2)
      && (forall a', k' :: a' < a2 ==> !TagRefAt(s, a', k'))
      && (forall k' :: k2 < k' ==> !TagRefAt(s, a2, k'))
      && y == s[a2 + |TagsPrefix|..k2];
    assert a1 == a2;
    assert k1 == k2;
  }

  /** The tag name a line of `git ls-remote --tags` contributes, if any: the capture in
      its last tab-separated field. */
  function TagOfLine(line: string): Option<string> {
    var fields := Split(line, '\t');
    TagRefMatch(fields[|fields| - 1])
  }

  /** What one line adds to `avail`: its tag name, or nothing. */
  function LineTags(line: string): seq<string> {
    match TagOfLine(line)
    case Some(t) => [t]
    case None => []
  }

  /** The names the extraction loop pushes onto `avail`, in line order. */
  function TagsOf(lines: seq<string>): seq<string> {
    if lines == [] then []
    else TagsOf(lines[..|lines| - 1]) + LineTags(lines[|lines| - 1])
  }

  /** The loop of update.js that pushes each line's tag name onto `avail`. */
  method ExtractTags(lines: seq<string>) returns (avail: seq<string>)
    ensures avail == TagsOf(lines)
  {
    avail := [];
    var i := 0;
    while i < |lines|
      invariant 0 <= i <= |lines|
      invariant avail == TagsOf(lines[..i])
    {
      var p := Split(lines[i], '\t');
      var m := TagRefMatch(p[|p| - 1]);
      if m.Some? {
        avail := avail + [m.value];
      }
      assert lines[..i + 1][..i] == lines[..i];
      i := i + 1;
    }
    assert lines[..|lines|] == lines;
  }

  /** Extraction works line by line: the names of two stretches of output, one after
      the other. */
  lemma {:induction false} TagsOfAppend(a: seq<string>, b: seq<string>)
    ensures TagsOf(a + b) == TagsOf(a) + TagsOf(b)
    decreases |b|
  {
    if b == [] {
      assert a + b == a;
    } else {
      assert (a + b)[..|a + b| - 1] == a + b[..|b| - 1];
      assert (a + b)[|a + b| - 1] == b[|b| - 1];
      TagsOfAppend(a, b[..|b| - 1]);
      AppendAssoc(TagsOf(a), TagsOf(b[..|b| - 1]), LineTags(b[|b| - 1]));
    }
  }

  /** Every extracted name is the capture of some line, and none spans a line. */
  lemma {:induction false} TagsOfSound(lines: seq<string>)
    ensures forall t :: t in TagsOf(lines) ==>
      t != [] && NoLineTerminator(t) && exists i :: 0 <= i < |lines| && TagOfLine(lines[i]) == Some(t)
    decreases |lines|
  {
    if lines != [] {
      var init := lines[..|lines| - 1];
      TagsOfSound(init);
      forall t | t in TagsOf(lines)
        ensures t != [] && NoLineTerminator(t) && exists i :: 0 <= i < |lines| && TagOfLine(lines[i]) == Some(t)
      {
        if t in TagsOf(init) {
          var i :| 0 <= i < |init| && TagOfLine(init[i]) == Some(t);
          assert lines[i] == init[i];
        } else {
          assert TagOfLine(lines[|lines| - 1]) == Some(t);
        }
      }
    }
  }

  lemma {:induction false} JoinSnoc(p: seq<string>, y: string, sep: char)
    requires |p| >= 1
    ensures Join(p + [y], sep) == Join(p, sep) + [sep] + y
    decreases |p|
  {
    if |p| > 1 {
      assert (p + [y])[1..] == p[1..] + [y];
      JoinSnoc(p[1..], y, sep);
    }
  }

  /** The last field of `x + "\t" + y` is `y` when `y` holds no tab. */
  lemma LastField(x: string, y: string)
    requires '\t' !in y
    ensures var f := Split(x + ['\t'] + y, '\t'); f[|f| - 1] == y
  {
    var px := Split(x, '\t');
    JoinSnoc(px, y, '\t');
    forall z | z in px + [y] ensures '\t' !in z { }
    SplitJoin(px + [y], '\t');
  }

  /** The field `refs/tags/<name>^{}` captures `<name>`. */
  lemma AnnotatedField(name: string)
    requires name != [] && NoLineTerminator(name)
    ensures TagRefMatch(TagsPrefix + name + PeelMark) == Some(name)
  {
    var field := TagsPrefix + name + PeelMark;
    var k := |TagsPrefix| + |name|;
    assert field[..|TagsPrefix|] == TagsPrefix;
    assert field[|TagsPrefix|..k] == name;
    assert field[k..] == PeelMark;
    assert TagRefAt(field, 0, k);
    assert forall k' :: k < k' ==> !PeelAt(field, k');
    assert IsTagCapture(field, name);
    TagCaptureUnique(field, name, TagRefMatch(field).value);
  }

  /** A line for an annotated tag's dereference yields the tag's name. */
  lemma AnnotatedLine(sha: string, name: string)
    requires '\t' !in name && name != [] && NoLineTerminator(name)
    ensures TagOfLine(sha + ['\t'] + TagsPrefix + name + PeelMark) == Some(name)
  {
    var field := TagsPrefix + name + PeelMark;
    assert sha + ['\t'] + TagsPrefix + name + PeelMark == sha + ['\t'] + field;
    LastField(sha, field);
    AnnotatedField(name);
  }

  /** `^{}` in `refs/tags/<name>` can only lie inside `<name>`. */
  lemma PeelInName(name: string, k: int)
    requires PeelAt(TagsPrefix + name, k)
    ensures PeelAt(name, k - |TagsPrefix|)
  {
    var field := TagsPrefix + name;
    assert field[k] == '^';
    assert name[k - |TagsPrefix|..k - |TagsPrefix| + |PeelMark|] == field[k..k + |PeelMark|];
  }

  /** A line for a lightweight tag (no `^{}` after the name) yields nothing. */
  lemma LightweightLine(sha: string, name: string)
    requires '\t' !in name
    requires forall k :: !PeelAt(name, k)
    ensures TagOfLine(sha + ['\t'] + TagsPrefix + name) == None
  {
    var field := TagsPrefix + name;
    assert sha + ['\t'] + TagsPrefix + name == sha + ['\t'] + field;
    LastField(sha, field);
    forall k | PeelAt(field, k) ensures false {
      PeelInName(name, k);
    }
  }

  // ---------------------------------------------------------------------------
  // getAvailableVersions

  /** Lines each followed by a newline: what `git` prints. */
  function Terminated(lines: seq<string>): string {
    if lines == [] then "" else lines[0] + "\n" + Terminated(lines[1..])
  }

  lemma {:induction false} TerminatedJoin(lines: seq<string>, last: string)
    ensures Terminated(lines) + last == Join(lines + [last], '\n')
    decreases |lines|
  {
    if lines != [] {
      assert (lines + [last])[1..] == lines[1..] + [last];
      TerminatedJoin(lines[1..], last);
    }
  }

  /** `output.split("\n")` with its last element spliced off: every complete line,
      and nothing after the last newline. */
  function ListedLines(output: string): (lines: seq<string>)
    ensures forall l :: l in lines ==> '\n' !in l
    ensures |Terminated(lines)| <= |output| && output[..|Terminated(lines)|] == Terminated(lines)
    ensures '\n' !in output[|Terminated(lines)|..]
  {
    var vers := Split(output, '\n');
    var lines := vers[..|vers| - 1];
    TerminatedJoin(lines, vers[|vers| - 1]);
    assert lines + [vers[|vers| - 1]] == vers;
    lines
  }

  /** Output made of newline-terminated lines is cut back into exactly those lines. */
  lemma ListedLinesRoundTrip(lines: seq<string>)
    requires forall l :: l in lines ==> '\n' !in l
    ensures ListedLines(Terminated(lines)) == lines
  {
    TerminatedJoin(lines, "");
    assert Terminated(lines) + "" == Terminated(lines);
    forall z | z in lines + [""] ensures '\n' !in z { }
    SplitJoin(lines + [""], '\n');
    assert (lines + [""])[..|lines|] == lines;
  }

  /** `getAvailableVersions`: run `git ls-remote --tags` in the extension directory;
      a failing command throws to the caller. */
  method GetAvailableVersions(s: Session, remote: Remote, cwd: string) returns (r: Result<seq<string>, string>)
    modifies s
    ensures s.log == old(s.log) + [Issued(Invocation(cwd, LsRemoteTags(remote)))]
    ensures match s.world.exec(Invocation(cwd, LsRemoteTags(remote)))
            case Success(out) => r == Success(ListedLines(out))
            case Failure(e) => r == Failure(e)
  {
    var out := s.Exec(Invocation(cwd, LsRemoteTags(remote)));
    if out.Failure? {
      return Failure(out.error);
    }
    var vers := Split(out.value, '\n');
    if |vers| > 0 {
      vers := vers[..|vers| - 1];
    }
    r := Success(vers);
  }
}
