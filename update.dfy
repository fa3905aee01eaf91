/** The function update.js exports: bring one extension up to date with the version
    selector of its source. `UpdateRun` is the specification: the events, in order,
    that one call produces in a given world, and the exception it ends with. The
    methods do the same work step by step against a `Session` and are proved to
    produce exactly that run; the lemmas state what the run promises. */
module Update {
  import opened Wrappers
  import opened JsString
  import opened Host
  import opened SourceParser
  import opened TagLister
  import opened Resolver

  // ---------------------------------------------------------------------------
  // emitFeedback

  /** Where `emitFeedback(message, error)` sends what: inside VS Code to a pop-up, without
      it to the console with an `[extName]:` prefix; an error object always goes to the
      error side and shows its own message, anything else to the information side. */
  function Route(vscode: bool, extName: string, message: Message, error: Option<Message>): (n: Notice)
    ensures n.channel.IsError() <==> error.Some?
    ensures n.channel.IsPopup() <==> vscode
    ensures vscode ==> n.message == if error.Some? then error.value else message
    ensures !vscode ==> n.message == Prefixed(extName, if error.Some? then error.value else message)
  {
    var payload := if error.Some? then error.value else message;
    if vscode then
      Notice(if error.Some? then ErrorMessage else InfoMessage, payload)
    else
      Notice(if error.Some? then ConsoleError else ConsoleLog, Prefixed(extName, payload))
  }

  /** Without a host every line reads `[extName]:` and then the message or the error's
      message; with one, exactly that message. */
  lemma RouteText(vscode: bool, extName: string, message: Message, error: Option<Message>)
    ensures var shown := if error.Some? then error.value.Text() else message.Text();
      Route(vscode, extName, message, error).message.Text() ==
        if vscode then shown else "[" + extName + "]:" + shown
  {
  }

  function Say(vscode: bool, extName: string, message: Message): Event {
    Shown(Route(vscode, extName, message, None))
  }

  method EmitFeedback(s: Session, vscode: bool, extName: string, message: Message, error: Option<Message>)
    modifies s
    ensures s.log == old(s.log) + [Shown(Route(vscode, extName, message, error))]
  {
    if vscode {
      if error.Some? {
        s.Show(Notice(ErrorMessage, error.value));
      } else {
        s.Show(Notice(InfoMessage, message));
      }
    } else {
      if error.Some? {
        s.Show(Notice(ConsoleError, Prefixed(extName, error.value)));
      } else {
        s.Show(Notice(ConsoleLog, Prefixed(extName, message)));
      }
    }
  }

  // ---------------------------------------------------------------------------
  // updateExtension: fetch, checkout, install

  /** The three commands of `updateExtension`, in the order they run. */
  function UpdateSteps(sPath: string, remote: Remote, tag: string): seq<Invocation> {
    [Invocation(sPath, FetchTags(remote)), Invocation(sPath, Checkout(tag)), Invocation(sPath, NpmInstall)]
  }

  /** What `updateExtension(sPath, parsed, tag)` does. The fetch output is logged
      twice, the second time under the label "git checkout:". */
  function UpdateExtensionRun(w: World, sPath: string, remote: Remote, tag: string): Run {
    var steps := UpdateSteps(sPath, remote, tag);
    match w.exec(steps[0])
    case Failure(e) => Run([Issued(steps[0])], Some(e))
    case Success(out) =>
      var fetched := [Issued(steps[0]), Shown(Notice(ConsoleLog, GitFetchOutput(out)))];
      match w.exec(steps[1])
      case Failure(e) => Run(fetched + [Issued(steps[1])], Some(e))
      case Success(_) =>
        var checkedOut := fetched + [Issued(steps[1]), Shown(Notice(ConsoleLog, GitCheckoutOutput(out)))];
        match w.exec(steps[2])
        case Failure(e) => Run(checkedOut + [Issued(steps[2])], Some(e))
        case Success(_) => Run(checkedOut + [Issued(steps[2])], None)
  }

  /** Reference semantics of a fail-fast command sequence: the commands that run, which
      are those up to and including the first that fails, and that failure's message. */
  function FailFast(w: World, steps: seq<Invocation>): (seq<Invocation>, Option<string>) {
    if steps == [] then ([], None)
    else
      match w.exec(steps[0])
      case Failure(e) => ([steps[0]], Some(e))
      case Success(_) =>
        var rest := FailFast(w, steps[1..]);
        ([steps[0]] + rest.0, rest.1)
  }

  /** What `FailFast` means: a non-empty prefix of the steps runs, all of it but the last
      succeeded, and the sequence fails exactly when that last one did, with its message. */
  lemma {:induction false} FailFastPrefix(w: World, steps: seq<Invocation>)
    requires steps != []
    ensures var (ran, thrown) := FailFast(w, steps);
      && 1 <= |ran| <= |steps| && ran == steps[..|ran|]
      && (forall m :: 0 <= m < |ran| - 1 ==> w.exec(ran[m]).Success?)
      && (thrown.Some? <==> w.exec(ran[|ran| - 1]).Failure?)
      && (thrown.Some? ==> w.exec(ran[|ran| - 1]) == Failure(thrown.value))
      && (thrown.None? ==> ran == steps)
  {
    if w.exec(steps[0]).Success? && |steps| > 1 {
      FailFastPrefix(w, steps[1..]);
      var rest := FailFast(w, steps[1..]);
      var ran := [steps[0]] + rest.0;
      assert ran == steps[..|ran|] by {
        assert steps == [steps[0]] + steps[1..];
      }
      forall m | 0 <= m < |ran| - 1 ensures w.exec(ran[m]).Success? {
        if m > 0 {
          assert ran[m] == rest.0[m - 1];
        }
      }
    }
  }

  /** `updateExtension` is the fail-fast sequence fetch, checkout, install. */
  lemma UpdateExtensionFailFast(w: World, sPath: string, remote: Remote, tag: string)
    ensures var r, steps := UpdateExtensionRun(w, sPath, remote, tag), UpdateSteps(sPath, remote, tag);
      Commands(r.events) == FailFast(w, steps).0 && r.thrown == FailFast(w, steps).1
  {
    var steps := UpdateSteps(sPath, remote, tag);
    CommandsOfIssued(steps[0]);
    assert steps[1..][1..] == [steps[2]];
    assert FailFast(w, [steps[2]]) == ([steps[2]], if w.exec(steps[2]).Failure? then Some(w.exec(steps[2]).error) else None) by {
      assert [steps[2]][1..] == [];
      assert [steps[2]] + [] == [steps[2]];
    }
    match w.exec(steps[0])
    case Failure(_) =>
    case Success(out) =>
      var f := Shown(Notice(ConsoleLog, GitFetchOutput(out)));
      var c := Shown(Notice(ConsoleLog, GitCheckoutOutput(out)));
      CommandsOfShown(f.notice);
      CommandsOfIssued(steps[1]);
      CommandsOfShown(c.notice);
      CommandsOfIssued(steps[2]);
      var fetched := [Issued(steps[0]), f];
      assert fetched == [Issued(steps[0])] + [f];
      CommandsAppend([Issued(steps[0])], [f]);
      CommandsAppend(fetched, [Issued(steps[1])]);
      if w.exec(steps[1]).Success? {
        var checkedOut := fetched + [Issued(steps[1]), c];
        assert checkedOut == fetched + [Issued(steps[1])] + [c];
        CommandsAppend(fetched + [Issued(steps[1])], [c]);
        CommandsAppend(checkedOut, [Issued(steps[2])]);
      }
  }

  /** Whatever else happens, `updateExtension` first issues the fetch. */
  lemma UpdateExtensionStartsWithFetch(w: World, sPath: string, remote: Remote, tag: string)
    ensures var cs := Commands(UpdateExtensionRun(w, sPath, remote, tag).events);
      cs != [] && cs[0] == Invocation(sPath, FetchTags(remote))
  {
    var steps := UpdateSteps(sPath, remote, tag);
    UpdateExtensionFailFast(w, sPath, remote, tag);
    FailFastPrefix(w, steps);
    assert FailFast(w, steps).0[0] == steps[0];
  }

  /** `updateExtension(sPath, parsed, tag)`: each `execSync` that fails throws, and the
      rest are skipped. */
  method UpdateExtension(s: Session, sPath: string, remote: Remote, tag: string) returns (thrown: Option<string>)
    modifies s
    ensures s.log == old(s.log) + UpdateExtensionRun(s.world, sPath, remote, tag).events
    ensures thrown == UpdateExtensionRun(s.world, sPath, remote, tag).thrown
  {
    var out := s.Exec(Invocation(sPath, FetchTags(remote)));
    if out.Failure? {
      return Some(out.error);
    }
    s.Show(Notice(ConsoleLog, GitFetchOutput(out.value)));
    var checkout := s.Exec(Invocation(sPath, Checkout(tag)));
    if checkout.Failure? {
      return Some(checkout.error);
    }
    s.Show(Notice(ConsoleLog, GitCheckoutOutput(out.value)));
    var install := s.Exec(Invocation(sPath, NpmInstall));
    if install.Failure? {
      return Some(install.error);
    }
    thrown := None;
  }

  // ---------------------------------------------------------------------------
  // The decision

  datatype Decision = NeedsUpdate(tag: string) | NoMatch | IsUpToDate

  /** `currentVersion !== d && d !== null` decides an update; otherwise `null` is
      "no matching version" and anything else is "up to date". */
  function Decide(current: string, resolved: Option<string>): (r: Decision)
    ensures r.NeedsUpdate? <==> resolved.Some? && resolved.value != current
    ensures r.NeedsUpdate? ==> r.tag == resolved.value
    ensures r.NoMatch? <==> resolved.None?
    ensures r.IsUpToDate? <==> resolved == Some(current)
  {
    if resolved.Some? && current != resolved.value then NeedsUpdate(resolved.value)
    else if resolved.None? then NoMatch
    else IsUpToDate
  }

  // ---------------------------------------------------------------------------
  // The whole call

  /** From "checking semver..." on, once the selector is known. */
  function SelectorRun(w: World, extName: string, sPath: string, remote: Remote, selector: string,
                       current: string, avail: seq<string>, vscode: bool): Run
  {
    var checking := Say(vscode, extName, CheckingSemver);
    match Decide(current, Resolve(w.semver, selector, avail))
    case NeedsUpdate(d) =>
      var u := UpdateExtensionRun(w, sPath, remote, d);
      Run([checking, Say(vscode, extName, NeedsUpdating(extName, d))] + u.events, u.thrown)
    case NoMatch =>
      Run([checking, Shown(Route(vscode, extName, ErrorText(""), Some(NoMatchingVersion(extName, selector))))], None)
    case IsUpToDate =>
      Run([checking, Say(vscode, extName, UpToDate(extName))], None)
  }

  /** From the source parse on, once the directory is known to exist. */
  function ExistingRun(w: World, extName: string, sPath: string, source: string, vscode: bool): Run {
    match ParseSourceLocVer(w, source)
    case Failure(e) => Run([], Some(e))
    case Success(parsed) =>
      var head := Invocation(sPath, TagPointsAtHead);
      match w.exec(head)
      case Failure(e) => Run([Issued(head)], Some(e))
      case Success(out) =>
        var ls := Invocation(sPath, LsRemoteTags(parsed.remote));
        match w.exec(ls)
        case Failure(e) => Run([Issued(head), Issued(ls)], Some(e))
        case Success(listing) =>
          if parsed.semver.None? then Run([Issued(head), Issued(ls)], None)
          else
            var r := SelectorRun(w, extName, sPath, parsed.remote, parsed.semver.value,
                                 Trim(out), TagsOf(ListedLines(listing)), vscode);
            Run([Issued(head), Issued(ls)] + r.events, r.thrown)
  }

  /** `update(extName, extPath, source, vscode)`: everything one call shows and runs, in
      order, and the exception it throws to its caller, if any. */
  function UpdateRun(w: World, extName: string, extPath: string, source: string, vscode: bool): Run {
    var sPath := w.join(extPath, extName);
    var started := Say(vscode, extName, UpdateStarted);
    if !w.isDirectory(sPath) then
      Run([started, Say(vscode, extName, ExtensionNotFound)], None)
    else
      var r := ExistingRun(w, extName, sPath, source, vscode);
      Run([started, Say(vscode, extName, ExtensionExists)] + r.events, r.thrown)
  }

  /** The exported function of update.js, step by step. */
  method Update(s: Session, extName: string, extPath: string, source: string, vscode: bool)
    returns (thrown: Option<string>)
    modifies s
    ensures s.log == old(s.log) + UpdateRun(s.world, extName, extPath, source, vscode).events
    ensures thrown == UpdateRun(s.world, extName, extPath, source, vscode).thrown
  {
    ghost var log0 := s.log;
    var sPath := s.world.join(extPath, extName);
    EmitFeedback(s, vscode, extName, UpdateStarted, None);
    if !s.world.isDirectory(sPath) {
      EmitFeedback(s, vscode, extName, ExtensionNotFound, None);
      assert s.log == log0 + [Say(vscode, extName, UpdateStarted), Say(vscode, extName, ExtensionNotFound)];
      return None;
    }
    EmitFeedback(s, vscode, extName, ExtensionExists, None);
    assert s.log == log0 + [Say(vscode, extName, UpdateStarted), Say(vscode, extName, ExtensionExists)];
    thrown := UpdateExisting(s, extName, sPath, source, vscode);
    AppendAssoc(log0, [Say(vscode, extName, UpdateStarted), Say(vscode, extName, ExtensionExists)],
                ExistingRun(s.world, extName, sPath, source, vscode).events);
  }

  /** The body of the `fs.existsSync(sPath)` branch. */
  method UpdateExisting(s: Session, extName: string, sPath: string, source: string, vscode: bool)
    returns (thrown: Option<string>)
    modifies s
    ensures s.log == old(s.log) + ExistingRun(s.world, extName, sPath, source, vscode).events
    ensures thrown == ExistingRun(s.world, extName, sPath, source, vscode).thrown
  {
    ghost var log0 := s.log;
    var sourceParsed := ParseSourceLocVer(s.world, source);
    if sourceParsed.Failure? {
      assert s.log == log0 + [];
      return Some(sourceParsed.error);
    }
    var parsed := sourceParsed.value;
    var currentVersion := s.Exec(Invocation(sPath, TagPointsAtHead));
    if currentVersion.Failure? {
      return Some(currentVersion.error);
    }
    var availableVersions := GetAvailableVersions(s, parsed.remote, sPath);
    if availableVersions.Failure? {
      return Some(availableVersions.error);
    }
    ghost var queried := [Issued(Invocation(sPath, TagPointsAtHead)), Issued(Invocation(sPath, LsRemoteTags(parsed.remote)))];
    AppendAssoc(log0, [queried[0]], [queried[1]]);
    assert [queried[0]] + [queried[1]] == queried;
    var avail := ExtractTags(availableVersions.value);
    if parsed.semver.None? {
      return None;
    }
    thrown := CheckSemver(s, extName, sPath, parsed.remote, parsed.semver.value,
                          Trim(currentVersion.value), avail, vscode);
    AppendAssoc(log0, queried, SelectorRun(s.world, extName, sPath, parsed.remote, parsed.semver.value,
                                           Trim(currentVersion.value), avail, vscode).events);
  }

  /** The `if (parsed.semver)` block: resolve, then update or report. */
  method CheckSemver(s: Session, extName: string, sPath: string, remote: Remote, selector: string,
                     current: string, avail: seq<string>, vscode: bool)
    returns (thrown: Option<string>)
    modifies s
    ensures s.log == old(s.log) + SelectorRun(s.world, extName, sPath, remote, selector, current, avail, vscode).events
    ensures thrown == SelectorRun(s.world, extName, sPath, remote, selector, current, avail, vscode).thrown
  {
    ghost var log0 := s.log;
    EmitFeedback(s, vscode, extName, CheckingSemver, None);
    var d := Resolve(s.world.semver, selector, avail);
    if d.Some? && current != d.value {
      EmitFeedback(s, vscode, extName, NeedsUpdating(extName, d.value), None);
      ghost var said := [Say(vscode, extName, CheckingSemver), Say(vscode, extName, NeedsUpdating(extName, d.value))];
      assert s.log == log0 + said;
      thrown := UpdateExtension(s, sPath, remote, d.value);
      AppendAssoc(log0, said, UpdateExtensionRun(s.world, sPath, remote, d.value).events);
    } else if d.None? {
      EmitFeedback(s, vscode, extName, ErrorText(""), Some(NoMatchingVersion(extName, selector)));
      thrown := None;
    } else {
      EmitFeedback(s, vscode, extName, UpToDate(extName), None);
      thrown := None;
    }
  }

  // ---------------------------------------------------------------------------
  // What a call promises

  /** A missing extension directory: "update started..." then "Extension not found.",
      and no command at all. */
  lemma MissingExtension(w: World, extName: string, extPath: string, source: string, vscode: bool)
    requires !w.isDirectory(w.join(extPath, extName))
    ensures var r := UpdateRun(w, extName, extPath, source, vscode);
      && r.events == [Say(vscode, extName, UpdateStarted), Say(vscode, extName, ExtensionNotFound)]
      && Commands(r.events) == []
      && r.thrown.None?
  {
    var r := UpdateRun(w, extName, extPath, source, vscode);
    CommandsOfNotices(r.events);
  }

  /** Without a selector the two git queries still run, and nothing follows them. */
  lemma NoSelectorNoResolution(w: World, extName: string, extPath: string, source: string, vscode: bool,
                               parsed: ParsedSource)
    requires w.isDirectory(w.join(extPath, extName))
    requires ParseSourceLocVer(w, source) == Success(parsed) && parsed.semver.None?
    requires w.exec(Invocation(w.join(extPath, extName), TagPointsAtHead)).Success?
    requires w.exec(Invocation(w.join(extPath, extName), LsRemoteTags(parsed.remote))).Success?
    ensures var sPath := w.join(extPath, extName);
      UpdateRun(w, extName, extPath, source, vscode) == Run(
        [Say(vscode, extName, UpdateStarted), Say(vscode, extName, ExtensionExists),
         Issued(Invocation(sPath, TagPointsAtHead)), Issued(Invocation(sPath, LsRemoteTags(parsed.remote)))],
        None)
  {
  }

  /** The commands from "checking semver..." on: those of `updateExtension` when the
      decision is to update, none otherwise. */
  lemma SelectorCommands(w: World, extName: string, sPath: string, remote: Remote, selector: string,
                         current: string, avail: seq<string>, vscode: bool)
    ensures var d := Decide(current, Resolve(w.semver, selector, avail));
      Commands(SelectorRun(w, extName, sPath, remote, selector, current, avail, vscode).events) ==
        if d.NeedsUpdate? then Commands(UpdateExtensionRun(w, sPath, remote, d.tag).events) else []
  {
    var r := SelectorRun(w, extName, sPath, remote, selector, current, avail, vscode);
    match Decide(current, Resolve(w.semver, selector, avail))
    case NeedsUpdate(t) =>
      CommandsAfterNotices([Say(vscode, extName, CheckingSemver), Say(vscode, extName, NeedsUpdating(extName, t))],
                           UpdateExtensionRun(w, sPath, remote, t).events);
    case NoMatch =>
      CommandsOfNotices(r.events);
    case IsUpToDate =>
      CommandsOfNotices(r.events);
  }

  /** The commands of the existing-directory branch once both git queries answered. */
  lemma ExistingCommands(w: World, extName: string, sPath: string, source: string, vscode: bool,
                         parsed: ParsedSource, out: string, listing: string)
    requires ParseSourceLocVer(w, source) == Success(parsed) && parsed.semver.Some?
    requires w.exec(Invocation(sPath, TagPointsAtHead)) == Success(out)
    requires w.exec(Invocation(sPath, LsRemoteTags(parsed.remote))) == Success(listing)
    ensures Commands(ExistingRun(w, extName, sPath, source, vscode).events) ==
      [Invocation(sPath, TagPointsAtHead), Invocation(sPath, LsRemoteTags(parsed.remote))] +
      Commands(SelectorRun(w, extName, sPath, parsed.remote, parsed.semver.value,
                           Trim(out), TagsOf(ListedLines(listing)), vscode).events)
  {
    CommandsAfterTwo(Invocation(sPath, TagPointsAtHead), Invocation(sPath, LsRemoteTags(parsed.remote)),
      SelectorRun(w, extName, sPath, parsed.remote, parsed.semver.value,
                  Trim(out), TagsOf(ListedLines(listing)), vscode).events);
  }

  /** The commands of a call that got past both git queries with a selector. */
  lemma CommandsAfterQueries(w: World, extName: string, extPath: string, source: string,
                             vscode: bool, parsed: ParsedSource, out: string, listing: string)
    requires w.isDirectory(w.join(extPath, extName))
    requires ParseSourceLocVer(w, source) == Success(parsed) && parsed.semver.Some?
    requires w.exec(Invocation(w.join(extPath, extName), TagPointsAtHead)) == Success(out)
    requires w.exec(Invocation(w.join(extPath, extName), LsRemoteTags(parsed.remote))) == Success(listing)
    ensures var sPath := w.join(extPath, extName);
      var d := Decide(Trim(out), Resolve(w.semver, parsed.semver.value, TagsOf(ListedLines(listing))));
      var queries := [Invocation(sPath, TagPointsAtHead), Invocation(sPath, LsRemoteTags(parsed.remote))];
      Commands(UpdateRun(w, extName, extPath, source, vscode).events) ==
        queries + (if d.NeedsUpdate? then Commands(UpdateExtensionRun(w, sPath, parsed.remote, d.tag).events) else [])
  {
    var sPath := w.join(extPath, extName);
    CommandsAfterNotices([Say(vscode, extName, UpdateStarted), Say(vscode, extName, ExtensionExists)],
                         ExistingRun(w, extName, sPath, source, vscode).events);
    ExistingCommands(w, extName, sPath, source, vscode, parsed, out, listing);
    SelectorCommands(w, extName, sPath, parsed.remote, parsed.semver.value,
                     Trim(out), TagsOf(ListedLines(listing)), vscode);
  }

  /** `updateExtension` runs, and its fetch is issued, exactly when the resolved tag
      exists and differs from the trimmed current tag. */
  lemma FetchIffNewTag(w: World, extName: string, extPath: string, source: string, vscode: bool,
                       parsed: ParsedSource, out: string, listing: string)
    requires w.isDirectory(w.join(extPath, extName))
    requires ParseSourceLocVer(w, source) == Success(parsed) && parsed.semver.Some?
    requires w.exec(Invocation(w.join(extPath, extName), TagPointsAtHead)) == Success(out)
    requires w.exec(Invocation(w.join(extPath, extName), LsRemoteTags(parsed.remote))) == Success(listing)
    ensures var d := Resolve(w.semver, parsed.semver.value, TagsOf(ListedLines(listing)));
      (Invocation(w.join(extPath, extName), FetchTags(parsed.remote)) in Commands(UpdateRun(w, extName, extPath, source, vscode).events))
        <==> d.Some? && d.value != Trim(out)
  {
    CommandsAfterQueries(w, extName, extPath, source, vscode, parsed, out, listing);
    var d := Decide(Trim(out), Resolve(w.semver, parsed.semver.value, TagsOf(ListedLines(listing))));
    FetchAfterQueries(w, w.join(extPath, extName), parsed.remote, d);
  }

  /** The fetch is among the two queries followed by what a decision runs exactly when
      the decision is to update. */
  lemma FetchAfterQueries(w: World, sPath: string, remote: Remote, d: Decision)
    ensures var queries := [Invocation(sPath, TagPointsAtHead), Invocation(sPath, LsRemoteTags(remote))];
      Invocation(sPath, FetchTags(remote)) in
        queries + (if d.NeedsUpdate? then Commands(UpdateExtensionRun(w, sPath, remote, d.tag).events) else [])
      <==> d.NeedsUpdate?
  {
    var fetch := Invocation(sPath, FetchTags(remote));
    var queries := [Invocation(sPath, TagPointsAtHead), Invocation(sPath, LsRemoteTags(remote))];
    assert fetch !in queries;
    if d.NeedsUpdate? {
      UpdateExtensionStartsWithFetch(w, sPath, remote, d.tag);
    }
  }

  /** Idempotence: when the resolved tag is the one checked out, the call reports
      "up to date" and runs nothing after the two queries. */
  lemma UpToDateRunsNothing(w: World, extName: string, extPath: string, source: string, vscode: bool,
                            parsed: ParsedSource, out: string, listing: string)
    requires w.isDirectory(w.join(extPath, extName))
    requires ParseSourceLocVer(w, source) == Success(parsed) && parsed.semver.Some?
    requires w.exec(Invocation(w.join(extPath, extName), TagPointsAtHead)) == Success(out)
    requires w.exec(Invocation(w.join(extPath, extName), LsRemoteTags(parsed.remote))) == Success(listing)
    requires Resolve(w.semver, parsed.semver.value, TagsOf(ListedLines(listing))) == Some(Trim(out))
    ensures var sPath := w.join(extPath, extName); var r := UpdateRun(w, extName, extPath, source, vscode);
      && Commands(r.events) == [Invocation(sPath, TagPointsAtHead), Invocation(sPath, LsRemoteTags(parsed.remote))]
      && r.events[|r.events| - 1] == Say(vscode, extName, UpToDate(extName))
      && r.thrown.None?
  {
    CommandsAfterQueries(w, extName, extPath, source, vscode, parsed, out, listing);
  }

  /** No matching tag (an empty listing in particular): the error feedback, and no
      command after the queries. */
  lemma NoMatchReported(w: World, extName: string, extPath: string, source: string, vscode: bool,
                        parsed: ParsedSource, out: string, listing: string)
    requires w.isDirectory(w.join(extPath, extName))
    requires ParseSourceLocVer(w, source) == Success(parsed) && parsed.semver.Some?
    requires w.exec(Invocation(w.join(extPath, extName), TagPointsAtHead)) == Success(out)
    requires w.exec(Invocation(w.join(extPath, extName), LsRemoteTags(parsed.remote))) == Success(listing)
    requires forall t :: t in TagsOf(ListedLines(listing)) ==> !Eligible(w.semver, parsed.semver.value, t)
    ensures var sPath := w.join(extPath, extName); var r := UpdateRun(w, extName, extPath, source, vscode);
      && Commands(r.events) == [Invocation(sPath, TagPointsAtHead), Invocation(sPath, LsRemoteTags(parsed.remote))]
      && r.events[|r.events| - 1] ==
           Shown(Route(vscode, extName, ErrorText(""), Some(NoMatchingVersion(extName, parsed.semver.value))))
      && r.thrown.None?
  {
    CommandsAfterQueries(w, extName, extPath, source, vscode, parsed, out, listing);
  }

  /** Several tags on HEAD: `git tag --points-at HEAD` prints one per line, the trimmed
      output keeps the newline between them, no extracted tag can equal it, so the call
      never reports "up to date" and updates whenever some tag matches. */
  lemma SeveralHeadTagsAlwaysUpdate(w: World, extName: string, extPath: string, source: string, vscode: bool,
                                    parsed: ParsedSource, out: string, listing: string)
    requires w.isDirectory(w.join(extPath, extName))
    requires ParseSourceLocVer(w, source) == Success(parsed) && parsed.semver.Some?
    requires w.exec(Invocation(w.join(extPath, extName), TagPointsAtHead)) == Success(out)
    requires w.exec(Invocation(w.join(extPath, extName), LsRemoteTags(parsed.remote))) == Success(listing)
    requires '\n' in Trim(out)
    requires Resolve(w.semver, parsed.semver.value, TagsOf(ListedLines(listing))).Some?
    ensures Invocation(w.join(extPath, extName), FetchTags(parsed.remote))
              in Commands(UpdateRun(w, extName, extPath, source, vscode).events)
  {
    var avail := TagsOf(ListedLines(listing));
    var d := Resolve(w.semver, parsed.semver.value, avail).value;
    TagsOfSound(ListedLines(listing));
    assert IsLineTerminator('\n');
    assert d != Trim(out);
    FetchIffNewTag(w, extName, extPath, source, vscode, parsed, out, listing);
  }
}
