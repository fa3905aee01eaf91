/** The outside world as the update engine sees it, and the record of what the engine
    did to it. Everything the JavaScript reaches through Node or VS Code (`path.join`,
    `fs.existsSync`/`statSync`, `url.parse`, `decodeURI`, `child_process.execSync`, and
    the semver libraries) is a function supplied in a `World`; a `Session` keeps one
    ordered log of the commands the engine ran and the messages it showed. */
module Host {
  import opened Wrappers
  import Semver

  /** A repository address as update.js prints it: `<auth>@<host>:<path>`. */
  datatype Remote = Remote(auth: string, host: string, path: string)

  /** What `url.parse` yields that the engine reads. Each component is given as `%s`
      renders it (a missing `auth` reads "null"); `hash` is the fragment with its
      leading `#`, or `None` when there is none. */
  datatype Url = Url(remote: Remote, hash: Option<string>)

  /** The shell commands update.js runs, always with the extension directory as `cwd`. */
  datatype Command =
    | TagPointsAtHead            // git tag --points-at HEAD
    | LsRemoteTags(from: Remote) // git ls-remote --tags <remote>
    | FetchTags(from: Remote)    // git fetch --tags <remote>
    | Checkout(tag: string)      // git checkout <tag>
    | NpmInstall                 // npm install

  datatype Invocation = Invocation(cwd: string, command: Command)

  /** Where a message goes: VS Code's information or error pop-up, or standard
      output or standard error of the process. */
  datatype Channel = InfoMessage | ErrorMessage | ConsoleLog | ConsoleError {
    predicate IsError() { this == ErrorMessage || this == ConsoleError }
    predicate IsPopup() { this == InfoMessage || this == ErrorMessage }
  }

  /** The messages the manager shows, each with what it carries. `Text` renders one
      as the user sees it. */
  datatype Message =
    | UpdateStarted                                   // update.js
    | ExtensionExists
    | CheckingSemver
    | ExtensionNotFound
    | NeedsUpdating(extName: string, tag: string)
    | NoMatchingVersion(extName: string, selector: string)
    | UpToDate(extName: string)
    | GitFetchOutput(output: string)
    | GitCheckoutOutput(output: string)
    | ErrorText(error: string)                        // the `message` of a thrown error
    | Prefixed(extName: string, body: Message)        // emitFeedback without a host
    | UpdateFailed(error: string)                     // extension.js
    | AlreadyInProgress
  {
    function Text(): string {
      match this
      case UpdateStarted => "update started..."
      case ExtensionExists => "extension exists..."
      case CheckingSemver => "checking semver..."
      case ExtensionNotFound => "Extension not found."
      case NeedsUpdating(extName, tag) => "`" + extName + "` needs updating... (" + tag + ")"
      case NoMatchingVersion(extName, selector) =>
        "`" + extName + "` does not have any matching version in the indicated repository (" + selector + ")"
      case UpToDate(extName) => "`" + extName + "` up to date."
      case GitFetchOutput(output) => "git fetch: " + output
      case GitCheckoutOutput(output) => "git checkout: " + output
      case ErrorText(error) => error
      case Prefixed(extName, body) => "[" + extName + "]:" + body.Text()
      case UpdateFailed(error) => "PvtExtMgr: Error! \"" + error + "\""
      case AlreadyInProgress => "Private Extension Manager: Extension update already in progress."
    }
  }

  datatype Notice = Notice(channel: Channel, message: Message)

  /** One observable effect: a command was run, or a message was shown. */
  datatype Event = Issued(invocation: Invocation) | Shown(notice: Notice)

  /** The oracles. `exec` answers an invocation with its standard output, or with the
      message of the error `execSync` throws (non-zero exit, missing tool, ...). */
  datatype World = World(
    join: (string, string) -> string,
    isDirectory: string -> bool,
    urlParse: string -> Url,
    decodeUri: string -> Option<string>,
    exec: Invocation -> Result<string, string>,
    semver: Semver.Library)

  /** The effects of one call, in order, and the message of the exception it ended
      with, if any. */
  datatype Run = Run(events: seq<Event>, thrown: Option<string>)

  /** The commands among some events, in order. */
  function Commands(events: seq<Event>): (cs: seq<Invocation>)
    ensures |cs| <= |events|
  {
    if events == [] then []
    else
      var rest := Commands(events[..|events| - 1]);
      match events[|events| - 1]
      case Issued(inv) => rest + [inv]
      case Shown(_) => rest
  }

  lemma {:induction false} CommandsAppend(a: seq<Event>, b: seq<Event>)
    ensures Commands(a + b) == Commands(a) + Commands(b)
    decreases |b|
  {
    if b == [] {
      assert a + b == a;
    } else {
      assert (a + b)[..|a + b| - 1] == a + b[..|b| - 1];
      CommandsAppend(a, b[..|b| - 1]);
    }
  }

  lemma AppendAssoc<T>(a: seq<T>, b: seq<T>, c: seq<T>)
    ensures a + b + c == a + (b + c)
  {
  }

  lemma CommandsOfIssued(inv: Invocation)
    ensures Commands([Issued(inv)]) == [inv]
  {
    assert [Issued(inv)][..0] == [];
  }

  lemma CommandsOfShown(n: Notice)
    ensures Commands([Shown(n)]) == []
  {
    assert [Shown(n)][..0] == [];
  }

  /** Commands in a run made only of messages: none. */
  lemma {:induction false} CommandsOfNotices(events: seq<Event>)
    requires forall k :: 0 <= k < |events| ==> events[k].Shown?
    ensures Commands(events) == []
    decreases |events|
  {
    if events != [] {
      CommandsOfNotices(events[..|events| - 1]);
    }
  }

  /** Messages in front of some events add no command. */
  lemma CommandsAfterNotices(notes: seq<Event>, rest: seq<Event>)
    requires forall k :: 0 <= k < |notes| ==> notes[k].Shown?
    ensures Commands(notes + rest) == Commands(rest)
  {
    CommandsOfNotices(notes);
    CommandsAppend(notes, rest);
    assert [] + Commands(rest) == Commands(rest);
  }

  /** Two commands in front of some events. */
  lemma CommandsAfterTwo(first: Invocation, second: Invocation, rest: seq<Event>)
    ensures Commands([Issued(first), Issued(second)] + rest) == [first, second] + Commands(rest)
  {
    CommandsAppend([Issued(first), Issued(second)], rest);
    CommandsAppend([Issued(first)], [Issued(second)]);
    assert [Issued(first), Issued(second)] == [Issued(first)] + [Issued(second)];
    CommandsOfIssued(first);
    CommandsOfIssued(second);
  }

  /** The editor host as the engine meets it: the world it queries and the log of what
      it has been told to do so far. */
  class Session {
    const world: World
    var log: seq<Event>

    constructor (world: World)
      ensures this.world == world && log == []
    {
      this.world := world;
      log := [];
    }

    /** `child_process.execSync(command, { cwd })`. */
    method Exec(inv: Invocation) returns (r: Result<string, string>)
      modifies this
      ensures log == old(log) + [Issued(inv)]
      ensures r == world.exec(inv)
    {
      log := log + [Issued(inv)];
      r := world.exec(inv);
    }

    /** `showInformationMessage`, `showErrorMessage`, `console.log` or `console.error`. */
    method Show(n: Notice)
      modifies this
      ensures log == old(log) + [Shown(n)]
    {
      log := log + [Shown(n)];
    }
  }
}
