# Private Extension Manager: the update engine, in Dafny

The Private Extension Manager is a VS Code extension. It keeps other extensions
up to date from private git repositories. Each managed extension has a source location
such as `git+ssh://user@host:/srv/git/repo.git#semver:^1.2.0`. The fragment carries a
version selector: `latest`, `prerelease` or a semver range.

This project models the engine in two parts.

**update.js**, the update of one extension:
- Parse the source location and extract the selector.
- Read the tag checked out at `HEAD`.
- List the remote's annotated tags with `git ls-remote --tags`.
- Resolve the selector to the highest eligible tag.
- Either report "up to date" or "no matching version", or run `git fetch --tags`,
  `git checkout <tag>` and `npm install`.
- Send every message through `emitFeedback`.

**extension.js**, the VS Code side:
- The `pvtExtMgr.checkExtensions` command handler, with its `inProgress` guard and
  status-bar item.
- `deactivate`.
- The synchronous loop of `updateExtensions`, which runs update.js once per configured
  extension.

Everything the JavaScript reaches through Node or VS Code is a function in a `World`:
- `path.join`, and the existence check `existsSync`/`statSync().isDirectory()`;
- `url.parse` and `decodeURI`;
- `child_process.execSync`, which answers with output or an error message;
- semver parsing and range satisfaction.

A `Session` object keeps one ordered log of the commands run and the messages shown.

Each stateful operation has two forms:
- a method that works step by step on the `Session` (and, for the handler, on the
  mutable `extState` object);
- a pure function giving the whole run.

Each method is proved to produce exactly its function's run. The lemmas state what the
runs promise.

Modules, one per file:
- `Wrappers`: `Option` and `Result`.
- `JsString`: `split`, `trim` and the line terminators of JavaScript regular expressions.
- `Semver`: precedence, as in section 11 of Semantic Versioning 2.0.0.
- `Host`: the world, the messages and the session log.
- `SourceParser`: `parseSourceLocVer`.
- `TagLister`: `getAvailableVersions` and the tag-extraction loop.
- `Resolver`: `maxStable`, `max` and `maxSatisfying`.
- `Update`: the exported function of update.js.
- `Extension`: extension.js.

The model follows the code on these points:
- There is no "clean" step and there are no status codes. `updateExtension` simply
  throws at the first failing command.
- There is no cancellation or progress tracking.
- A `runAsync` setting selects a separate, asynchronous branch.
- An exception thrown out of `updateExtensions` leaves `inProgress` set: the handler's
  reset lines are skipped, and nothing else clears the flag until `deactivate`.
- The selector is the capture of `/#semver:(.+)/` on the whole decoded fragment,
  which includes the fragment's leading `#`.
- Each per-extension failure raises an error pop-up, `PvtExtMgr: Error! "<message>"`.

## Model

| member | source | states |
|---|---|---|
| JsString.Split | update.js:31 | `split` on one character always returns at least one part, no part contains the separator, and joining the parts with it gives back the input |
| JsString.SplitJoin | update.js:102 | splitting parts that were joined with a separator they do not contain gives back exactly those parts |
| JsString.Trim | update.js:27 | the result has no leading or trailing whitespace and is the input with only whitespace removed at both ends |
| JsString.TrimPadded | update.js:27 | trimming a trimmed string padded with any whitespace gives that string back |
| JsString.TrimIdempotent | update.js:27 | trimming twice is trimming once |
| Semver.CompareFlip | update.js:43-48 | swapping the arguments of precedence comparison flips the result, and two versions compare equal exactly when they differ at most in build metadata |
| Semver.CompareTransitive | update.js:43-48 | precedence is transitive, and strictly so when either step is strict |
| Semver.PrereleaseBelowRelease | update.js:43-44 | a pre-release has lower precedence than the release with the same major, minor and patch |
| Host.Session.Exec | update.js:26 | `execSync` appends the invocation to the log and returns what the world answers |
| Host.Session.Show | update.js:117-131 | showing a message appends it to the log |
| SourceParser.SelectorOf | update.js:84-86 | no selector exactly when `/#semver:(.+)/` has no match; otherwise a non-empty capture taken at the leftmost match and running greedily to the first line terminator |
| SourceParser.SelectorRoundTrip | update.js:84-86 | a single-line selector written after `#semver:`, with no match starting before that marker, is exactly what is extracted |
| SourceParser.NoMarkNoSelector | update.js:84-86 | a fragment with no `#semver:` marker yields no selector |
| SourceParser.ParseSourceLocVer | update.js:73-95 | fails exactly when the fragment is non-empty and `decodeURI` throws; keeps the parsed address; the fragment kept is the decoded one (or `url.parse`'s own when empty or absent); yields a selector exactly when the decoded fragment has a match, and that selector is the capture |
| TagLister.TagRefMatch | update.js:33-35 | no name exactly when the field holds no `refs/tags/<name>^{}` with a non-empty single-line name; otherwise the capture at the leftmost `refs/tags/`, ending at the last possible `^{}` |
| TagLister.TagCaptureUnique | update.js:33 | the capture is unique: the leftmost-greedy rule determines one name |
| TagLister.AnnotatedLine | update.js:30-37 | a line `<sha>\trefs/tags/<name>^{}` with a plain name contributes exactly `<name>` |
| TagLister.LightweightLine | update.js:30-37 | a line `<sha>\trefs/tags/<name>` without the `^{}` peel marker contributes nothing |
| TagLister.ExtractTags | update.js:29-38 | the loop produces the names of the lines that match, in line order |
| TagLister.TagsOfAppend | update.js:29-38 | extraction over two stretches of output is the concatenation of the extractions |
| TagLister.TagsOfSound | update.js:29-38 | every extracted name is non-empty, spans no line terminator, and is the capture of some input line |
| TagLister.ListedLines | update.js:102-106 | the lines returned are `\n`-free, they with a `\n` after each are exactly the start of the output, and what follows the last `\n` (normally the empty remainder) is dropped |
| TagLister.ListedLinesRoundTrip | update.js:102-106 | for output made of `\n`-terminated lines, the listing is exactly those lines |
| TagLister.GetAvailableVersions | update.js:99-107 | issues `git ls-remote --tags <auth>@<host>:<path>` in the extension directory; propagates its failure, otherwise returns the listed lines |
| Resolver.HighestFrom | update.js:48 | the index of an eligible tag that no eligible tag exceeds, strictly above every eligible tag before it, or none when nothing is eligible |
| Resolver.Resolve | update.js:42-49 | none exactly when no listed tag is eligible; otherwise a listed, eligible tag that no eligible tag exceeds in precedence |
| Resolver.ResolveIsPick | update.js:42-49 | the first listed tag among those of highest precedence is the one resolved |
| Resolver.LatestIsHighestStable | update.js:43-44 | `latest` resolves to a stable version no stable listed version exceeds |
| Resolver.PrereleaseAtLeastLatest | update.js:45-46 | `prerelease` resolves whenever `latest` does, to a version at least as high, and no listed version exceeds it |
| Resolver.ExampleLatest | update.js:43-44 | of `1.0.0`, `1.2.0` and `2.0.0-beta.1`, `latest` picks `1.2.0` |
| Resolver.ExamplePrerelease | update.js:45-46 | of the same tags, `prerelease` picks `2.0.0-beta.1` |
| Resolver.ExampleCaret | update.js:47-48 | of the same tags, `^1.0.0` picks `1.2.0` |
| Resolver.ExampleNoMatch | update.js:47-48 | of the same tags, `^3.0.0` picks nothing |
| Update.Route | update.js:117-131 | an error object goes to an error channel and anything else to an information channel; with a host the message goes to a pop-up, without one to the console with an `[extName]:` prefix; an error shows its own message |
| Update.RouteText | update.js:117-131 | the rendered line is the message, or the error's message, preceded by `[extName]:` exactly when there is no host |
| Update.EmitFeedback | update.js:117-131 | appends exactly the routed message to the log |
| Update.FailFastPrefix | update.js:109-115 | a fail-fast sequence runs a non-empty prefix of its commands; all but the last succeeded; it fails exactly when the last one failed, with that command's message |
| Update.UpdateExtensionFailFast | update.js:109-115 | `updateExtension` runs fetch, checkout and install as a fail-fast sequence, and throws what that sequence fails with |
| Update.UpdateExtensionStartsWithFetch | update.js:110 | the first command of `updateExtension` is always `git fetch --tags` from the parsed remote |
| Update.UpdateExtension | update.js:109-115 | the step-by-step `updateExtension` produces exactly its specified run |
| Update.Decide | update.js:51-65 | update exactly when a tag was resolved and it differs from the current tag; no match exactly when none was resolved; up to date exactly when the resolved tag equals the current one |
| Update.Update | update.js:5-71 | the exported function produces exactly the specified run: the same messages and commands in the same order, and the same exception |
| Update.UpdateExisting | update.js:17-68 | the existing-directory branch produces exactly its specified run |
| Update.CheckSemver | update.js:40-65 | the selector branch produces exactly its specified run |
| Update.MissingExtension | update.js:14-71 | without an extension directory there are only "update started..." and "Extension not found.", no command, and no exception |
| Update.NoSelectorNoResolution | update.js:23-68 | without a selector, `HEAD` and the remote tags are still queried, and nothing is reported or run after that |
| Update.SelectorCommands | update.js:40-65 | after "checking semver..." the only commands are those of `updateExtension`, and only when the decision is to update |
| Update.ExistingCommands | update.js:23-40 | once both git queries have answered, the commands so far are exactly `git tag --points-at HEAD` then `git ls-remote --tags` |
| Update.CommandsAfterQueries | update.js:23-65 | with a selector, the commands of a call are the two queries, followed by `updateExtension`'s commands when the decision is to update |
| Update.FetchIffNewTag | update.js:51-55 | the fetch is issued exactly when the resolved tag exists and differs from the trimmed current tag |
| Update.UpToDateRunsNothing | update.js:60-63 | when the resolved tag is the checked-out one, the call ends with "up to date", runs nothing after the queries, and does not throw |
| Update.NoMatchReported | update.js:57-58 | when no listed tag is eligible, the call ends with the "no matching version" error, runs nothing after the queries, and does not throw |
| Update.SeveralHeadTagsAlwaysUpdate | update.js:26-27 | when several tags point at `HEAD`, the trimmed current value keeps a newline, so any resolved tag triggers the fetch |
| Extension.BatchAppend | extension.js:151-158 | the loop over two stretches of the configuration is the loop over one, then the loop over the other |
| Extension.EachExtensionRuns | extension.js:151-158 | every configured extension's events sit, in configuration order, between those of the extensions before and after it, whatever those did or threw |
| Extension.FailureReportedOnce | extension.js:152-157 | an update that throws is followed by exactly one error pop-up carrying its message; one that returns adds nothing |
| Extension.UpdateExtensions | extension.js:100-160 | produces exactly the specified run: a settings failure is thrown, `runAsync` throws nothing and adds nothing to the log, otherwise the loop runs over `<extensionPath>/..` |
| Extension.SyncUpdate | extension.js:149-159 | the synchronous loop's log is the concatenation, in order, of each extension's events |
| Extension.TryUpdate | extension.js:152-157 | one pass of the loop: the update's events, then the error pop-up if it threw |
| Extension.Handle | extension.js:44-70 | while in progress, a call only shows the "already in progress" error and changes nothing; otherwise the state ends in progress exactly when `updateExtensions` threw; the status-bar item is then left shown, otherwise it is dropped; a status-bar item exists exactly while in progress, and this is preserved |
| Extension.StuckAfterThrow | extension.js:55-69 | once `updateExtensions` has thrown, every later call is turned away and the state never changes again |
| Extension.FreshAfterDeactivate | extension.js:46-53 | after `deactivate` the next call behaves as on the fresh state of activation |
| Extension.Manager.constructor | extension.js:41 | the state starts as `{}`: not in progress, no status-bar item |
| Extension.Manager.CheckExtensions | extension.js:44-70 | the handler's new state and log are exactly those of `Handle`; it keeps the same state object, or makes a fresh one when the state was `undefined` |
| Extension.Manager.Deactivate | extension.js:74-80 | the state becomes `undefined` and the old object's item is dropped; with the state already `undefined` it throws a `TypeError` |

## Left out

- The `runAsync` branch of `updateExtensions` (extension.js:111-148) is left out. It spawns one `node updateExtension.js` process per extension synchronously, through each Promise's executor, and collects the promises. The spawns and their later output, exit and error events are not modelled. Nothing in the branch throws synchronously, so the model gives it no effect, and the handler resets its state at once, as the code does.
- updateEx.js and updateExtension.js are not part of this model. updateEx.js is an IPC message and heartbeat loop with no update logic. updateExtension.js is the command-line wrapper the `runAsync` branch spawns.
- `path.join`, `existsSync`/`statSync`, `url.parse`, `decodeURI`, `execSync` and the semver libraries are oracles. Their internals are not modelled: the range grammar, version validity, URL syntax and percent-decoding.
- The `World` is fixed for a whole run. Commands do not change what later commands answer, and timing is not modelled.
- The status-bar item's `hide()` and `show()` are recorded only as its `visible` flag. `createStatusBarItem`'s alignment is not recorded.
- The order of `for (let extName in exts)` is taken to be the configured order. JavaScript enumerates integer-like keys first, in numeric order; that is not modelled.
- Strings are sequences of characters. UTF-16 lone surrogates and `toString()` decoding of command output are not modelled.
- Resolver.Resolve: "nothing eligible" is modelled as `null`. Whether semver-extra's `max` and `maxStable` return `null` or `undefined` on an empty list is not modelled. The model also takes those two to skip tags that are not versions, as `semver.maxSatisfying` does; if they sorted with `semver.rcompare`, an invalid tag would make them throw instead.
- Messages are values of `Message`. `Message.Text` renders them as the code formats them, but the log holds the values, not the rendered strings.
