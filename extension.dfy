/** The VS Code side of the manager, extension.js: the `pvtExtMgr.checkExtensions`
    command handler with its re-entrancy guard and status-bar item, `deactivate`, and
    the synchronous loop of `updateExtensions` that runs update.js once per configured
    extension. */
module Extension {
  import opened Wrappers
  import opened Host
  import opened Update

  const UpdatingText := "PvtExtMgr: Updating private extensions"

  /** The message V8 gives the `TypeError` of reading a property of `undefined`. */
  const UndefinedStateError := "Cannot read properties of undefined (reading 'statusBarItem')"

  /** The `pvtExtMgr` settings the loop reads: `extensions`, in enumeration order, as
      name and source location, and `runAsync`. */
  datatype Config = Config(extensions: seq<(string, string)>, runAsync: bool)

  // ---------------------------------------------------------------------------
  // updateExtensions

  /** One pass of the synchronous loop: the update, then its error pop-up if it threw. */
  function ExtensionEvents(w: World, extPath: string, extension: (string, string)): seq<Event> {
    var r := UpdateRun(w, extension.0, extPath, extension.1, true);
    match r.thrown
    case None => r.events
    case Some(e) => r.events + [Shown(Notice(ErrorMessage, UpdateFailed(e)))]
  }

  /** Everything the synchronous loop produces over `exts`, in order. */
  function BatchRun(w: World, extPath: string, exts: seq<(string, string)>): seq<Event> {
    if exts == [] then []
    else BatchRun(w, extPath, exts[..|exts| - 1]) + ExtensionEvents(w, extPath, exts[|exts| - 1])
  }

  /** `updateExtensions(context)`: reading the configuration may throw; the
      asynchronous branch only spawns processes; the synchronous one runs the loop,
      which catches every exception of `update`. */
  function UpdateExtensionsRun(w: World, extensionPath: string, config: Result<Config, string>): Run {
    match config
    case Failure(e) => Run([], Some(e))
    case Success(c) =>
      if c.runAsync then Run([], None)
      else Run(BatchRun(w, w.join(extensionPath, ".."), c.extensions), None)
  }

  /** The loop over two stretches of the configuration is the loop over each. */
  lemma {:induction false} BatchAppend(w: World, extPath: string, a: seq<(string, string)>, b: seq<(string, string)>)
    ensures BatchRun(w, extPath, a + b) == BatchRun(w, extPath, a) + BatchRun(w, extPath, b)
    decreases |b|
  {
    if b == [] {
      assert a + b == a;
    } else {
      var init := b[..|b| - 1];
      assert (a + b)[..|a + b| - 1] == a + init;
      assert (a + b)[|a + b| - 1] == b[|b| - 1];
      BatchAppend(w, extPath, a, init);
      AppendAssoc(BatchRun(w, extPath, a), BatchRun(w, extPath, init), ExtensionEvents(w, extPath, b[|b| - 1]));
    }
  }

  /** Every configured extension gets its own update, in configuration order, and what
      happens to it depends neither on what the ones before it did nor on whether they
      threw: its events sit between those of the extensions before and after it. */
  lemma EachExtensionRuns(w: World, extPath: string, exts: seq<(string, string)>, i: int)
    requires 0 <= i < |exts|
    ensures BatchRun(w, extPath, exts) ==
      BatchRun(w, extPath, exts[..i]) + ExtensionEvents(w, extPath, exts[i]) + BatchRun(w, extPath, exts[i + 1..])
  {
    assert exts == exts[..i] + [exts[i]] + exts[i + 1..];
    BatchAppend(w, extPath, exts[..i] + [exts[i]], exts[i + 1..]);
    BatchAppend(w, extPath, exts[..i], [exts[i]]);
    assert BatchRun(w, extPath, [exts[i]]) == ExtensionEvents(w, extPath, exts[i]) by {
      assert [exts[i]][..0] == [];
    }
  }

  /** An update that throws is reported by exactly one error pop-up carrying its
      message, right after its own events; one that returns adds nothing. */
  lemma FailureReportedOnce(w: World, extPath: string, extension: (string, string))
    ensures var r := UpdateRun(w, extension.0, extPath, extension.1, true);
      var ev := ExtensionEvents(w, extPath, extension);
      && ev[..|r.events|] == r.events
      && (r.thrown.None? <==> |ev| == |r.events|)
      && (r.thrown.Some? ==> ev[|r.events|..] == [Shown(Notice(ErrorMessage, UpdateFailed(r.thrown.value)))])
  {
  }

  /** `updateExtensions(_context)`: reads the settings, then runs the synchronous loop
      unless `runAsync` is set. */
  method UpdateExtensions(s: Session, extensionPath: string, config: Result<Config, string>)
    returns (thrown: Option<string>)
    modifies s
    ensures s.log == old(s.log) + UpdateExtensionsRun(s.world, extensionPath, config).events
    ensures thrown == UpdateExtensionsRun(s.world, extensionPath, config).thrown
  {
    var extPath := s.world.join(extensionPath, "..");
    if config.Failure? {
      return Some(config.error);
    }
    if config.value.runAsync {
      return None;
    }
    SyncUpdate(s, extPath, config.value.extensions);
    thrown := None;
  }

  /** The synchronous branch: `update` once per extension, in order, each inside its
      own `try`. */
  method SyncUpdate(s: Session, extPath: string, exts: seq<(string, string)>)
    modifies s
    ensures s.log == old(s.log) + BatchRun(s.world, extPath, exts)
  {
    var i := 0;
    while i < |exts|
      invariant 0 <= i <= |exts|
      invariant s.log == old(s.log) + BatchRun(s.world, extPath, exts[..i])
    {
      TryUpdate(s, extPath, exts[i]);
      assert exts[..i + 1][..i] == exts[..i];
      AppendAssoc(old(s.log), BatchRun(s.world, extPath, exts[..i]), ExtensionEvents(s.world, extPath, exts[i]));
      i := i + 1;
    }
    assert exts[..i] == exts;
  }

  /** The loop body: `update(extName, extPath, exts[extName], vscode)`, and on an
      exception the error pop-up. */
  method TryUpdate(s: Session, extPath: string, extension: (string, string))
    modifies s
    ensures s.log == old(s.log) + ExtensionEvents(s.world, extPath, extension)
  {
    var (extName, source) := extension;
    var t := Update.Update(s, extName, extPath, source, true);
    if t.Some? {
      s.Show(Notice(ErrorMessage, UpdateFailed(t.value)));
      AppendAssoc(old(s.log), UpdateRun(s.world, extName, extPath, source, true).events,
                  [Shown(Notice(ErrorMessage, UpdateFailed(t.value)))]);
    }
  }

  // ---------------------------------------------------------------------------
  // The command handler and deactivate

  /** The status-bar item the handler creates: its text and whether it is shown. */
  datatype StatusItem = StatusItem(text: string, visible: bool)

  /** The value of `extState` at one moment; `None` is `undefined`. */
  datatype Snapshot = Snapshot(inProgress: bool, statusBarItem: Option<StatusItem>)

  /** Only the handler and `deactivate` touch the state, and between them a status-bar
      item exists exactly while an update is in progress. */
  predicate Consistent(st: Option<Snapshot>) {
    st.Some? ==> (st.value.inProgress <==> st.value.statusBarItem.Some?)
  }

  datatype Outcome = Outcome(state: Option<Snapshot>, events: seq<Event>)

  /** One invocation of the `pvtExtMgr.checkExtensions` handler from state `st`. */
  function Handle(st: Option<Snapshot>, w: World, extensionPath: string, config: Result<Config, string>): (r: Outcome)
    ensures st.Some? && st.value.inProgress ==>
      r == Outcome(st, [Shown(Notice(ErrorMessage, AlreadyInProgress))])
    ensures !(st.Some? && st.value.inProgress) ==>
      var u := UpdateExtensionsRun(w, extensionPath, config);
      && r.state.Some?
      && (r.state.value.inProgress <==> u.thrown.Some?)
      && (u.thrown.None? ==> r.state.value.statusBarItem.None? && r.events == u.events)
      && (u.thrown.Some? ==> r.state.value.statusBarItem == Some(StatusItem(UpdatingText, true))
                             && r.events == u.events + [Shown(Notice(ConsoleError, ErrorText(u.thrown.value)))])
    ensures Consistent(st) ==> Consistent(r.state)
  {
    if st.Some? && st.value.inProgress then
      Outcome(st, [Shown(Notice(ErrorMessage, AlreadyInProgress))])
    else
      var u := UpdateExtensionsRun(w, extensionPath, config);
      match u.thrown
      case None => Outcome(Some(Snapshot(false, None)), u.events)
      case Some(e) =>
        Outcome(Some(Snapshot(true, Some(StatusItem(UpdatingText, true)))),
                u.events + [Shown(Notice(ConsoleError, ErrorText(e)))])
  }

  /** Once `updateExtensions` has thrown, the guard stays set: every later invocation is
      turned away, and the state never changes again. */
  lemma StuckAfterThrow(st: Option<Snapshot>, w: World, extensionPath: string,
                        first: Result<Config, string>, later: seq<Result<Config, string>>)
    requires !(st.Some? && st.value.inProgress)
    requires UpdateExtensionsRun(w, extensionPath, first).thrown.Some?
    ensures var stuck := Handle(st, w, extensionPath, first).state;
      forall k :: 0 <= k < |later| ==>
        Handle(stuck, w, extensionPath, later[k]) == Outcome(stuck, [Shown(Notice(ErrorMessage, AlreadyInProgress))])
  {
  }

  /** After `deactivate` the state is `undefined`, and the next invocation behaves as
      on the fresh `{}` of activation. */
  lemma FreshAfterDeactivate(w: World, extensionPath: string, config: Result<Config, string>)
    ensures Handle(None, w, extensionPath, config) == Handle(Some(Snapshot(false, None)), w, extensionPath, config)
  {
  }

  /** The mutable `extState` object. */
  class ExtState {
    var inProgress: bool
    var statusBarItem: Option<StatusItem>

    /** `{}`: not in progress, no item. */
    constructor ()
      ensures !inProgress && statusBarItem.None?
    {
      inProgress := false;
      statusBarItem := None;
    }
  }

  /** The loaded extension: the closure-scoped `extState` and the editor it runs in. */
  class Manager {
    const session: Session
    var extState: ExtState?

    function Snap(): Option<Snapshot>
      reads this, extState
    {
      if extState == null then None else Some(Snapshot(extState.inProgress, extState.statusBarItem))
    }

    /** Module load: `let extState = {};`. */
    constructor (session: Session)
      ensures this.session == session
      ensures Snap() == Some(Snapshot(false, None)) && fresh(extState)
    {
      this.session := session;
      extState := new ExtState();
    }

    /** The `pvtExtMgr.checkExtensions` command handler. */
    method CheckExtensions(extensionPath: string, config: Result<Config, string>)
      modifies this, extState, session
      ensures Snap() == Handle(old(Snap()), session.world, extensionPath, config).state
      ensures session.log == old(session.log) + Handle(old(Snap()), session.world, extensionPath, config).events
      ensures old(extState) != null ==> extState == old(extState)
      ensures old(extState) == null ==> fresh(extState)
    {
      if extState != null {
        if extState.inProgress {
          session.Show(Notice(ErrorMessage, AlreadyInProgress));
          return;
        }
      } else {
        extState := new ExtState();
      }
      extState.inProgress := true;
      if extState.statusBarItem.None? {
        extState.statusBarItem := Some(StatusItem("", false));
      }
      extState.statusBarItem := Some(StatusItem(UpdatingText, true));
      var thrown := UpdateExtensions(session, extensionPath, config);
      if thrown.Some? {
        session.Show(Notice(ConsoleError, ErrorText(thrown.value)));
        return;
      }
      extState.statusBarItem := None;
      extState.inProgress := false;
    }

    /** `deactivate()`: drop the item and the state; with the state already `undefined`
        it throws reading `extState.statusBarItem`. */
    method Deactivate() returns (thrown: Option<string>)
      modifies this, extState
      ensures extState == null
      ensures thrown.Some? <==> old(extState) == null
      ensures thrown.Some? ==> thrown.value == UndefinedStateError
      ensures old(extState) != null ==> old(extState).statusBarItem.None?
    {
      if extState == null {
        return Some(UndefinedStateError);
      }
      if extState.statusBarItem.Some? {
        extState.statusBarItem := None;
      }
      extState := null;
      thrown := None;
    }
  }
}
