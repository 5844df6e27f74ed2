/** The top-level shell (App.tsx): an IDLE/VIEWING state machine that
    shows the landing screen or the workspace for the chosen file. */
module App {
  import opened Wrappers
  import opened Files
  import Hero

  /** The application states the type declares; only Idle and Viewing are
      ever entered. */
  datatype AppState = Idle | LoadingPdf | Viewing | Error

  /** The shell's two state hooks, plus whether the mounted workspace has
      its document: the workspace's close button is part of the loaded
      view only, so until then there is no way to close it. */
  datatype State = State(appState: AppState, currentFile: Option<File>, workspaceLoaded: bool)

  /** What is on screen: the landing screen, and the workspace with the
      file it shows. */
  datatype Screen = Screen(hero: bool, workspace: Option<File>)

  function Initial(): (a: State)
    ensures a.appState == Idle && a.currentFile == None && !a.workspaceLoaded
  {
    State(Idle, None, false)
  }

  /** The render conditions: the landing screen in Idle, the workspace in
      Viewing when a file is set. The two never show together. */
  function Render(a: State): (v: Screen)
    ensures v.hero <==> a.appState == Idle
    ensures v.workspace.Some? <==> a.appState == Viewing && a.currentFile.Some?
    ensures v.workspace.Some? ==> v.workspace == a.currentFile
    ensures !(v.hero && v.workspace.Some?)
  {
    Screen(a.appState == Idle, if a.appState == Viewing then a.currentFile else None)
  }

  /** `handleFileSelect`: the chosen file is shown in a freshly mounted
      workspace, which has not loaded its document yet. */
  function HandleFileSelect(a: State, f: File): (r: State)
    ensures r.currentFile == Some(f) && r.appState == Viewing && !r.workspaceLoaded
    ensures Render(r) == Screen(false, Some(f))
  {
    State(Viewing, Some(f), false)
  }

  /** `handleClose`: back to the landing screen with no file. */
  function HandleClose(a: State): (r: State)
    ensures r.currentFile == None && r.appState == Idle && !r.workspaceLoaded
    ensures Render(r) == Screen(true, None)
  {
    State(Idle, None, false)
  }

  /** User actions reaching the shell through the mounted children. */
  datatype Event =
    | DropFiles(files: seq<File>)
    | ChooseFiles(chosen: Option<seq<File>>)
    | WorkspaceLoaded
    | WorkspaceLoadFailed
    | CloseWorkspace

  /** The close button is on screen: the workspace is shown and has
      left its "Loading Document..." view. */
  predicate CanClose(a: State) {
    Render(a).workspace.Some? && a.workspaceLoaded
  }

  /** An action takes effect only when the element that raises it is on
      screen: the landing screen for drops and choices, the mounted
      workspace for its document load, the loaded workspace's close button
      for closing. A failed load is only logged by the workspace. */
  function Apply(a: State, e: Event): (r: State)
    ensures !Render(a).hero && (e.DropFiles? || e.ChooseFiles?) ==> r == a
    ensures Render(a).hero && e.DropFiles? && Hero.HandleDrop(e.files).Selected?
            ==> r == HandleFileSelect(a, Hero.HandleDrop(e.files).file)
    ensures e.DropFiles? && !Hero.HandleDrop(e.files).Selected? ==> r == a
    ensures Render(a).hero && e.ChooseFiles? && Hero.HandleInputChange(e.chosen).Some?
            ==> r == HandleFileSelect(a, Hero.HandleInputChange(e.chosen).value)
    ensures e.ChooseFiles? && Hero.HandleInputChange(e.chosen).None? ==> r == a
    ensures e.CloseWorkspace? && CanClose(a) ==> r == HandleClose(a)
    ensures e.CloseWorkspace? && !CanClose(a) ==> r == a
    ensures e.WorkspaceLoadFailed? ==> r == a
    ensures e.WorkspaceLoaded? ==> r.appState == a.appState && r.currentFile == a.currentFile
    ensures e.WorkspaceLoaded? && Render(a).workspace.Some? ==> r.workspaceLoaded
  {
    match e
    case DropFiles(files) =>
      if Render(a).hero && Hero.HandleDrop(files).Selected? then
        HandleFileSelect(a, Hero.HandleDrop(files).file)
      else a
    case ChooseFiles(chosen) =>
      if Render(a).hero && Hero.HandleInputChange(chosen).Some? then
        HandleFileSelect(a, Hero.HandleInputChange(chosen).value)
      else a
    case WorkspaceLoaded =>
      if Render(a).workspace.Some? then a.(workspaceLoaded := true) else a
    case WorkspaceLoadFailed => a
    case CloseWorkspace =>
      if CanClose(a) then HandleClose(a) else a
  }

  function Run(a: State, events: seq<Event>): State
    decreases |events|
  {
    if |events| == 0 then a else Run(Apply(a, events[0]), events[1..])
  }

  /** A file is set exactly in Viewing, only Idle and Viewing occur, and
      only a shown workspace can have loaded. */
  predicate Consistent(a: State) {
    && (a.appState == Idle || a.appState == Viewing)
    && (a.appState == Viewing <==> a.currentFile.Some?)
    && (a.workspaceLoaded ==> a.appState == Viewing)
  }

  /** In every reachable state exactly one of the landing screen and the
      workspace is on screen. */
  lemma {:induction false} RunKeepsOneScreen(a: State, events: seq<Event>)
    requires Consistent(a)
    ensures Consistent(Run(a, events))
    ensures Render(Run(a, events)).hero != Render(Run(a, events)).workspace.Some?
    decreases |events|
  {
    if |events| > 0 {
      RunKeepsOneScreen(Apply(a, events[0]), events[1..]);
    }
  }

  /** A dropped PDF on the landing screen opens in the workspace; any other
      drop leaves the shell as it was. */
  lemma DropOpensOnlyPdf(a: State, files: seq<File>)
    requires Consistent(a) && a.appState == Idle
    ensures var r := Apply(a, DropFiles(files));
            && (Render(r).workspace.Some? <==> |files| > 0 && files[0].mimeType == Hero.PdfMimeType)
            && (Render(r).workspace.Some? ==> Render(r).workspace == Some(files[0]))
            && (Render(r).workspace.None? ==> r == a)
  {
  }

  /** A workspace whose document never loads can never be closed: every
      run of further events that brings no successful load leaves the
      shell in Viewing on the same file. */
  lemma {:induction false} UnloadedWorkspaceStays(a: State, events: seq<Event>)
    requires Consistent(a) && a.appState == Viewing && !a.workspaceLoaded
    requires WorkspaceLoaded !in events
    ensures Run(a, events) == a
    decreases |events|
  {
    if |events| > 0 {
      assert Apply(a, events[0]) == a;
      UnloadedWorkspaceStays(a, events[1..]);
    }
  }

  /** Picking a non-PDF through the file input opens a workspace that,
      once PDF.js fails on it, stays on "Loading Document..." with no way
      back to the landing screen. */
  lemma NonPdfThroughInputIsStuck(a: State, f: File, events: seq<Event>)
    requires Consistent(a) && a.appState == Idle
    requires f.mimeType != Hero.PdfMimeType
    requires WorkspaceLoaded !in events
    ensures Apply(a, DropFiles([f])) == a
    ensures var viewing := Apply(a, ChooseFiles(Some([f])));
            && Render(viewing).workspace == Some(f)
            && Run(Apply(viewing, WorkspaceLoadFailed), events) == viewing
  {
    var viewing := Apply(a, ChooseFiles(Some([f])));
    UnloadedWorkspaceStays(viewing, events);
  }
}
