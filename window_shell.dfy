/**
 * The window shell of the launcher as a value: the fullscreen and sidebar fields of
 * MainWindow, the window properties it changes and the layout elements it sets. Each
 * handler of the window is a function from the shell before to the shell after; the
 * class in module Launcher is proved to perform exactly these transitions.
 */
module WindowShell {
  import opened Wrappers
  import opened Wpf

  const DEFAULT_SIDEBAR_WIDTH: Length := 320.0
  const SPLITTER_WIDTH: Length := 6.0
  const MAXIMIZE_GLYPH := "\U{E922}"
  const RESTORE_GLYPH := "\U{E923}"
  const ENTER_FULLSCREEN_LABEL := "Fullscreen (F11)"
  const EXIT_FULLSCREEN_LABEL := "Exit Fullscreen (F11)"
  const VK_F11 := 0x7A
  const VK_ESCAPE := 0x1B
  /** The chrome ExitFullscreen installs. */
  const SHELL_CHROME := WindowChrome(50.0, 6.0, 0.0, 0.0, false)

  /** The properties of the Window the shell changes. */
  datatype WindowProperties = WindowProperties(
    windowState: WindowState,
    resizeMode: ResizeMode,
    topmost: bool,
    chrome: Option<WindowChrome>)   // None: the window chrome was removed

  /** The named layout elements the shell writes. */
  datatype Layout = Layout(
    sidebarColumnWidth: Length,       // SidebarColumn.Width
    splitterColumnWidth: Length,      // SplitterColumn.Width
    gameListPanel: Visibility,
    columnSplitter: Visibility,
    topBar: Visibility,
    fullscreenButtonContent: string,
    maxRestoreButtonContent: string)

  /** The window's own shell fields, with the window properties and layout they drive. */
  datatype Shell = Shell(
    isFullscreen: bool,
    previousWindowState: WindowState,
    previousResizeMode: ResizeMode,
    previousTopmost: bool,
    isSidebarVisible: bool,
    lastSidebarWidth: Length,
    wasSidebarVisibleBeforeFullscreen: bool,
    window: WindowProperties,
    layout: Layout)

  /** UpdateMaximizeIcon's choice: the restore glyph when maximized, the maximize glyph otherwise. */
  function MaximizeGlyph(ws: WindowState): (glyph: string)
    ensures glyph == RESTORE_GLYPH <==> ws == Maximized
    ensures glyph == MAXIMIZE_GLYPH <==> ws != Maximized
  {
    if ws == Maximized then RESTORE_GLYPH else MAXIMIZE_GLYPH
  }

  /** A hidden sidebar takes no room and shows neither its panel nor its splitter. */
  predicate CollapsedSidebar(l: Layout) {
    l.sidebarColumnWidth == 0.0 && l.splitterColumnWidth == 0.0 && l.gameListPanel == Collapsed && l.columnSplitter == Collapsed
  }

  /**
   * The invariant every handler keeps: a remembered sidebar width is always positive, the
   * max/restore glyph matches the window state, a hidden sidebar takes no room, a shown one
   * shows its panel and splitter, and in fullscreen the window is locked down.
   */
  predicate Inv(s: Shell) {
    && s.lastSidebarWidth > 0.0
    && s.layout.maxRestoreButtonContent == MaximizeGlyph(s.window.windowState)
    && (!s.isSidebarVisible ==> CollapsedSidebar(s.layout))
    && (s.isSidebarVisible ==> s.layout.gameListPanel == Visible && s.layout.columnSplitter == Visible)
    && (s.isFullscreen ==> s.window.resizeMode == NoResize && s.window.topmost && s.window.chrome.None?
                           && s.layout.topBar == Collapsed && s.layout.fullscreenButtonContent == EXIT_FULLSCREEN_LABEL)
  }

  /** Assigning WindowState; the StateChanged subscription then runs UpdateMaximizeIcon. */
  function WithWindowState(s: Shell, ws: WindowState): (t: Shell)
    ensures t.window.windowState == ws && t.layout.maxRestoreButtonContent == MaximizeGlyph(ws)
    ensures t.(window := s.window, layout := s.layout) == s
    ensures t.window.(windowState := s.window.windowState) == s.window
    ensures t.layout.(maxRestoreButtonContent := s.layout.maxRestoreButtonContent) == s.layout
    ensures Inv(s) ==> Inv(t)
  {
    s.(window := s.window.(windowState := ws), layout := s.layout.(maxRestoreButtonContent := MaximizeGlyph(ws)))
  }

  /** The width a shown sidebar gets: the remembered width, or the default when none is positive. */
  function RestoredWidth(last: Length): (w: Length)
    ensures w > 0.0
    ensures last > 0.0 ==> w == last
    ensures last <= 0.0 ==> w == DEFAULT_SIDEBAR_WIDTH
  {
    if last <= 0.0 then DEFAULT_SIDEBAR_WIDTH else last
  }

  /** Nothing outside the sidebar columns, its two elements and the remembered width differs. */
  predicate SameOutsideSidebar(s: Shell, t: Shell) {
    && t.(isSidebarVisible := s.isSidebarVisible, lastSidebarWidth := s.lastSidebarWidth, layout := s.layout) == s
    && t.layout.topBar == s.layout.topBar
    && t.layout.fullscreenButtonContent == s.layout.fullscreenButtonContent
    && t.layout.maxRestoreButtonContent == s.layout.maxRestoreButtonContent
  }

  /**
   * SetSidebarVisibility. Showing restores the remembered width (320 when none is positive)
   * with a 6-pixel splitter; hiding remembers the current width, but only when the sidebar
   * was shown with a positive width, then collapses both columns.
   */
  function SidebarSet(s: Shell, visible: bool): (t: Shell)
    ensures t.isSidebarVisible == visible
    ensures SameOutsideSidebar(s, t)
    ensures visible ==> && t.lastSidebarWidth == RestoredWidth(s.lastSidebarWidth)
                        && t.layout.sidebarColumnWidth == t.lastSidebarWidth && t.lastSidebarWidth > 0.0
                        && t.layout.splitterColumnWidth == SPLITTER_WIDTH
                        && t.layout.gameListPanel == Visible && t.layout.columnSplitter == Visible
    ensures !visible ==> CollapsedSidebar(t.layout)
    ensures !visible && s.isSidebarVisible && s.layout.sidebarColumnWidth > 0.0 ==>
              t.lastSidebarWidth == s.layout.sidebarColumnWidth
    ensures !visible && !(s.isSidebarVisible && s.layout.sidebarColumnWidth > 0.0) ==>
              t.lastSidebarWidth == s.lastSidebarWidth
    ensures Inv(s) ==> Inv(t)
  {
    if visible then
      var last := if s.lastSidebarWidth <= 0.0 then DEFAULT_SIDEBAR_WIDTH else s.lastSidebarWidth;
      s.(lastSidebarWidth := last, isSidebarVisible := true,
         layout := s.layout.(sidebarColumnWidth := last, splitterColumnWidth := SPLITTER_WIDTH,
                             gameListPanel := Visible, columnSplitter := Visible))
    else
      var last := if s.isSidebarVisible && s.layout.sidebarColumnWidth > 0.0 then s.layout.sidebarColumnWidth
                  else s.lastSidebarWidth;
      s.(lastSidebarWidth := last, isSidebarVisible := false,
         layout := s.layout.(sidebarColumnWidth := 0.0, splitterColumnWidth := 0.0,
                             gameListPanel := Collapsed, columnSplitter := Collapsed))
  }

  /** ToggleSidebar_Click. */
  function SidebarToggled(s: Shell): (t: Shell)
    ensures t.isSidebarVisible == !s.isSidebarVisible
    ensures SameOutsideSidebar(s, t)
    ensures Inv(s) ==> Inv(t)
  {
    SidebarSet(s, !s.isSidebarVisible)
  }

  /**
   * EnterFullscreen. Nothing happens if already fullscreen. Otherwise the window remembers
   * the sidebar visibility, window state, resize mode and topmost flag, hides the top bar,
   * removes the chrome, collapses the sidebar (remembering its width) or just the splitter,
   * and becomes a topmost, non-resizable maximized window.
   */
  function FullscreenEntered(s: Shell): (t: Shell)
    ensures s.isFullscreen ==> t == s
    ensures !s.isFullscreen ==>
      && t.isFullscreen && t.window == WindowProperties(Maximized, NoResize, true, None)
      && t.layout.topBar == Collapsed && t.layout.fullscreenButtonContent == EXIT_FULLSCREEN_LABEL
      && !t.isSidebarVisible
      && t.layout.sidebarColumnWidth == (if s.isSidebarVisible then 0.0 else s.layout.sidebarColumnWidth)
      && t.layout.splitterColumnWidth == 0.0 && t.layout.columnSplitter == Collapsed
      && t.wasSidebarVisibleBeforeFullscreen == s.isSidebarVisible
      && t.previousWindowState == s.window.windowState && t.previousResizeMode == s.window.resizeMode
      && t.previousTopmost == s.window.topmost
    ensures !s.isFullscreen && s.isSidebarVisible && s.layout.sidebarColumnWidth > 0.0 ==>
              t.lastSidebarWidth == s.layout.sidebarColumnWidth
    ensures !(s.isSidebarVisible && s.layout.sidebarColumnWidth > 0.0) ==> t.lastSidebarWidth == s.lastSidebarWidth
    ensures Inv(s) ==> Inv(t)
  {
    if s.isFullscreen then s
    else
      var t := LockedDown(SidebarCollapsedForFullscreen(PreparedForFullscreen(s)));
      t.(isFullscreen := true, layout := t.layout.(fullscreenButtonContent := EXIT_FULLSCREEN_LABEL))
  }

  /** The first phase of EnterFullscreen: remember the sidebar, hide the top bar, remove the chrome. */
  function PreparedForFullscreen(s: Shell): (t: Shell)
    ensures t.wasSidebarVisibleBeforeFullscreen == s.isSidebarVisible
    ensures t.layout == s.layout.(topBar := Collapsed) && t.window == s.window.(chrome := None)
    ensures t.(wasSidebarVisibleBeforeFullscreen := s.wasSidebarVisibleBeforeFullscreen,
               layout := s.layout, window := s.window) == s
  {
    s.(wasSidebarVisibleBeforeFullscreen := s.isSidebarVisible,
       layout := s.layout.(topBar := Collapsed), window := s.window.(chrome := None))
  }

  /** The second phase: hide a shown sidebar, or collapse only the splitter of a hidden one. */
  function SidebarCollapsedForFullscreen(s: Shell): (t: Shell)
    ensures !t.isSidebarVisible && t.layout.splitterColumnWidth == 0.0 && t.layout.columnSplitter == Collapsed
    ensures SameOutsideSidebar(s, t)
    ensures s.isSidebarVisible ==> CollapsedSidebar(t.layout)
    ensures s.isSidebarVisible && s.layout.sidebarColumnWidth > 0.0 ==> t.lastSidebarWidth == s.layout.sidebarColumnWidth
    ensures !(s.isSidebarVisible && s.layout.sidebarColumnWidth > 0.0) ==> t.lastSidebarWidth == s.lastSidebarWidth
    ensures !s.isSidebarVisible ==> t.layout.sidebarColumnWidth == s.layout.sidebarColumnWidth
                                    && t.layout.gameListPanel == s.layout.gameListPanel
  {
    if s.isSidebarVisible then SidebarSet(s, false)
    else s.(layout := s.layout.(splitterColumnWidth := 0.0, columnSplitter := Collapsed))
  }

  /**
   * The third phase: remember the window state, resize mode and topmost flag, make the window
   * topmost and not resizable, then set it to Normal and to Maximized, so that StateChanged
   * fires even for a window that is already maximized.
   */
  function LockedDown(s: Shell): (t: Shell)
    ensures t.window == s.window.(windowState := Maximized, resizeMode := NoResize, topmost := true)
    ensures t.previousWindowState == s.window.windowState && t.previousResizeMode == s.window.resizeMode
            && t.previousTopmost == s.window.topmost
    ensures t.layout == s.layout.(maxRestoreButtonContent := RESTORE_GLYPH)
    ensures t.(previousWindowState := s.previousWindowState, previousResizeMode := s.previousResizeMode,
               previousTopmost := s.previousTopmost, window := s.window, layout := s.layout) == s
  {
    var locked := s.(previousWindowState := s.window.windowState, previousResizeMode := s.window.resizeMode,
                     previousTopmost := s.window.topmost,
                     window := s.window.(resizeMode := NoResize, topmost := true));
    WithWindowState(WithWindowState(locked, Normal), Maximized)
  }


  /**
   * ExitFullscreen. Nothing happens unless fullscreen. Otherwise the chrome comes back, the
   * remembered resize mode, topmost flag and window state are restored, the top bar is shown
   * and the sidebar gets the visibility it had before fullscreen.
   */
  function FullscreenExited(s: Shell): (t: Shell)
    ensures !s.isFullscreen ==> t == s
    ensures s.isFullscreen ==>
      && !t.isFullscreen
      && t.window == WindowProperties(s.previousWindowState, s.previousResizeMode, s.previousTopmost, Some(SHELL_CHROME))
      && t.layout.topBar == Visible && t.layout.fullscreenButtonContent == ENTER_FULLSCREEN_LABEL
      && t.isSidebarVisible == s.wasSidebarVisibleBeforeFullscreen
      && t.previousWindowState == s.previousWindowState && t.previousResizeMode == s.previousResizeMode
      && t.previousTopmost == s.previousTopmost
      && t.wasSidebarVisibleBeforeFullscreen == s.wasSidebarVisibleBeforeFullscreen
    ensures s.isFullscreen && s.wasSidebarVisibleBeforeFullscreen ==>
              t.layout.sidebarColumnWidth == RestoredWidth(s.lastSidebarWidth)
    ensures Inv(s) ==> Inv(t)
  {
    if !s.isFullscreen then s
    else
      var s1 := s.(window := s.window.(chrome := Some(SHELL_CHROME), resizeMode := s.previousResizeMode,
                                       topmost := s.previousTopmost));
      var s2 := WithWindowState(s1, s.previousWindowState);
      var s3 := s2.(layout := s2.layout.(topBar := Visible));
      var s4 := SidebarSet(s3, s.wasSidebarVisibleBeforeFullscreen);
      s4.(isFullscreen := false, layout := s4.layout.(fullscreenButtonContent := ENTER_FULLSCREEN_LABEL))
  }

  /** ToggleFullscreen: enter when not fullscreen, exit when fullscreen. */
  function FullscreenToggled(s: Shell): (t: Shell)
    ensures t.isFullscreen == !s.isFullscreen
    ensures !s.isFullscreen ==> t.window == WindowProperties(Maximized, NoResize, true, None)
    ensures s.isFullscreen ==> t.window == WindowProperties(s.previousWindowState, s.previousResizeMode,
                                                            s.previousTopmost, Some(SHELL_CHROME))
    ensures Inv(s) ==> Inv(t)
  {
    if !s.isFullscreen then FullscreenEntered(s) else FullscreenExited(s)
  }

  /** MaxRestoreButton_Click: maximized becomes normal, anything else becomes maximized. */
  function MaxRestored(s: Shell): (t: Shell)
    ensures s.window.windowState == Maximized ==> t.window.windowState == Normal
    ensures s.window.windowState != Maximized ==> t.window.windowState == Maximized
    ensures t.layout.maxRestoreButtonContent == MaximizeGlyph(t.window.windowState)
    ensures t.(window := s.window, layout := s.layout) == s
    ensures t.window.(windowState := s.window.windowState) == s.window
    ensures Inv(s) ==> Inv(t)
  {
    WithWindowState(s, if s.window.windowState == Maximized then Normal else Maximized)
  }

  /** MinimizeWindowButton_Click. */
  function MinimizeClicked(s: Shell): (t: Shell)
    ensures t.window.windowState == Minimized && t.layout.maxRestoreButtonContent == MAXIMIZE_GLYPH
    ensures t.(window := s.window, layout := s.layout) == s
    ensures Inv(s) ==> Inv(t)
  {
    WithWindowState(s, Minimized)
  }

  /** Dragging the column splitter: WPF resizes the sidebar column, which only shows when visible. */
  function SplitterDragged(s: Shell, width: Length): (t: Shell)
    ensures s.isSidebarVisible ==> t == s.(layout := s.layout.(sidebarColumnWidth := width))
    ensures !s.isSidebarVisible ==> t == s
    ensures Inv(s) ==> Inv(t)
  {
    if s.isSidebarVisible then s.(layout := s.layout.(sidebarColumnWidth := width)) else s
  }

  // ---------------------------------------------------------------------------
  // Keyboard shortcuts
  // ---------------------------------------------------------------------------

  /** OnKeyDown's test: F11 always toggles fullscreen; Escape toggles only out of fullscreen. */
  function KeyToggles(key: Key, isFullscreen: bool): (toggle: bool)
    ensures key == F11 ==> toggle
    ensures key == Escape ==> (toggle <==> isFullscreen)
    ensures key != F11 && key != Escape ==> !toggle
  {
    key == F11 || (key == Escape && isFullscreen)
  }

  /**
   * CoreWebView2_AcceleratorKeyPressed's test: only key-down events count; then F11 always
   * toggles and Escape only when fullscreen.
   */
  function AcceleratorToggles(kind: KeyEventKind, virtualKey: int, isFullscreen: bool): (toggle: bool)
    ensures kind != KeyDown ==> !toggle
    ensures kind == KeyDown && virtualKey == VK_F11 ==> toggle
    ensures kind == KeyDown && virtualKey == VK_ESCAPE ==> (toggle <==> isFullscreen)
    ensures virtualKey != VK_F11 && virtualKey != VK_ESCAPE ==> !toggle
  {
    kind == KeyDown && (virtualKey == VK_F11 || (virtualKey == VK_ESCAPE && isFullscreen))
  }

  /** The shell after a key event and whether the event was marked handled. */
  datatype KeyOutcome = KeyOutcome(shell: Shell, handled: bool)

  /** The shell after ToggleFullscreen when toggle holds, and unchanged otherwise. */
  function ToggledIf(s: Shell, toggle: bool): (r: KeyOutcome)
    ensures r.handled == toggle
    ensures toggle ==> r.shell == FullscreenToggled(s) && r.shell.isFullscreen == !s.isFullscreen
    ensures !toggle ==> r.shell == s
    ensures Inv(s) ==> Inv(r.shell)
  {
    if toggle then KeyOutcome(FullscreenToggled(s), true) else KeyOutcome(s, false)
  }

  /** OnKeyDown. */
  function KeyPressed(s: Shell, key: Key): (r: KeyOutcome)
    ensures key == F11 ==> r.handled && r.shell.isFullscreen == !s.isFullscreen
    ensures key == Escape && s.isFullscreen ==> r.handled && !r.shell.isFullscreen
    ensures key == F11 || (key == Escape && s.isFullscreen) ==> r.shell == FullscreenToggled(s)
    ensures key != F11 && !(key == Escape && s.isFullscreen) ==> !r.handled && r.shell == s
    ensures Inv(s) ==> Inv(r.shell)
  {
    ToggledIf(s, KeyToggles(key, s.isFullscreen))
  }

  /** CoreWebView2_AcceleratorKeyPressed. */
  function AcceleratorPressed(s: Shell, kind: KeyEventKind, virtualKey: int): (r: KeyOutcome)
    ensures kind != KeyDown ==> !r.handled && r.shell == s
    ensures kind == KeyDown && virtualKey == VK_F11 ==> r.handled && r.shell.isFullscreen == !s.isFullscreen
    ensures kind == KeyDown && virtualKey == VK_ESCAPE && s.isFullscreen ==> r.handled && !r.shell.isFullscreen
    ensures kind == KeyDown && (virtualKey == VK_F11 || (virtualKey == VK_ESCAPE && s.isFullscreen)) ==>
              r.shell == FullscreenToggled(s)
    ensures kind == KeyDown && virtualKey != VK_F11 && !(virtualKey == VK_ESCAPE && s.isFullscreen) ==>
              !r.handled && r.shell == s
    ensures Inv(s) ==> Inv(r.shell)
  {
    ToggledIf(s, AcceleratorToggles(kind, virtualKey, s.isFullscreen))
  }

  /** The virtual-key code of a WPF key. */
  function VirtualKeyOf(key: Key): int {
    match key
    case F11 => VK_F11
    case Escape => VK_ESCAPE
    case Enter => 0x0D
    case Other(vk) => vk
  }

  /** A key value that does not pretend to be one of the named keys. */
  predicate WellFormedKey(key: Key) {
    key.Other? ==> key.virtualKey !in {VK_F11, VK_ESCAPE, 0x0D}
  }

  // ---------------------------------------------------------------------------
  // Properties relating several handlers
  // ---------------------------------------------------------------------------

  /** The window path and the web-view path treat a key-down the same way. */
  lemma KeyPathsAgree(s: Shell, key: Key)
    requires WellFormedKey(key)
    ensures AcceleratorPressed(s, KeyDown, VirtualKeyOf(key)) == KeyPressed(s, key)
  {
  }

  /** A key-down then the key-up of F11 in the web view toggles fullscreen exactly once. */
  lemma F11PressAndReleaseTogglesOnce(s: Shell)
    ensures var down := AcceleratorPressed(s, KeyDown, VK_F11);
            AcceleratorPressed(down.shell, KeyUp, VK_F11).shell == FullscreenToggled(s)
  {
  }

  /** Escape outside fullscreen does nothing, on either path. */
  lemma EscapeOutsideFullscreenIsNoOp(s: Shell, kind: KeyEventKind)
    requires !s.isFullscreen
    ensures KeyPressed(s, Escape) == KeyOutcome(s, false)
    ensures AcceleratorPressed(s, kind, VK_ESCAPE) == KeyOutcome(s, false)
  {
  }

  /** EnterFullscreen and ExitFullscreen are idempotent. */
  lemma FullscreenIdempotent(s: Shell)
    ensures FullscreenEntered(FullscreenEntered(s)) == FullscreenEntered(s)
    ensures FullscreenExited(FullscreenExited(s)) == FullscreenExited(s)
  {
  }

  /**
   * Entering then leaving fullscreen restores the resize mode, topmost flag, window state,
   * glyph and sidebar visibility, shows the top bar, and gives a sidebar that was shown its
   * previous positive width back.
   */
  lemma FullscreenRoundTrip(s: Shell)
    requires !s.isFullscreen
    ensures var t := FullscreenExited(FullscreenEntered(s));
      && !t.isFullscreen
      && t.window.resizeMode == s.window.resizeMode && t.window.topmost == s.window.topmost
      && t.window.windowState == s.window.windowState
      && t.isSidebarVisible == s.isSidebarVisible && t.layout.topBar == Visible
      && t.layout.maxRestoreButtonContent == MaximizeGlyph(s.window.windowState)
      && (s.isSidebarVisible && s.layout.sidebarColumnWidth > 0.0 ==>
            t.layout.sidebarColumnWidth == s.layout.sidebarColumnWidth)
      && (s.isSidebarVisible && s.layout.sidebarColumnWidth == 0.0 ==>
            t.layout.sidebarColumnWidth == RestoredWidth(s.lastSidebarWidth))
  {
  }

  /** ToggleFullscreen twice from a windowed shell is the round trip above. */
  lemma ToggleTwiceIsRoundTrip(s: Shell)
    requires !s.isFullscreen
    ensures FullscreenToggled(FullscreenToggled(s)) == FullscreenExited(FullscreenEntered(s))
  {
  }

  /**
   * Width memory: hiding a sidebar that has a positive width and showing it again gives it
   * that width back; with no positive width to remember, it comes back with the remembered
   * (or default) width.
   */
  lemma HideShowRestoresWidth(s: Shell)
    ensures var t := SidebarSet(SidebarSet(s, false), true);
      && (s.isSidebarVisible && s.layout.sidebarColumnWidth > 0.0 ==>
            t.layout.sidebarColumnWidth == s.layout.sidebarColumnWidth)
      && (!(s.isSidebarVisible && s.layout.sidebarColumnWidth > 0.0) ==>
            t.layout.sidebarColumnWidth == RestoredWidth(s.lastSidebarWidth))
      && t.isSidebarVisible && t.layout.splitterColumnWidth == SPLITTER_WIDTH
  {
  }

  /** A second hide does not overwrite the remembered width. */
  lemma SecondHideKeepsWidth(s: Shell)
    ensures SidebarSet(SidebarSet(s, false), false).lastSidebarWidth == SidebarSet(s, false).lastSidebarWidth
  {
  }

  /** A hidden sidebar keeps its memory across fullscreen: it is not re-recorded on entry. */
  lemma HiddenSidebarAcrossFullscreen(s: Shell)
    requires Inv(s) && !s.isFullscreen && !s.isSidebarVisible
    ensures var t := FullscreenExited(FullscreenEntered(s));
            !t.isSidebarVisible && t.lastSidebarWidth == s.lastSidebarWidth && t.layout.sidebarColumnWidth == 0.0
  {
  }

  /** Toggling the sidebar twice from shown restores a positive width. */
  lemma ToggleSidebarTwice(s: Shell)
    requires s.isSidebarVisible && s.layout.sidebarColumnWidth > 0.0
    ensures var t := SidebarToggled(SidebarToggled(s));
            t.isSidebarVisible && t.layout.sidebarColumnWidth == s.layout.sidebarColumnWidth
  {
  }

  /** Max/restore twice from a normal or maximized window comes back to the same state. */
  lemma MaxRestoreTwice(s: Shell)
    requires s.window.windowState != Minimized
    ensures MaxRestored(MaxRestored(s)) == WithWindowState(s, s.window.windowState)
  {
  }

  // ---------------------------------------------------------------------------
  // Sequences of events
  // ---------------------------------------------------------------------------

  /** The inputs that reach the shell. */
  datatype ShellEvent =
    | ToggleSidebarClick
    | FullscreenClick
    | WindowKeyDown(key: Key)
    | AcceleratorKey(kind: KeyEventKind, virtualKey: int)
    | MaxRestoreClick
    | MinimizeClick
    | SplitterDrag(width: Length)
    | StateChangedByOs(windowState: WindowState)   // caption double-click, Win+arrow, taskbar

  function Step(s: Shell, e: ShellEvent): Shell {
    match e
    case ToggleSidebarClick => SidebarToggled(s)
    case FullscreenClick => FullscreenToggled(s)
    case WindowKeyDown(key) => KeyPressed(s, key).shell
    case AcceleratorKey(kind, vk) => AcceleratorPressed(s, kind, vk).shell
    case MaxRestoreClick => MaxRestored(s)
    case MinimizeClick => MinimizeClicked(s)
    case SplitterDrag(w) => SplitterDragged(s, w)
    case StateChangedByOs(ws) => WithWindowState(s, ws)
  }

  function Run(s: Shell, events: seq<ShellEvent>): Shell
    decreases |events|
  {
    if events == [] then s else Run(Step(s, events[0]), events[1..])
  }

  /** Every state reached from a state satisfying the invariant satisfies it too. */
  lemma {:induction false} RunKeepsInv(s: Shell, events: seq<ShellEvent>)
    requires Inv(s)
    ensures Inv(Run(s, events))
    decreases |events|
  {
    if events != [] {
      RunKeepsInv(Step(s, events[0]), events[1..]);
    }
  }

  /** The sidebar is hidden in s and in every state the events pass through. */
  predicate StaysHidden(s: Shell, events: seq<ShellEvent>)
    decreases |events|
  {
    !s.isSidebarVisible && (events == [] || StaysHidden(Step(s, events[0]), events[1..]))
  }

  /** While the sidebar stays hidden, no event changes the remembered width. */
  lemma {:induction false} HiddenKeepsWidth(s: Shell, events: seq<ShellEvent>)
    requires Inv(s) && StaysHidden(s, events)
    ensures Run(s, events).lastSidebarWidth == s.lastSidebarWidth
    decreases |events|
  {
    if events != [] {
      var next := Step(s, events[0]);
      assert next.lastSidebarWidth == s.lastSidebarWidth;
      HiddenKeepsWidth(next, events[1..]);
    }
  }

  /**
   * Width memory over any history: hide a sidebar that has a positive width, let any events
   * happen that keep it hidden (fullscreen on and off, keys, window buttons), and showing it
   * again gives it exactly the width it had when it was hidden.
   */
  lemma WidthMemory(s: Shell, events: seq<ShellEvent>)
    requires Inv(s) && s.isSidebarVisible && s.layout.sidebarColumnWidth > 0.0
    requires StaysHidden(SidebarSet(s, false), events)
    ensures SidebarSet(Run(SidebarSet(s, false), events), true).layout.sidebarColumnWidth == s.layout.sidebarColumnWidth
  {
    HiddenKeepsWidth(SidebarSet(s, false), events);
  }
}
