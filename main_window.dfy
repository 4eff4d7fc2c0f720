/**
 * The launcher's main window as an object: the fields MainWindow declares, the window
 * properties it changes, and the named elements of its layout it writes. Each handler
 * updates the fields step by step as the window does and is proved to produce the
 * transition that module WindowShell or Games defines for it, leaving the other half of
 * the state untouched and keeping the invariant.
 */
module Launcher {
  import opened Wrappers
  import opened Wpf
  import WindowShell
  import Games

  class MainWindow {
    // The window's own fields.
    var isFullscreen: bool
    var previousWindowState: WindowState
    var previousResizeMode: ResizeMode
    var previousTopmost: bool
    var isSidebarVisible: bool
    var lastSidebarWidth: Length
    var wasSidebarVisibleBeforeFullscreen: bool
    var games: seq<Games.Game>                 // the catalog, categories flattened in display order
    var currentSelectedGame: Option<nat>       // index into games; None for null

    // The inherited Window properties the handlers set.
    var window: WindowShell.WindowProperties
    // The named layout elements of the sidebar, top bar and title buttons.
    var layout: WindowShell.Layout
    // The named elements of the content area.
    var content: Games.ContentView

    /** The shell half of the window's state. */
    function Shell(): WindowShell.Shell
      reads this
    {
      WindowShell.Shell(isFullscreen, previousWindowState, previousResizeMode, previousTopmost,
                        isSidebarVisible, lastSidebarWidth, wasSidebarVisibleBeforeFullscreen, window, layout)
    }

    /** The game-session half of the window's state. */
    function Session(): Games.Session
      reads this
    {
      Games.Session(games, currentSelectedGame, content)
    }

    ghost predicate Valid()
      reads this
    {
      WindowShell.Inv(Shell()) && Games.SessionInv(Session())
    }

    /**
     * The constructor: the field initialisers, then UpdateMaximizeIcon. The window
     * properties, column widths and button label the XAML markup declares are parameters;
     * the catalog's records start unselected.
     */
    constructor (initialWindow: WindowShell.WindowProperties, sidebarWidth: Length, splitterWidth: Length,
                 fullscreenLabel: string, catalog: seq<Games.Game>)
      requires forall g :: g in catalog ==> !g.isSelected
      ensures Valid()
      ensures !isFullscreen && isSidebarVisible && lastSidebarWidth == WindowShell.DEFAULT_SIDEBAR_WIDTH
      ensures previousWindowState == Normal && previousResizeMode == NoResize && !previousTopmost
      ensures wasSidebarVisibleBeforeFullscreen && currentSelectedGame.None? && games == catalog
      ensures window == initialWindow
      ensures layout == WindowShell.Layout(sidebarWidth, splitterWidth, Visible, Visible, Visible, fullscreenLabel,
                                           WindowShell.MaximizeGlyph(initialWindow.windowState))
      ensures content == Games.ContentView(Visible, Collapsed, Collapsed, None, false)
    {
      isFullscreen := false;
      previousWindowState := Normal;
      previousResizeMode := NoResize;
      previousTopmost := false;
      isSidebarVisible := true;
      lastSidebarWidth := WindowShell.DEFAULT_SIDEBAR_WIDTH;
      wasSidebarVisibleBeforeFullscreen := true;
      games := catalog;
      currentSelectedGame := None;
      window := initialWindow;
      layout := WindowShell.Layout(sidebarWidth, splitterWidth, Visible, Visible, Visible, fullscreenLabel,
                                   WindowShell.MAXIMIZE_GLYPH);
      content := Games.ContentView(Visible, Collapsed, Collapsed, None, false);
      new;
      UpdateMaximizeIcon();
    }

    /** UpdateMaximizeIcon: the max/restore button shows the glyph for the current window state. */
    method UpdateMaximizeIcon()
      modifies this
      ensures layout == old(layout).(maxRestoreButtonContent := WindowShell.MaximizeGlyph(window.windowState))
      ensures Shell() == old(Shell()).(layout := layout)
      ensures Session() == old(Session())
    {
      layout := layout.(maxRestoreButtonContent := WindowShell.MaximizeGlyph(window.windowState));
    }

    /** Assigning WindowState, followed by the StateChanged handler. */
    method SetWindowState(ws: WindowState)
      modifies this
      ensures Shell() == WindowShell.WithWindowState(old(Shell()), ws)
      ensures Session() == old(Session())
    {
      window := window.(windowState := ws);
      UpdateMaximizeIcon();
    }

    /** MinimizeWindowButton_Click. */
    method MinimizeWindowButtonClick()
      requires Valid()
      modifies this
      ensures Valid()
      ensures Shell() == WindowShell.MinimizeClicked(old(Shell()))
      ensures Session() == old(Session())
    {
      SetWindowState(Minimized);
    }

    /** MaxRestoreButton_Click: toggle between maximized and normal, then refresh the glyph. */
    method MaxRestoreButtonClick()
      requires Valid()
      modifies this
      ensures Valid()
      ensures Shell() == WindowShell.MaxRestored(old(Shell()))
      ensures Session() == old(Session())
    {
      if window.windowState == Maximized {
        SetWindowState(Normal);
      } else {
        SetWindowState(Maximized);
      }
      UpdateMaximizeIcon();
    }

    /** SetSidebarVisibility; also called by ExitFullscreen before the invariant holds again. */
    method SetSidebarVisibility(visible: bool)
      modifies this
      ensures Shell() == WindowShell.SidebarSet(old(Shell()), visible)
      ensures Session() == old(Session())
    {
      if visible {
        if lastSidebarWidth <= 0.0 {
          lastSidebarWidth := WindowShell.DEFAULT_SIDEBAR_WIDTH;
        }
        layout := layout.(sidebarColumnWidth := lastSidebarWidth, splitterColumnWidth := WindowShell.SPLITTER_WIDTH,
                          gameListPanel := Visible, columnSplitter := Visible);
      } else {
        if isSidebarVisible && layout.sidebarColumnWidth > 0.0 {
          lastSidebarWidth := layout.sidebarColumnWidth;
        }
        layout := layout.(sidebarColumnWidth := 0.0, splitterColumnWidth := 0.0,
                          gameListPanel := Collapsed, columnSplitter := Collapsed);
      }
      isSidebarVisible := visible;
    }

    /** ToggleSidebar_Click. */
    method ToggleSidebarClick()
      requires Valid()
      modifies this
      ensures Valid()
      ensures Shell() == WindowShell.SidebarToggled(old(Shell()))
      ensures Session() == old(Session())
    {
      SetSidebarVisibility(!isSidebarVisible);
    }

    /** The user drags the column splitter (the GridSplitter of the markup) to a new width. */
    method DragSplitter(width: Length)
      requires Valid()
      modifies this
      ensures Valid()
      ensures Shell() == WindowShell.SplitterDragged(old(Shell()), width)
      ensures Session() == old(Session())
    {
      if isSidebarVisible {
        layout := layout.(sidebarColumnWidth := width);
      }
    }

    /** The sidebar phase of EnterFullscreen: hide a shown sidebar, or collapse just the splitter. */
    method CollapseSidebarColumns()
      modifies this
      ensures Shell() == WindowShell.SidebarCollapsedForFullscreen(old(Shell()))
      ensures Session() == old(Session())
    {
      if isSidebarVisible {
        SetSidebarVisibility(false);
      } else {
        layout := layout.(splitterColumnWidth := 0.0, columnSplitter := Collapsed);
      }
    }

    /** The lock-down phase of EnterFullscreen: remember the window properties, then lock and maximize. */
    method LockDownWindow()
      modifies this
      ensures Shell() == WindowShell.LockedDown(old(Shell()))
      ensures Session() == old(Session())
    {
      previousWindowState := window.windowState;
      previousResizeMode := window.resizeMode;
      previousTopmost := window.topmost;
      window := window.(resizeMode := NoResize, topmost := true);
      SetWindowState(Normal);
      SetWindowState(Maximized);
    }

    /**
     * EnterFullscreen; a no-op when already fullscreen. Its sidebar and lock-down phases are
     * the two methods above, so that each phase is proved on its own.
     */
    method EnterFullscreen()
      modifies this
      ensures Shell() == WindowShell.FullscreenEntered(old(Shell()))
      ensures Session() == old(Session())
    {
      if isFullscreen {
        return;
      }
      wasSidebarVisibleBeforeFullscreen := isSidebarVisible;
      layout := layout.(topBar := Collapsed);
      window := window.(chrome := None);
      assert Shell() == WindowShell.PreparedForFullscreen(old(Shell()));
      CollapseSidebarColumns();
      LockDownWindow();
      isFullscreen := true;
      layout := layout.(fullscreenButtonContent := WindowShell.EXIT_FULLSCREEN_LABEL);
    }

    /** ExitFullscreen; a no-op unless fullscreen. */
    method ExitFullscreen()
      modifies this
      ensures Shell() == WindowShell.FullscreenExited(old(Shell()))
      ensures Session() == old(Session())
    {
      if !isFullscreen {
        return;
      }
      window := window.(chrome := Some(WindowShell.SHELL_CHROME), resizeMode := previousResizeMode,
                        topmost := previousTopmost);
      SetWindowState(previousWindowState);
      layout := layout.(topBar := Visible);
      SetSidebarVisibility(wasSidebarVisibleBeforeFullscreen);
      isFullscreen := false;
      layout := layout.(fullscreenButtonContent := WindowShell.ENTER_FULLSCREEN_LABEL);
    }

    /** ToggleFullscreen, also run by Fullscreen_Click. */
    method ToggleFullscreen()
      requires Valid()
      modifies this
      ensures Valid()
      ensures Shell() == WindowShell.FullscreenToggled(old(Shell()))
      ensures Session() == old(Session())
    {
      if !isFullscreen {
        EnterFullscreen();
      } else {
        ExitFullscreen();
      }
    }

    /** OnKeyDown; handled is the value left in e.Handled. */
    method OnKeyDown(key: Key) returns (handled: bool)
      requires Valid()
      modifies this
      ensures Valid()
      ensures WindowShell.KeyOutcome(Shell(), handled) == WindowShell.KeyPressed(old(Shell()), key)
      ensures Session() == old(Session())
    {
      handled := false;
      if key == F11 {
        ToggleFullscreen();
        handled := true;
      } else if key == Escape && isFullscreen {
        ToggleFullscreen();
        handled := true;
      }
    }

    /** CoreWebView2_AcceleratorKeyPressed; handled is the value left in e.Handled. */
    method AcceleratorKeyPressed(kind: KeyEventKind, virtualKey: int) returns (handled: bool)
      requires Valid()
      modifies this
      ensures Valid()
      ensures WindowShell.KeyOutcome(Shell(), handled) == WindowShell.AcceleratorPressed(old(Shell()), kind, virtualKey)
      ensures Session() == old(Session())
    {
      handled := false;
      if kind == KeyDown {
        if virtualKey == WindowShell.VK_F11 {
          ToggleFullscreen();
          handled := true;
        } else if virtualKey == WindowShell.VK_ESCAPE && isFullscreen {
          ToggleFullscreen();
          handled := true;
        }
      }
    }

    /** LoadGame for the catalog entry at index i. */
    method LoadGame(i: nat)
      requires Valid() && i < |games|
      modifies this
      ensures Valid()
      ensures Session() == Games.GameLoaded(old(Session()), i)
      ensures Shell() == old(Shell())
    {
      if currentSelectedGame.Some? {
        games := Games.WithSelected(games, currentSelectedGame.value, false);
      }
      games := Games.WithSelected(games, i, true);
      currentSelectedGame := Some(i);
      content := content.(welcomeText := Collapsed, gameWebView := Visible, backButton := Visible,
                          source := Some(games[i].url));
    }

    /** Back_Click. */
    method BackClick()
      requires Valid()
      modifies this
      ensures Valid()
      ensures Session() == Games.BackedOut(old(Session()))
      ensures Shell() == old(Shell())
    {
      if currentSelectedGame.Some? {
        games := Games.WithSelected(games, currentSelectedGame.value, false);
        currentSelectedGame := None;
      }
      content := content.(gameWebView := Collapsed, welcomeText := Visible, backButton := Collapsed);
      if content.coreReady {
        content := content.(source := Some(Games.BLANK_PAGE));
      }
    }

    /** EnsureCoreWebView2Async completes: GameWebView.CoreWebView2 is no longer null. */
    method CoreWebView2Initialized()
      requires Valid()
      modifies this
      ensures Valid()
      ensures Session() == old(Session()).(view := old(Session()).view.(coreReady := true))
      ensures Shell() == old(Shell())
    {
      content := content.(coreReady := true);
    }
  }
}
