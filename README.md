# GameLauncher main window, modelled in Dafny

GameLauncher is a WPF desktop launcher for browser games. Its main window has a game sidebar, a custom title bar and a WebView2 control. This project models the part of the window that holds state:

- **The window shell.** The sidebar shows and hides and remembers its width. Fullscreen is entered and left, saving and restoring the window state, resize mode and topmost flag. F11 and Escape are handled by the window's `OnKeyDown` and by the web view's accelerator-key handler (the subscription of that handler to WebView2's `AcceleratorKeyPressed` event is assumed). The title-bar buttons minimize, maximize and restore, and their glyph follows the window state.
- **Game selection.** The catalog is a sequence of records, each with a selected flag. Selecting a game, going back, and the welcome text, web view and back button visibilities are modelled.
- **The first-run flow.** This covers the "Yes" consent prompt and the elevation check. It also covers the WebView2 bootstrapper with its exit codes, and the gate in the Loaded handler that runs them once.
- **The copy-link guards** of the context menu.

Modules:

- `Wrappers`: `Option`.
- `Wpf`: stand-ins for the WPF enumerations, `Length` (a non-negative column width), keys and window chrome.
- `Text`: `String.Trim` over the .NET white-space set, `String.IsNullOrWhiteSpace`, and case-insensitive comparison.
- `FirstRun`: the consent prompt, `CheckAdmin`, `IsWebView2Available`, `EnsureWebView2Installed` and the Loaded gate, as functions. Every call into the OS, the network or WebView2 is a parameter standing for its result.
- `Games`: the `Game` record, `HasGithub`, and the session value with its `LoadGame` and `Back_Click` transitions. The invariant is that the flags mark exactly the current game. The copy-link guard is here too.
- `WindowShell`: the shell as a value, with one function per handler and the invariant every handler keeps. It also holds the lemmas relating handlers (round trips, idempotence, width memory) and an event-trace model with invariant and width-memory lemmas over any history.
- `Launcher`: class `MainWindow`. It has the window's own fields plus three record-valued fields for the Window properties, the layout elements and the content area it writes. Each handler updates the fields step by step, as the window does. Each is proved to produce exactly the transition its `WindowShell` or `Games` function describes, to leave the other half of the state unchanged, and to keep the invariant.

Modelling decisions:

- **StateChanged.** The window subscribes `UpdateMaximizeIcon` to `StateChanged`, and WPF raises the event synchronously. So every write of `WindowState` goes through `SetWindowState` (`WithWindowState` in the value model), which refreshes the glyph. The event-trace model also has window-state changes made by the OS, such as a caption double-click or Win+arrow (`StateChangedByOs`); these take the same path.
- **Fullscreen phases.** `EnterFullscreen`'s sidebar phase and lock-down phase are two methods of their own on the class, `CollapseSidebarColumns` and `LockDownWindow`. These phases are the functions `SidebarCollapsedForFullscreen` and `LockedDown`, which `FullscreenEntered` composes. The statements and their order are those of the source.
- **Environment inputs.** The values the XAML markup gives the window are constructor parameters: window state, resize mode, topmost, chrome, column widths and the fullscreen button label. Dragging the GridSplitter and the completion of `EnsureCoreWebView2Async` are methods of their own (`DragSplitter`, `CoreWebView2Initialized`), because they change state the handlers read.

## Model

| member | source | states |
|---|---|---|
| Text.Trim | GameLauncher/MainWindow.xaml.cs:235 | the result is no longer than the input, has no white space at either end, and is empty exactly when the input is all white space |
| Text.TrimSplits | GameLauncher/MainWindow.xaml.cs:235 | the input is the trimmed text with a white-space prefix and a white-space suffix around it |
| Text.TrimOfPadded | GameLauncher/MainWindow.xaml.cs:235 | trimming any white space off both ends of an already-trimmed word gives back exactly that word |
| Text.IsWhiteSpace | GameLauncher/MainWindow.xaml.cs:235 | the white-space set Trim strips: space and tab to carriage return are in it; ASCII letters and digits, the zero-width space and the byte-order mark are not |
| Text.IsNullOrWhiteSpace | GameLauncher/MainWindow.xaml.cs:572 | null counts as blank, and a string is blank exactly when its trimmed form is empty |
| Text.EqualsIgnoreCase | GameLauncher/MainWindow.xaml.cs:235 | every string equals itself ignoring case, and strings equal ignoring case have the same length |
| Text.FoldCase | GameLauncher/MainWindow.xaml.cs:235 | a lower-case ASCII letter maps to its upper-case letter, every other character to itself, and no result is a lower-case ASCII letter |
| FirstRun.Consents | GameLauncher/MainWindow.xaml.cs:235 | the consent test of the confirm button and the Enter key: the trimmed text equals "Yes" ignoring case (characterised by ConsentIsYesWord) |
| FirstRun.ConsentIsYesWord | GameLauncher/MainWindow.xaml.cs:233-246 | the prompt gives consent exactly when the trimmed text is one of the eight spellings of "yes" |
| FirstRun.ConsentOfPadded | GameLauncher/MainWindow.xaml.cs:235 | any spelling of "yes" with any white space around it gives consent |
| FirstRun.ConsentInLowerCase | GameLauncher/MainWindow.xaml.cs:235 | "yes" gives consent |
| FirstRun.ConsentInUpperCase | GameLauncher/MainWindow.xaml.cs:235 | "YES" gives consent |
| FirstRun.ConsentWithSpaces | GameLauncher/MainWindow.xaml.cs:235 | " Yes " gives consent |
| FirstRun.RefusalExamples | GameLauncher/MainWindow.xaml.cs:235 | "y", "" and "no" do not give consent |
| FirstRun.ShowFirstPrompt | GameLauncher/MainWindow.xaml.cs:222-262 | the dialog returns true exactly when some event confirms (Enter or Confirm) with consenting text and no earlier event closed the dialog |
| FirstRun.ClosingWithoutConfirmingDeclines | GameLauncher/MainWindow.xaml.cs:222-262 | closing the dialog before any confirmation returns false whatever follows |
| FirstRun.CheckAdmin | GameLauncher/MainWindow.xaml.cs:142-163 | control returns exactly for an administrator; otherwise the process exits with code 0, and an elevated copy was started exactly when the launch succeeded |
| FirstRun.IsWebView2Available | GameLauncher/MainWindow.xaml.cs:57-74 | available exactly when the probe returned a version string that is neither null nor empty; a missing runtime or any other exception means unavailable |
| FirstRun.EnsureWebView2Installed | GameLauncher/MainWindow.xaml.cs:76-140 | the code is always one of 0, 2, 3, 4, 5; each code holds exactly under its own conditions; with the runtime present only the probe runs; the installer runs exactly when the download succeeded, and the re-probe exactly when the installer exited |
| FirstRun.OnLoaded | GameLauncher/MainWindow.xaml.cs:37-55 | an existing marker does nothing; otherwise the prompt shows, a refusal closes the window, consent runs CheckAdmin, and the bootstrapper runs and the marker is created exactly when CheckAdmin returns |
| FirstRun.MarkerMakesSetUpOnce | GameLauncher/MainWindow.xaml.cs:41-48 | of two starts where the second sees the marker exactly when the first created it: after a completed setup the second neither prompts, elevates nor bootstraps; otherwise it prompts again |
| Games.SessionInv | GameLauncher/MainWindow.xaml.cs:416-430 | the invariant of the session: the current game is in the catalog, and a record's selected flag is set exactly when it is the current game |
| Games.HasGithub | GameLauncher/MainWindow.xaml.cs:595 | true exactly when the GitHub URL is present and not blank |
| Games.WithSelected | GameLauncher/MainWindow.xaml.cs:418-421 | only the flag of the given record changes, to the given value; all other record data is kept |
| Games.GameLoaded | GameLauncher/MainWindow.xaml.cs:416-430 | exactly the chosen game is selected and current, also when it was already selected; the web view and back button show, the welcome text hides, the web view shows the game's URL; records are otherwise unchanged |
| Games.BackedOut | GameLauncher/MainWindow.xaml.cs:536-552 | no game is selected or current; the welcome text shows and the web view and back button hide; about:blank is shown if and only if the core is initialised, otherwise the page is unchanged |
| Games.SelectTwice | GameLauncher/MainWindow.xaml.cs:416-430 | selecting a then b leaves exactly b selected, a deselected unless a is b, and b's URL shown |
| Games.BackBeforeCoreKeepsPage | GameLauncher/MainWindow.xaml.cs:548-551 | going back before the core is initialised leaves the game's page in the hidden web view |
| Games.LinkToCopy | GameLauncher/MainWindow.xaml.cs:570-584 | a link is copied exactly when the sender is a menu item whose parameter is a non-blank string, and it is that string |
| WindowShell.MaximizeGlyph | GameLauncher/MainWindow.xaml.cs:320-326 | the restore glyph exactly when maximized, the maximize glyph exactly otherwise |
| WindowShell.Inv | GameLauncher/MainWindow.xaml.cs:20-28 | the invariant of the shell: the remembered width is positive, the glyph matches the window state, a hidden sidebar takes no room and shows neither panel nor splitter, a shown one shows both, and a fullscreen window is non-resizable, topmost, chromeless, with the top bar hidden and the exit label |
| WindowShell.WithWindowState | GameLauncher/MainWindow.xaml.cs:35 | the window state is set and the glyph refreshed for it; nothing else changes; the invariant is kept |
| WindowShell.RestoredWidth | GameLauncher/MainWindow.xaml.cs:441-442 | a shown sidebar always gets a positive width: the remembered width when that is positive, 320 otherwise |
| WindowShell.SidebarSet | GameLauncher/MainWindow.xaml.cs:437-460 | visibility ends as requested; showing restores the remembered width (320 if none) with a 6-pixel splitter and both elements visible; hiding zeroes both columns, collapses both elements, and remembers the width only when the sidebar was shown with a positive width; nothing outside the sidebar changes; the invariant is kept |
| WindowShell.SidebarToggled | GameLauncher/MainWindow.xaml.cs:432-435 | the visibility flips, nothing outside the sidebar changes, and the invariant is kept |
| WindowShell.FullscreenEntered | GameLauncher/MainWindow.xaml.cs:479-509 | already fullscreen: no change; otherwise fullscreen, maximized, NoResize, topmost, chrome removed, top bar hidden, sidebar hidden, splitter zero; the window state, resize mode, topmost flag and sidebar visibility from before are remembered; the invariant is kept |
| WindowShell.PreparedForFullscreen | GameLauncher/MainWindow.xaml.cs:483-486 | the sidebar visibility is remembered, the top bar hidden and the chrome removed; nothing else changes |
| WindowShell.SidebarCollapsedForFullscreen | GameLauncher/MainWindow.xaml.cs:488-496 | the sidebar ends hidden with a zero, collapsed splitter and nothing outside the sidebar changes; a shown sidebar is collapsed completely and its positive width remembered; a hidden one keeps its width, panel and memory |
| WindowShell.LockedDown | GameLauncher/MainWindow.xaml.cs:498-505 | the window state, resize mode and topmost flag are remembered; the window becomes maximized, non-resizable and topmost with the restore glyph; nothing else changes |
| WindowShell.FullscreenExited | GameLauncher/MainWindow.xaml.cs:511-534 | not fullscreen: no change; otherwise not fullscreen, with the shell chrome, the remembered resize mode, topmost flag and window state, the top bar shown and the sidebar visibility from before fullscreen; the invariant is kept |
| WindowShell.FullscreenToggled | GameLauncher/MainWindow.xaml.cs:467-477 | fullscreen flips, and the window properties are those of entering or of leaving, chosen by the old flag |
| WindowShell.MaxRestored | GameLauncher/MainWindow.xaml.cs:305-313 | maximized becomes normal, anything else becomes maximized, the glyph follows, nothing else changes |
| WindowShell.MinimizeClicked | GameLauncher/MainWindow.xaml.cs:300-303 | the window is minimized with the maximize glyph; nothing else changes |
| WindowShell.SplitterDragged | GameLauncher/MainWindow.xaml.cs:451-452 | only a visible sidebar's column width changes, to the dragged width; this is the width a later hide remembers |
| WindowShell.KeyToggles | GameLauncher/MainWindow.xaml.cs:558-567 | F11 always toggles, Escape exactly when fullscreen, other keys never |
| WindowShell.AcceleratorToggles | GameLauncher/MainWindow.xaml.cs:341-353 | only key-down events toggle; then F11 always, Escape exactly when fullscreen, other keys never |
| WindowShell.ToggledIf | GameLauncher/MainWindow.xaml.cs:558-567 | handled exactly when toggling; toggling gives exactly the ToggleFullscreen result, otherwise nothing changes |
| WindowShell.KeyPressed | GameLauncher/MainWindow.xaml.cs:554-568 | F11 and Escape in fullscreen are handled and give exactly the ToggleFullscreen result (F11 flips fullscreen, Escape leaves it); every other key is unhandled and changes nothing |
| WindowShell.AcceleratorPressed | GameLauncher/MainWindow.xaml.cs:336-354 | non-key-down events are unhandled and change nothing; key-down F11 and key-down Escape in fullscreen are handled and give exactly the ToggleFullscreen result; any other key-down is unhandled and changes nothing |
| WindowShell.KeyPathsAgree | GameLauncher/MainWindow.xaml.cs:336-354 | the web-view path on key-down and the window path treat every key identically |
| WindowShell.F11PressAndReleaseTogglesOnce | GameLauncher/MainWindow.xaml.cs:341-347 | an F11 press and release in the web view toggles fullscreen exactly once |
| WindowShell.EscapeOutsideFullscreenIsNoOp | GameLauncher/MainWindow.xaml.cs:563 | Escape outside fullscreen is unhandled and changes nothing on both paths |
| WindowShell.FullscreenIdempotent | GameLauncher/MainWindow.xaml.cs:479-513 | entering twice is entering once; exiting twice is exiting once |
| WindowShell.FullscreenRoundTrip | GameLauncher/MainWindow.xaml.cs:479-534 | enter then exit restores resize mode, topmost flag, window state, glyph and sidebar visibility, shows the top bar, and gives a shown sidebar its width back |
| WindowShell.ToggleTwiceIsRoundTrip | GameLauncher/MainWindow.xaml.cs:467-477 | toggling twice from windowed is enter then exit |
| WindowShell.HideShowRestoresWidth | GameLauncher/MainWindow.xaml.cs:437-460 | hide then show restores a positive width exactly, and otherwise the remembered or default width, with a 6-pixel splitter |
| WindowShell.SecondHideKeepsWidth | GameLauncher/MainWindow.xaml.cs:451-452 | a second hide does not overwrite the remembered width |
| WindowShell.HiddenSidebarAcrossFullscreen | GameLauncher/MainWindow.xaml.cs:488-496 | a hidden sidebar stays hidden with its memory and zero width across a fullscreen round trip |
| WindowShell.ToggleSidebarTwice | GameLauncher/MainWindow.xaml.cs:432-435 | toggling twice from shown restores the sidebar's width |
| WindowShell.MaxRestoreTwice | GameLauncher/MainWindow.xaml.cs:305-313 | max/restore twice returns a normal or maximized window to where it was |
| WindowShell.RunKeepsInv | GameLauncher/MainWindow.xaml.cs:20-26 | every history of shell events, including window-state changes made by the OS, keeps the invariant |
| WindowShell.HiddenKeepsWidth | GameLauncher/MainWindow.xaml.cs:451-452 | while the sidebar stays hidden, no event changes the remembered width |
| WindowShell.WidthMemory | GameLauncher/MainWindow.xaml.cs:437-460 | hiding a sidebar with a positive width, then any events that keep it hidden, then showing it restores exactly that width |
| Launcher.MainWindow.constructor | GameLauncher/MainWindow.xaml.cs:20-36 | the field initialisers (not fullscreen, sidebar shown, 320 remembered, nothing selected), the markup's values, the glyph for the initial state, and the invariant |
| Launcher.MainWindow.UpdateMaximizeIcon | GameLauncher/MainWindow.xaml.cs:320-326 | only the max/restore glyph changes, to the one for the current window state |
| Launcher.MainWindow.SetWindowState | GameLauncher/MainWindow.xaml.cs:35 | the shell becomes WithWindowState of the old shell; the session is unchanged |
| Launcher.MainWindow.MinimizeWindowButtonClick | GameLauncher/MainWindow.xaml.cs:300-303 | the shell becomes MinimizeClicked of the old shell; the session is unchanged; the invariant is kept |
| Launcher.MainWindow.MaxRestoreButtonClick | GameLauncher/MainWindow.xaml.cs:305-313 | the shell becomes MaxRestored of the old shell; the session is unchanged; the invariant is kept |
| Launcher.MainWindow.SetSidebarVisibility | GameLauncher/MainWindow.xaml.cs:437-460 | the shell becomes SidebarSet of the old shell; the session is unchanged |
| Launcher.MainWindow.ToggleSidebarClick | GameLauncher/MainWindow.xaml.cs:432-435 | the shell becomes SidebarToggled of the old shell; the session is unchanged; the invariant is kept |
| Launcher.MainWindow.DragSplitter | GameLauncher/MainWindow.xaml.cs:451-452 | the shell becomes SplitterDragged of the old shell; the session is unchanged; the invariant is kept |
| Launcher.MainWindow.CollapseSidebarColumns | GameLauncher/MainWindow.xaml.cs:488-496 | the shell becomes SidebarCollapsedForFullscreen of the old shell; the session is unchanged |
| Launcher.MainWindow.LockDownWindow | GameLauncher/MainWindow.xaml.cs:498-505 | the shell becomes LockedDown of the old shell; the session is unchanged |
| Launcher.MainWindow.EnterFullscreen | GameLauncher/MainWindow.xaml.cs:479-509 | the shell becomes FullscreenEntered of the old shell; the session is unchanged |
| Launcher.MainWindow.ExitFullscreen | GameLauncher/MainWindow.xaml.cs:511-534 | the shell becomes FullscreenExited of the old shell; the session is unchanged |
| Launcher.MainWindow.ToggleFullscreen | GameLauncher/MainWindow.xaml.cs:467-477 | the shell becomes FullscreenToggled of the old shell; the session is unchanged; the invariant is kept |
| Launcher.MainWindow.OnKeyDown | GameLauncher/MainWindow.xaml.cs:554-568 | the new shell and the Handled flag are KeyPressed of the old shell; the session is unchanged; the invariant is kept |
| Launcher.MainWindow.AcceleratorKeyPressed | GameLauncher/MainWindow.xaml.cs:336-354 | the new shell and the Handled flag are AcceleratorPressed of the old shell; the session is unchanged; the invariant is kept |
| Launcher.MainWindow.LoadGame | GameLauncher/MainWindow.xaml.cs:416-430 | the session becomes GameLoaded of the old session; the shell is unchanged; the invariant is kept |
| Launcher.MainWindow.BackClick | GameLauncher/MainWindow.xaml.cs:536-552 | the session becomes BackedOut of the old session; the shell is unchanged; the invariant is kept |
| Launcher.MainWindow.CoreWebView2Initialized | GameLauncher/MainWindow.xaml.cs:328-334 | only the core-initialised flag changes, to true; the invariant is kept |

## Left out

- XAML layout, styles and brushes; the construction of the prompt window; `CreateAddressPanel`. These are presentation only.
- Calls into the OS, the network and WebView2. These are parameters standing for their results:
  - `GetAvailableBrowserVersionString`, `WebClient.DownloadFile`, `Process.Start` / `WaitForExit`;
  - `WindowsPrincipal.IsInRole`, `Directory.Exists`.

  `Environment.Exit` is the `ProcessExit` outcome.
- Side effects with no model of their own:
  - `Clipboard.SetText` is the copied value;
  - `Directory.CreateDirectory` is the `markerCreated` flag, and its failure is not modelled;
  - `Close()` is `windowClosed`.
- `MessageBox.Show` calls: user notification only. The version text from `IsWebView2Available` and the installer's exit code are only shown, so they are not modelled.
- `Dispatcher.BeginInvoke` / `Invoke`, the async `InitializeWebView` and the WebView2 settings it writes. Each handler is one atomic step. Core initialisation is the separate step `CoreWebView2Initialized`.
- `LoadGames`: the catalog is a constructor parameter, flattened from its categories in display order. Each record is a distinct entry addressed by index, so the same `Game` object appearing twice in the catalog is not modelled.
- `GameItem_Click`'s type test on the clicked element, and the `Focus()` calls. `LoadGame` takes the catalog index directly.
- `CloseWindowButton_Click` and closing the main window.
- `new Uri(game.Url)` throwing on a malformed URL. The source is the URL string.
- `base.OnKeyDown`: WPF's own key handling.
- The subscription of `CoreWebView2_AcceleratorKeyPressed` to the web view's `AcceleratorKeyPressed` event does not appear in the window's code. The model assumes the handler is wired.
- The `PropertyChanged` notification raised by the `IsSelected` setter. The model keeps the flag; the UI refresh it triggers is presentation only.
- Launcher.MainWindow.constructor: the initial visibilities of the welcome text, web view, back button, top bar, game list panel and splitter are fixed by the constructor (welcome text shown, web view and back button collapsed, the rest visible, no page), matching what the handlers assume. The markup that sets them is not part of this model.
- Uri normalisation: the web view's source is stored as the game's URL string, not as the normalised `Uri` that line 427 builds.
- Launcher.MainWindow.UpdateMaximizeIcon: the `MaxRestoreButton != null` test is not modelled. The button always exists once `InitializeComponent` has run.
- Launcher.MainWindow.DragSplitter: any non-negative width is accepted. The GridSplitter's own limits belong to WPF.
- Wpf.Length: grid lengths are non-negative pixel reals. Auto and star sizing, NaN and infinity are not modelled.
- Text.IsWhiteSpace: uses the full set of characters .NET's `Char.IsWhiteSpace` accepts, rather than only ASCII white space, since this is what `String.Trim` and `String.IsNullOrWhiteSpace` strip.
- Text.FoldCase: folds ASCII letters only, while `OrdinalIgnoreCase` also folds non-ASCII letters. So `FirstRun.Consents` may judge inputs such as "yeſ" (with U+017F, LATIN SMALL LETTER LONG S) differently from the runtime.
- Games.BackedOut: going back before the WebView2 core exists leaves the game's page loaded in the hidden web view (`Games.BackBeforeCoreKeepsPage`). This is how the source behaves, and it is modelled as such.
