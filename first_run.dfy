/**
 * The first-run flow of the launcher window: the consent prompt, the elevation check,
 * the WebView2 bootstrap and the gate in the Loaded handler that runs them once.
 * Every call into the operating system, the network or WebView2 is replaced by a
 * parameter that stands for its result.
 */
module FirstRun {
  import opened Wrappers
  import opened Wpf
  import Text

  // ---------------------------------------------------------------------------
  // Consent prompt
  // ---------------------------------------------------------------------------

  /** The text box holds an affirmative answer: its trimmed text is "Yes", ignoring case. */
  predicate Consents(text: string) {
    Text.EqualsIgnoreCase(Text.Trim(text), "Yes")
  }

  /** An independent reading of "Yes" ignoring case: the three letters, each in either case. */
  predicate IsYesWord(w: string) {
    |w| == 3 && (w[0] == 'Y' || w[0] == 'y') && (w[1] == 'E' || w[1] == 'e') && (w[2] == 'S' || w[2] == 's')
  }

  /** Consent is exactly: the trimmed text is one of the eight spellings of "yes". */
  lemma ConsentIsYesWord(text: string)
    ensures Consents(text) <==> IsYesWord(Text.Trim(text))
  {
    var w := Text.Trim(text);
    if Consents(text) {
      assert Text.FoldCase(w[0]) == 'Y' && Text.FoldCase(w[1]) == 'E' && Text.FoldCase(w[2]) == 'S';
    }
  }

  /** Any spelling of "yes" with any white space around it gives consent. */
  lemma ConsentOfPadded(p: string, w: string, q: string)
    requires Text.AllWhiteSpace(p) && Text.AllWhiteSpace(q)
    requires IsYesWord(w)
    ensures Consents(p + w + q)
  {
    Text.TrimOfPadded(p, w, q);
    ConsentIsYesWord(p + w + q);
  }

  /** The answer is accepted in lower case. */
  lemma ConsentInLowerCase()
    ensures Consents("yes")
  {
    assert "" + "yes" + "" == "yes";
    ConsentOfPadded("", "yes", "");
  }

  /** The answer is accepted in upper case. */
  lemma ConsentInUpperCase()
    ensures Consents("YES")
  {
    assert "" + "YES" + "" == "YES";
    ConsentOfPadded("", "YES", "");
  }

  /** The answer is accepted with spaces around it. */
  lemma ConsentWithSpaces()
    ensures Consents(" Yes ")
  {
    assert Text.AllWhiteSpace(" ");
    assert " " + "Yes" + " " == " Yes ";
    ConsentOfPadded(" ", "Yes", " ");
  }

  /** Inputs that do not: anything shorter than three letters once trimmed. */
  lemma RefusalExamples()
    ensures !Consents("y") && !Consents("") && !Consents("no")
  {
    ConsentIsYesWord("y");
    ConsentIsYesWord("");
    ConsentIsYesWord("no");
  }

  /** What can happen while the modal prompt is open. */
  datatype PromptEvent =
    | KeyPressed(key: Key, text: string)   // a key goes down in the text box, which holds text
    | ConfirmClicked(text: string)         // the Confirm button is clicked while the text box holds text
    | ClosedOtherwise                      // the dialog is closed without confirming

  /** Whether the event ends ShowDialog. */
  predicate Closes(e: PromptEvent) {
    e.ClosedOtherwise? || e.ConfirmClicked? || (e.KeyPressed? && e.key == Enter)
  }

  /** Whether the event is a confirmation whose text gives consent. */
  predicate ConfirmsConsent(e: PromptEvent) {
    !e.ClosedOtherwise? && Closes(e) && Consents(e.text)
  }

  /** No event before position k ends the dialog. */
  predicate OpenBefore(events: seq<PromptEvent>, k: nat)
    requires k <= |events|
  {
    forall j :: 0 <= j < k ==> !Closes(events[j])
  }

  /** The dialog ends at position k, with a confirmation that gives consent. */
  predicate ConsentAt(events: seq<PromptEvent>, k: nat) {
    k < |events| && ConfirmsConsent(events[k]) && OpenBefore(events, k)
  }

  /** Dropping a first event that does not end the dialog shifts every position by one. */
  lemma ConsentAtShift(events: seq<PromptEvent>, k: nat)
    requires events != [] && !Closes(events[0])
    ensures ConsentAt(events, k + 1) <==> ConsentAt(events[1..], k)
  {
    if k + 1 < |events| {
      assert events[k + 1] == events[1..][k];
      assert OpenBefore(events, k + 1) <==> OpenBefore(events[1..], k) by {
        if OpenBefore(events[1..], k) {
          forall j | 0 <= j < k + 1 ensures !Closes(events[j]) {
            if j > 0 { assert events[j] == events[1..][j - 1]; }
          }
        }
        if OpenBefore(events, k + 1) {
          forall j | 0 <= j < k ensures !Closes(events[1..][j]) {
            assert events[1..][j] == events[j + 1];
          }
        }
      }
    }
  }

  /**
   * ShowFirstPrompt: the value of result when the dialog closes, given the events in the order
   * they arrive. It starts false; both confirmation paths set it from the consent test and
   * close the window, so later events are ignored; a dialog that never closes keeps false.
   */
  function ShowFirstPrompt(events: seq<PromptEvent>): (result: bool)
    ensures result <==> exists k: nat :: ConsentAt(events, k)
  {
    if events == [] then false
    else if Closes(events[0]) then
      assert forall k: nat :: ConsentAt(events, k) ==> k == 0;
      ConsentAt(events, 0)
    else
      var r := ShowFirstPrompt(events[1..]);
      assert r ==> exists k: nat :: ConsentAt(events, k) by {
        if r {
          var k: nat :| ConsentAt(events[1..], k);
          ConsentAtShift(events, k);
        }
      }
      assert (exists k: nat :: ConsentAt(events, k)) ==> r by {
        if exists k: nat :: ConsentAt(events, k) {
          var k: nat :| ConsentAt(events, k);
          assert k != 0;
          ConsentAtShift(events, k - 1);
        }
      }
      r
  }

  /** Closing the dialog before any confirmation yields false, whatever follows. */
  lemma ClosingWithoutConfirmingDeclines(events: seq<PromptEvent>)
    requires events != [] && events[0].ClosedOtherwise?
    ensures !ShowFirstPrompt(events)
  {
  }

  // ---------------------------------------------------------------------------
  // Elevation
  // ---------------------------------------------------------------------------

  /** The three ways Process.Start(startInfo) with the "runas" verb can end. */
  datatype LaunchResult = Launched | NoProcess | LaunchThrew

  /** What CheckAdmin leaves behind: either control returns to the caller, or the process exits. */
  datatype AdminOutcome = Proceed | ProcessExit(exitCode: int, elevatedCopyStarted: bool)

  /**
   * CheckAdmin: does nothing for an administrator; otherwise tries to start an elevated copy of
   * the launcher and exits with code 0 whether or not that attempt succeeded.
   */
  function CheckAdmin(isAdministrator: bool, relaunch: LaunchResult): (r: AdminOutcome)
    ensures r.Proceed? <==> isAdministrator
    ensures r.ProcessExit? ==> r.exitCode == 0
    ensures r.ProcessExit? ==> (r.elevatedCopyStarted <==> relaunch == Launched)
  {
    if isAdministrator then Proceed
    else ProcessExit(0, relaunch == Launched)
  }

  // ---------------------------------------------------------------------------
  // WebView2 bootstrap
  // ---------------------------------------------------------------------------

  /** The outcome of CoreWebView2Environment.GetAvailableBrowserVersionString(). */
  datatype VersionProbe =
    | VersionString(version: Option<string>)
    | RuntimeNotFound              // WebView2RuntimeNotFoundException
    | ProbeFailed(message: string) // any other exception

  /** IsWebView2Available: a version string that is neither null nor empty came back. */
  function IsWebView2Available(probe: VersionProbe): (available: bool)
    ensures available ==> probe.VersionString? && probe.version.Some? && |probe.version.value| > 0
    ensures probe.VersionString? && probe.version.Some? && probe.version.value != [] ==> available
  {
    match probe
    case VersionString(v) => v.Some? && v.value != ""
    case RuntimeNotFound => false
    case ProbeFailed(_) => false
  }

  /** The outcome of starting the downloaded installer and waiting for it. */
  datatype InstallerRun =
    | InstallerNull                   // Process.Start returned null
    | InstallerFailed                 // Process.Start or WaitForExit threw
    | InstallerExited(exitCode: int)  // the installer ran to completion (its code is only shown)

  /** The side-effecting steps the bootstrapper performs, in order. */
  datatype Step = ProbeRuntime | DownloadInstaller | RunInstaller | ReprobeRuntime

  datatype Bootstrap = Bootstrap(exitCode: int, steps: seq<Step>)

  /** The exit codes EnsureWebView2Installed can return. */
  const BOOTSTRAP_CODES: set<int> := {0, 2, 3, 4, 5}

  /**
   * EnsureWebView2Installed: 0 if the runtime is present; otherwise download the bootstrapper
   * (2 on failure), run it elevated (3 if no process, 4 if starting or waiting threw), and
   * probe again (0 if the runtime is now present, 5 if not).
   */
  function EnsureWebView2Installed(first: VersionProbe, downloaded: bool, installer: InstallerRun,
                                   second: VersionProbe): (r: Bootstrap)
    ensures r.exitCode in BOOTSTRAP_CODES
    ensures IsWebView2Available(first) ==> r == Bootstrap(0, [ProbeRuntime])
    ensures !IsWebView2Available(first) ==> |r.steps| >= 2 && r.steps[..2] == [ProbeRuntime, DownloadInstaller]
    ensures r.exitCode == 2 <==> !IsWebView2Available(first) && !downloaded
    ensures r.exitCode == 3 <==> !IsWebView2Available(first) && downloaded && installer.InstallerNull?
    ensures r.exitCode == 4 <==> !IsWebView2Available(first) && downloaded && installer.InstallerFailed?
    ensures r.exitCode == 5 <==> !IsWebView2Available(first) && downloaded && installer.InstallerExited?
                                 && !IsWebView2Available(second)
    ensures r.exitCode == 0 <==> IsWebView2Available(first)
                                 || (downloaded && installer.InstallerExited? && IsWebView2Available(second))
    ensures (RunInstaller in r.steps) <==> !IsWebView2Available(first) && downloaded
    ensures (ReprobeRuntime in r.steps) <==> !IsWebView2Available(first) && downloaded && installer.InstallerExited?
  {
    if IsWebView2Available(first) then Bootstrap(0, [ProbeRuntime])
    else if !downloaded then Bootstrap(2, [ProbeRuntime, DownloadInstaller])
    else
      var ran := [ProbeRuntime, DownloadInstaller, RunInstaller];
      match installer
      case InstallerNull => Bootstrap(3, ran)
      case InstallerFailed => Bootstrap(4, ran)
      case InstallerExited(_) =>
        Bootstrap(if IsWebView2Available(second) then 0 else 5, ran + [ReprobeRuntime])
  }

  // ---------------------------------------------------------------------------
  // The gate in the Loaded handler
  // ---------------------------------------------------------------------------

  /** What the deferred Loaded action did. */
  datatype Startup = Startup(
    promptShown: bool,
    windowClosed: bool,
    admin: Option<AdminOutcome>,
    bootstrap: Option<Bootstrap>,
    markerCreated: bool)

  /**
   * The Loaded action: nothing if the Updates marker directory exists; otherwise show the
   * prompt, close the window on refusal, and on consent run CheckAdmin and, if it returns,
   * the bootstrapper, then create the marker whatever the bootstrapper returned.
   */
  function OnLoaded(markerExists: bool, prompt: seq<PromptEvent>, isAdministrator: bool,
                    relaunch: LaunchResult, first: VersionProbe, downloaded: bool,
                    installer: InstallerRun, second: VersionProbe): (r: Startup)
    ensures markerExists ==> r == Startup(false, false, None, None, false)
    ensures r.promptShown <==> !markerExists
    ensures r.windowClosed <==> !markerExists && !ShowFirstPrompt(prompt)
    ensures r.admin.Some? <==> !markerExists && ShowFirstPrompt(prompt)
    ensures r.admin.Some? && !isAdministrator ==> r.admin.value == ProcessExit(0, relaunch == Launched)
    ensures r.bootstrap.Some? <==> r.markerCreated
    ensures r.markerCreated <==> !markerExists && ShowFirstPrompt(prompt) && isAdministrator
    ensures r.bootstrap.Some? ==> r.bootstrap.value == EnsureWebView2Installed(first, downloaded, installer, second)
  {
    if markerExists then Startup(false, false, None, None, false)
    else if !ShowFirstPrompt(prompt) then Startup(true, true, None, None, false)
    else
      var admin := CheckAdmin(isAdministrator, relaunch);
      if admin.ProcessExit? then Startup(true, false, Some(admin), None, false)
      else Startup(true, false, Some(admin), Some(EnsureWebView2Installed(first, downloaded, installer, second)), true)
  }

  /**
   * Two starts in a row, where the second sees the marker exactly when the first created it:
   * after a completed setup the second start neither prompts nor bootstraps; after a first
   * start that did not finish setup (refusal or elevation relaunch), the second prompts again.
   */
  lemma MarkerMakesSetUpOnce(prompt: seq<PromptEvent>, isAdministrator: bool, relaunch: LaunchResult,
                             first: VersionProbe, downloaded: bool, installer: InstallerRun, second: VersionProbe,
                             prompt': seq<PromptEvent>, isAdministrator': bool, relaunch': LaunchResult,
                             first': VersionProbe, downloaded': bool, installer': InstallerRun, second': VersionProbe)
    ensures var earlier := OnLoaded(false, prompt, isAdministrator, relaunch, first, downloaded, installer, second);
            var later := OnLoaded(earlier.markerCreated, prompt', isAdministrator', relaunch', first', downloaded',
                                  installer', second');
            && (earlier.markerCreated ==> !later.promptShown && later.admin.None? && later.bootstrap.None?)
            && (!earlier.markerCreated ==> later.promptShown)
  {
  }
}
