/**
 * The game catalog and the game session: which record is selected, which of the welcome
 * text, the web view and the back button are shown, and what the web view displays.
 * The record's selected flag is kept (it is what the sidebar binds to) together with the
 * index of the current game, and the invariant ties the two together.
 */
module Games {
  import opened Wrappers
  import opened Wpf
  import Text

  const BLANK_PAGE := "about:blank"

  /** A catalog entry; githubUrl None stands for a null GithubUrl. */
  datatype Game = Game(name: string, description: string, url: string, githubUrl: Option<string>, isSelected: bool)

  /** Game.HasGithub: the repository link is neither null nor blank. */
  function HasGithub(g: Game): (r: bool)
    ensures r <==> g.githubUrl.Some? && Text.Trim(g.githubUrl.value) != []
  {
    !Text.IsNullOrWhiteSpace(g.githubUrl)
  }

  /** The indices of the records whose flag is set. */
  function SelectedIndices(games: seq<Game>): set<nat> {
    set i: nat | i < |games| && games[i].isSelected
  }

  /** The two sequences hold the same records, selection flags aside. */
  predicate SameRecords(a: seq<Game>, b: seq<Game>) {
    |a| == |b| && forall i :: 0 <= i < |a| ==> a[i].(isSelected := false) == b[i].(isSelected := false)
  }

  /** The flags mark exactly the current game, and the current game is in the catalog. */
  predicate SelectionAgrees(games: seq<Game>, current: Option<nat>) {
    (current.Some? ==> current.value < |games|)
    && forall i :: 0 <= i < |games| ==> (games[i].isSelected <==> current == Some(i))
  }

  /** The elements of the content area that the session shows, hides or navigates. */
  datatype ContentView = ContentView(
    welcomeText: Visibility,
    gameWebView: Visibility,
    backButton: Visibility,
    source: Option<string>,   // the page the web view shows, if any
    coreReady: bool)          // GameWebView.CoreWebView2 != null

  /** The value of the session-related state of the window. */
  datatype Session = Session(
    games: seq<Game>,
    current: Option<nat>,     // currentSelectedGame
    view: ContentView)

  predicate SessionInv(s: Session) {
    SelectionAgrees(s.games, s.current)
  }

  /** Sets the flag of record k (when there is one) to b. */
  function WithSelected(games: seq<Game>, k: nat, b: bool): (r: seq<Game>)
    ensures SameRecords(games, r)
    ensures forall i :: 0 <= i < |r| ==> r[i].isSelected == (if i == k then b else games[i].isSelected)
  {
    if k < |games| then games[k := games[k].(isSelected := b)] else games
  }

  /**
   * LoadGame: clear the current game's flag, set the chosen one's, switch from the welcome
   * text to the web view, show the back button and point the web view at the game's URL.
   */
  function GameLoaded(s: Session, i: nat): (t: Session)
    requires i < |s.games|
    ensures SameRecords(s.games, t.games)
    ensures SessionInv(s) ==> SessionInv(t) && SelectedIndices(t.games) == {i}
    ensures t.current == Some(i) && t.games[i].isSelected
    ensures t.view.welcomeText == Collapsed && t.view.gameWebView == Visible && t.view.backButton == Visible
    ensures t.view.source == Some(s.games[i].url)
    ensures t.view.coreReady == s.view.coreReady
  {
    var cleared := if s.current.Some? then WithSelected(s.games, s.current.value, false) else s.games;
    var t := s.(games := WithSelected(cleared, i, true), current := Some(i),
                view := s.view.(welcomeText := Collapsed, gameWebView := Visible, backButton := Visible,
                                source := Some(s.games[i].url)));
    assert SessionInv(s) ==> SelectedIndices(t.games) == {i} by {
      if SessionInv(s) {
        forall j | j in SelectedIndices(t.games) ensures j == i { }
      }
    }
    t
  }

  /**
   * Back_Click: clear the current game, switch from the web view back to the welcome text,
   * hide the back button, and navigate to a blank page only if the WebView2 core exists.
   */
  function BackedOut(s: Session): (t: Session)
    ensures SessionInv(s) ==> SessionInv(t) && SelectedIndices(t.games) == {}
    ensures t.current == None
    ensures SameRecords(s.games, t.games)
    ensures t.view.welcomeText == Visible && t.view.gameWebView == Collapsed && t.view.backButton == Collapsed
    ensures s.view.coreReady ==> t.view.source == Some(BLANK_PAGE)
    ensures !s.view.coreReady ==> t.view.source == s.view.source
    ensures t.view.coreReady == s.view.coreReady
  {
    var cleared := if s.current.Some? then WithSelected(s.games, s.current.value, false) else s.games;
    var t := s.(games := cleared, current := None,
                view := s.view.(gameWebView := Collapsed, welcomeText := Visible, backButton := Collapsed,
                                source := if s.view.coreReady then Some(BLANK_PAGE) else s.view.source));
    assert SessionInv(s) ==> SelectedIndices(t.games) == {} by {
      if SessionInv(s) {
        forall j | j in SelectedIndices(t.games) ensures false { }
      }
    }
    t
  }

  /** Selecting a then b leaves exactly b selected, and a no longer selected unless a is b. */
  lemma SelectTwice(s: Session, a: nat, b: nat)
    requires SessionInv(s) && a < |s.games| && b < |s.games|
    ensures var t := GameLoaded(GameLoaded(s, a), b);
            SelectedIndices(t.games) == {b} && (a != b ==> !t.games[a].isSelected) && t.view.source == Some(s.games[b].url)
  {
    var t := GameLoaded(GameLoaded(s, a), b);
    assert b in SelectedIndices(t.games);
  }

  /** Going back without a ready core keeps the previous game's page in the (hidden) web view. */
  lemma BackBeforeCoreKeepsPage(s: Session, i: nat)
    requires SessionInv(s) && i < |s.games| && !s.view.coreReady
    ensures BackedOut(GameLoaded(s, i)).view.source == Some(s.games[i].url)
  {
  }

  /** The CommandParameter of the clicked menu item. */
  datatype CommandParameter = NullParameter | StringParameter(text: string) | OtherParameter

  /** The sender of a context-menu click. */
  datatype ClickSender = MenuItem(parameter: CommandParameter) | OtherSender

  /**
   * CopySiteLink_Click and CopyGithubLink_Click: the text written to the clipboard, if any.
   * Only a menu item whose parameter is a non-blank string copies, and it copies that string.
   */
  function LinkToCopy(sender: ClickSender): (copied: Option<string>)
    ensures copied.Some? <==> sender.MenuItem? && sender.parameter.StringParameter?
                              && Text.Trim(sender.parameter.text) != []
    ensures copied.Some? ==> copied.value == sender.parameter.text
  {
    match sender
    case MenuItem(StringParameter(url)) =>
      if !Text.IsNullOrWhiteSpace(Some(url)) then Some(url) else None
    case _ => None
  }
}
