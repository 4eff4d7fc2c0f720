/**
 * Stand-ins for the WPF and WebView2 types the launcher window reads and writes.
 * Only the members the window uses are kept.
 */
module Wpf {
  /** System.Windows.WindowState. */
  datatype WindowState = Normal | Minimized | Maximized

  /** System.Windows.ResizeMode. */
  datatype ResizeMode = NoResize | CanMinimize | CanResize | CanResizeWithGrip

  /** The two System.Windows.Visibility values the window assigns. */
  datatype Visibility = Visible | Collapsed

  /** A pixel GridLength; WPF refuses negative lengths, so a length is a non-negative real. */
  type Length = r: real | r >= 0.0 witness 0.0

  /** The System.Windows.Input.Key values the window reacts to; any other key keeps its virtual-key code. */
  datatype Key = F11 | Escape | Enter | Other(virtualKey: int)

  /** CoreWebView2KeyEventKind. */
  datatype KeyEventKind = KeyDown | KeyUp | SystemKeyDown | SystemKeyUp

  /** The System.Windows.Shell.WindowChrome settings the window installs. */
  datatype WindowChrome = WindowChrome(
    captionHeight: real,
    resizeBorderThickness: real,
    cornerRadius: real,
    glassFrameThickness: real,
    useAeroCaptionButtons: bool)
}
