/**
 * The collaborators the core talks to but does not implement: the WHATWG URL
 * parser, the history capability of a browsing surface, and the effects the
 * Electron main process performs on its window.
 */
module Platform {
  import opened Wrappers

  /** The two parts of a parsed URL the core reads: `url.protocol` and `url.hostname`. */
  datatype UrlRecord = UrlRecord(protocol: string, hostname: string)

  /** `new URL(s)`: `None` stands for the constructor throwing (the string is not an absolute URL). */
  type Parser = string -> Option<UrlRecord>

  /** What a browsing surface reports through `canGoBack()` and `canGoForward()`. */
  datatype History = History(canGoBack: bool, canGoForward: bool)

  /** The value a window-open handler returns: `{action: 'allow'}` or `{action: 'deny'}`. */
  datatype WindowAction = Allow | Deny

  /** Effects the main process performs on its window's web contents. */
  datatype Effect =
    | NavigationBlocked(url: string)  // webContents.send('navigation-blocked', url)
    | NavigateTo(url: string)         // webContents.send('navigate-to', url)
    | LoadURL(url: string)            // mainWindow.loadURL(url)
    | WentBack                        // webContents.goBack()
    | WentForward                     // webContents.goForward()
    | Reloaded                        // webContents.reload()

  /** The outcome of the `will-navigate` callback: whether `preventDefault()` was called, and what was sent. */
  datatype NavigationVerdict = NavigationVerdict(prevented: bool, effects: seq<Effect>)

  /** The outcome of a window-open handler: its return value and its effects. */
  datatype WindowOpenVerdict = WindowOpenVerdict(action: WindowAction, effects: seq<Effect>)

  /** The outcome of an IPC handler that returns a boolean. */
  datatype HandlerReply = HandlerReply(returned: bool, effects: seq<Effect>)
}
