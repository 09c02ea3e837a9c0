/** The outward effects of the Electron main process, recorded in the order they happen.
    Clipboard, keystroke, window, shortcut and status-message effects of the hotkey pipeline
    are all entries of one log, so that their relative order can be stated. */
module Effects {

  /** The two hotkey flows: the input-field flow pastes its result back, the selection flow
      shows it in a dialog. */
  datatype Flow = InputFlow | SelectionFlow

  datatype Rect = Rect(x: int, y: int, width: int, height: int)

  datatype Point = Point(x: int, y: int)

  datatype Event =
    | ClipboardWritten(text: string)
    | ClipboardRead
    | KeysSent(keys: string)
    | AppActivated(app: string)
    /** An `ai-processing` message to the floating window. */
    | StatusSent(status: string)
    /** The prompt handed to the language-model call. */
    | TransformRequested(prompt: string)
    /** A result dialog with its escaped text and window bounds. */
    | ResultShown(markup: string, bounds: Rect)
    | SelectorOpened(bounds: Rect)
    | SelectorClosed
    | ShortcutRegistered(accelerator: string)
    | ShortcutUnregistered(accelerator: string)
    /** The default configuration of a flow was written to its file. */
    | ConfigSeeded(flow: Flow)
}
