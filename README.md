# AddImage command, link/image popups and toolbar button — a Dafny model

This project models the part of the editor that inserts an image into the
markdown buffer, together with the small UI state machines around it:

- **AddImage markdown command** (`src/js/markdownCommands/addImage.js`): from
  the current selection, the line after it and the image payload it builds
  `![alt](url)` plus a size-attribute suffix (`{height="480" width="640"}` for
  a video, `{height="" width=""}` otherwise). The alt text is decoded and then
  markdown-escaped, the URL (a video URL wins over the image URL) is only
  markdown-encoded. Two line breaks are put in front when the selection does
  not start at column 0 and two are appended when the next line exists and is
  not blank. The text replaces exactly the selection in one `replaceRange`
  call tagged `+addImage`, then the editor gets the focus.
- **PopupAddLink** (`src/js/ui/popupAddLink.js`): OK is enabled by a non-blank
  URL; confirming with an empty link text marks the text input as wrong and
  emits nothing; otherwise one `AddLink` command with the raw field values is
  emitted and the popup hides; hiding resets every input; showing puts the
  trimmed selection into the text input and focuses one of the two inputs.
- **PopupAddImage** (`src/js/ui/popupAddImage.js`): the same URL rule, OK
  disabled on show, alt text defaulting to `image`, inputs emptied on hide.
- **Button** (`src/js/ui/button.js`): a click on an enabled button triggers
  its command (with parameters if it has them) or else its event, then
  `clicked`; a disabled button triggers nothing.

Files: `wrappers.dfy` (Option), `text.dfy` (JavaScript `String.prototype.trim`),
`events.dfy` (payloads and the event manager's emit log), `buffer.dfy`
(CodeMirror's line buffer and `replaceRange`), `add_image_command.dfy`,
`popup_add_link.dfy`, `popup_add_image.dfy`, `button.dfy`.

How the model is built:

- The three ImportManager helpers (`decodeURIGraceful`,
  `escapeMarkdownCharacters`, `encodeMarkdownCharacters`) are not defined
  here: they are carried as arbitrary `string -> string` functions in a
  `TextTransforms` value, so every statement about the command holds for any
  helpers.
- The buffer is a sequence of lines without line breaks whose text is the
  lines joined by `"\n"`. `replaceRange` is modelled as a splice of lines, and it
  is proved that the new text is the old text before `from`, then the
  inserted text, then the old text after `to`. Nothing else in the buffer changes.
- A JavaScript value that is `undefined` or `''` (both falsy) is `""` in the
  model (`videoUrl`, the button's `command` and `event`). An absent `params` is
  `None`. A present one is `Some(list)`, because a JavaScript array is truthy
  even when empty. An absent next line is `None`.
- The popups and the button are classes whose fields stand for the DOM state
  (input values, the OK button's `disabled`, the `wrong` marks, visibility,
  the focused input). A ghost snapshot function `Current()` gives their state
  as a datatype. Each method is proved to move the snapshot the way a function
  on snapshots says, and the emitted events are appended to the event
  manager's log in order. The source's promises are stated and proved on those
  functions.
- `LayerPopup.show()`/`hide()` are not part of this model. They are taken to
  set the visibility and then run the popup's own `shown`/`hidden` handler.
- The selected text (`getSelectedText()`) is a parameter of the methods that
  read it.

Behaviours of the code worth noting:

- When the selection ends on the last line there is no next line.
  `cm.getLine(to.line + 1) || ''` then gives `''`, which counts as an empty line,
  so **no** trailing line breaks are added (`addImage.js:56-59`).
  `CursorOnLastLine` states this behaviour.
- On show, PopupAddImage disables OK without looking at the URL input
  (`popupAddImage.js:85-88`). The link popup re-validates (`popupAddLink.js:103`).
- The image popup's OK handler hides the popup twice: `_applyImage` hides, and
  then the handler hides again (`popupAddImage.js:95-96`, `123`). Hiding is
  idempotent, so the result is the same (`AddImagePopup.HiddenIdempotent`).

## Model

| member | source | states |
|---|---|---|
| Text.Trim | src/js/markdownCommands/addImage.js:56 | `trim()` gives `""` exactly when the string is all white space; otherwise the result starts and ends with a non-white-space character |
| Text.TrimStart | src/js/ui/popupAddLink.js:93 | drops leading white space: the result is a suffix of the input, what was dropped is white space, and the result is empty iff the input is all white space |
| Text.TrimEnd | src/js/ui/popupAddLink.js:170 | drops trailing white space: the result is a prefix of the input, what was dropped is white space, and the result is empty iff the input is all white space |
| Text.TrimEnds | src/js/ui/popupAddLink.js:93 | `trim()` is `TrimStart` followed by `TrimEnd`: exactly the white space at the two ends is dropped, and the rest is kept |
| Text.TrimIdempotent | src/js/ui/popupAddImage.js:131 | trimming twice is trimming once |
| Buffer.LineAt | src/js/markdownCommands/addImage.js:56 | `getLine(n)` is present exactly for `n` below the line count, and is then line `n` |
| Buffer.SplitLines | src/js/markdownCommands/addImage.js:60 | cutting a text at its line breaks gives a well-formed buffer: at least one line, none containing a line break |
| Buffer.JoinSplit | src/js/markdownCommands/addImage.js:60 | joining the lines of a split text gives back the text |
| Buffer.SplitJoin | src/js/markdownCommands/addImage.js:60 | splitting the text of a well-formed buffer gives back its lines |
| Buffer.Splice | src/js/markdownCommands/addImage.js:60 | the buffer after `replaceRange` is well formed; the lines before `from.line` and after `to.line` are kept, and the line count grows by the inserted text's line count minus the replaced lines |
| Buffer.SpliceText | src/js/markdownCommands/addImage.js:60 | the new buffer text is the old text before `from`, then the inserted text, then the old text after `to` |
| Buffer.SpliceEnd | src/js/markdownCommands/addImage.js:60 | the end of the change is a valid position in the new buffer, and the text before it is the old text before `from` followed by the inserted text |
| Buffer.ChangeEnd | src/js/markdownCommands/addImage.js:60 | where the change that `replaceRange` makes ends: with no line break in the text, on `from`'s line `|text|` columns on; otherwise on a later line, at the column just past the text that follows the last line break |
| Buffer.SplitLinesLast | src/js/markdownCommands/addImage.js:60 | a text splits into exactly one line iff it has no line break, and the last line of the split is exactly what follows the last line break |
| Buffer.TextAround | src/js/markdownCommands/addImage.js:28-38 | every valid position cuts the buffer text into the text before it and the text after it |
| Buffer.MarkdownEditor.GetCurrentRange | src/js/markdownCommands/addImage.js:28 | returns the current selection, which is a valid range of the buffer |
| Buffer.MarkdownEditor.GetLine | src/js/markdownCommands/addImage.js:56 | returns line `n`, or absent past the last line |
| Buffer.MarkdownEditor.ReplaceRange | src/js/markdownCommands/addImage.js:60 | replacing the current selection is one edit: the lines become the splice, the text outside the range is unchanged, the call is recorded with its text, range and origin, and the selection collapses to the end of the inserted text |
| Buffer.MarkdownEditor.Focus | src/js/markdownCommands/addImage.js:62 | the editor has the focus; buffer, selection and edit record are unchanged |
| AddImageCommand.SourceUrl | src/js/markdownCommands/addImage.js:41 | a non-empty `videoUrl` is used instead of `imageUrl` |
| AddImageCommand.AltText | src/js/markdownCommands/addImage.js:40-43 | the alt text is URI-decoded first and markdown-escaped second |
| AddImageCommand.Url | src/js/markdownCommands/addImage.js:41-44 | the video URL when there is one, else the image URL, markdown-encoded |
| AddImageCommand.SizeAttributes | src/js/markdownCommands/addImage.js:47-51 | the size suffix is the video one (`{height="480" width="640"}`) exactly when there is a video URL, and the empty image one exactly when there is none |
| AddImageCommand.ImageSyntax | src/js/markdownCommands/addImage.js:46-51 | the image syntax opens with `![`, ends with the size suffix that `SizeAttributes` picks, and so closes with `"}` |
| AddImageCommand.NextLineIsEmpty | src/js/markdownCommands/addImage.js:56 | the next line counts as empty exactly when it is absent or all white space |
| AddImageCommand.ReplacementText | src/js/markdownCommands/addImage.js:46-59 | the text starts with `"\n\n"` iff `from.ch > 0`, and ends with `"\n\n"` iff the next line exists and is not blank |
| AddImageCommand.Padded | src/js/markdownCommands/addImage.js:53-59 | padding a block that opens with `![` and closes with `"}` gives a text that starts with a blank line iff the leading padding is one, and ends with one iff the trailing padding is one |
| AddImageCommand.ParseReplacementText | src/js/markdownCommands/addImage.js:40-59 | reading the text back yields: the leading-padding decision, the alt text decoded then escaped, the URL encoded only, video or image size, and the trailing-padding decision. This holds when the helpers leave no unescaped `]` in the alt text and no unescaped `)` in the URL, neither ending in a lone backslash. With `ParseSound` the text is then exactly the rendering `pre + ![alt](url){size} + post` of those parts, with `pre`, `post` each `""` or `"\n\n"` |
| AddImageCommand.ParseBlock | src/js/markdownCommands/addImage.js:46-59 | any `pre + ![alt](url){size} + post` with padding `""` or `"\n\n"`, whose alt text has no unescaped `]` and whose URL has no unescaped `)`, neither ending in a lone backslash, reads back into exactly those parts |
| AddImageCommand.ParseSound | src/js/markdownCommands/addImage.js:46-59 | the reader is sound: whatever text it accepts is exactly the rendering `pre + ![alt](url){size} + post` of the block it returns |
| AddImageCommand.ScanToSound | src/js/markdownCommands/addImage.js:48-50 | when the scan finds a delimiter, the text is what precedes it, the delimiter, and what follows it |
| AddImageCommand.ScanToClose | src/js/markdownCommands/addImage.js:48-50 | a delimiter that follows a part with no unescaped delimiter is found right after that part |
| AddImageCommand.ParseSize | src/js/markdownCommands/addImage.js:47-51 | the video suffix and the image suffix are told apart, and so are the two trailing-padding cases |
| AddImageCommand.StripPrefix | src/js/markdownCommands/addImage.js:53-55 | removes a prefix exactly when it is there |
| AddImageCommand.CatImageSyntax | src/js/markdownCommands/addImage.js:46-51 | when the helpers leave `cat` and `c.png` unchanged, for the image payload `cat` / `c.png` the syntax is `![cat](c.png)` followed by the empty size attributes |
| AddImageCommand.CursorInsideLine | src/js/markdownCommands/addImage.js:46-59 | when the helpers leave `cat` and `c.png` unchanged, for a cursor at column 5 followed by the line `text`, the payload `cat` / `c.png` gives `"\n\n![cat](c.png){height=\"\" width=\"\"}\n\n"` |
| AddImageCommand.CursorAtLineStart | src/js/markdownCommands/addImage.js:53-59 | when the helpers leave `cat` and `c.png` unchanged, the payload `cat` / `c.png` at column 0 with an empty next line gives `![cat](c.png){height="" width=""}`, with no padding on either side |
| AddImageCommand.CursorOnLastLine | src/js/markdownCommands/addImage.js:56-59 | with no next line there is no trailing padding |
| AddImageCommand.Exec | src/js/markdownCommands/addImage.js:24-63 | exactly one `replaceRange` is recorded, over the `from`/`to` of the current selection copied field for field, with the replacement text and origin `+addImage`. The buffer text outside the range is unchanged, and the editor ends focused |
| Events.EventManager.Emit | src/js/ui/popupAddLink.js:124 | `emit` appends the event to the log and changes nothing else; the popups' emits at `popupAddLink.js:144` and `popupAddImage.js:113`, `119` go through it too |
| AddLinkPopup.Validated | src/js/ui/popupAddLink.js:169-172 | OK is disabled exactly when the URL input is all white space; nothing else changes |
| AddLinkPopup.ValidationCleared | src/js/ui/popupAddLink.js:164-167 | both `wrong` marks are cleared; nothing else changes |
| AddLinkPopup.InputsReset | src/js/ui/popupAddLink.js:174-179 | text and URL become `''`, the checkbox is unticked and both marks are cleared; OK state, visibility and focus are kept |
| AddLinkPopup.Hidden | src/js/ui/popupAddLink.js:106-108 | after hiding, the popup is hidden, the inputs are empty, the checkbox is unticked and both marks are cleared |
| AddLinkPopup.ShownHandler | src/js/ui/popupAddLink.js:88-104 | the 'shown' handler puts the trimmed selection into the text input. It focuses the URL input iff the selection is not blank and no URL is typed, and the text input otherwise. OK ends disabled iff the URL is blank. URL, checkbox, marks and visibility are kept |
| AddLinkPopup.ShownFocus | src/js/ui/popupAddLink.js:97-101 | the URL input gets the focus exactly when the trimmed selection is non-empty and no URL is typed; the text input gets it in every other case |
| AddLinkPopup.Shown | src/js/ui/popupAddLink.js:88-104 | after showing, the text input holds the trimmed selection. The URL input has the focus iff the selection is not blank and no URL is typed; otherwise the text input has it. OK ends disabled iff the URL is blank |
| AddLinkPopup.AfterAddLink | src/js/ui/popupAddLink.js:129-150 | with an empty link text: nothing is emitted, the marks are cleared and then the text input is marked, and the popup is not hidden. Otherwise exactly one `command`/`AddLink` event with the raw link text, URL and checkbox is emitted, and the popup hides |
| AddLinkPopup.AfterOpen | src/js/ui/popupAddLink.js:121-126 | `openPopupAddLink` emits `closeAllPopup`, which hides this popup, and then shows it. The popup ends visible with empty URL, unticked box, no marks and OK disabled; the URL input has the focus iff the selection is not blank |
| AddLinkPopup.HiddenIdempotent | src/js/ui/popupAddLink.js:121-122 | hiding an already hidden popup changes nothing |
| AddLinkPopup.ValidatedIdempotent | src/js/ui/popupAddLink.js:84-85 | re-running the OK check on unchanged input gives the same result |
| AddLinkPopup.PopupAddLink.constructor | src/js/ui/popupAddLink.js:53-74 | a new popup: empty inputs, hidden, no marks, bound to its event manager |
| AddLinkPopup.PopupAddLink.DisableBtnOnEmptyValue | src/js/ui/popupAddLink.js:169-172 | the fields follow `Validated` |
| AddLinkPopup.PopupAddLink.ClearValidationStyle | src/js/ui/popupAddLink.js:164-167 | the fields follow `ValidationCleared` |
| AddLinkPopup.PopupAddLink.ResetInputs | src/js/ui/popupAddLink.js:174-179 | the fields follow `InputsReset` |
| AddLinkPopup.PopupAddLink.OnShown | src/js/ui/popupAddLink.js:88-104 | the fields follow `ShownHandler` |
| AddLinkPopup.PopupAddLink.OnHidden | src/js/ui/popupAddLink.js:106-108 | the fields follow `InputsReset` |
| AddLinkPopup.PopupAddLink.Show | src/js/ui/popupAddLink.js:88-104 | the fields follow `Shown` |
| AddLinkPopup.PopupAddLink.Hide | src/js/ui/popupAddLink.js:86 | the fields follow `Hidden` (also the `focus` and `closeAllPopup` listener, lines 121-122) |
| AddLinkPopup.PopupAddLink.GetValue | src/js/ui/popupAddLink.js:152-162 | returns the raw URL, link text and checkbox, and modifies nothing |
| AddLinkPopup.PopupAddLink.AddLink | src/js/ui/popupAddLink.js:129-150 | the fields follow `AfterAddLink`, and the event log grows by exactly its emitted events |
| AddLinkPopup.PopupAddLink.OpenPopupAddLink | src/js/ui/popupAddLink.js:123-126 | the fields follow `AfterOpen`, and the log grows by `closeAllPopup` |
| AddImagePopup.AltOrDefault | src/js/ui/popupAddImage.js:121 | an empty alt text becomes `image`; any other is kept |
| AddImagePopup.Validated | src/js/ui/popupAddImage.js:130-137 | OK is disabled exactly when the image-URL input is all white space; nothing else changes |
| AddImagePopup.Hidden | src/js/ui/popupAddImage.js:89 | after hiding the popup is hidden and every input is `''`; OK state and focus are kept |
| AddImagePopup.Shown | src/js/ui/popupAddImage.js:85-88 | after showing the popup is visible, the URL input has the focus and OK is disabled; the inputs are kept |
| AddImagePopup.AfterApplyImage | src/js/ui/popupAddImage.js:118-124 | exactly one `command`/`AddImage` event is emitted, with the URL untrimmed and the alt text defaulted; then the popup hides |
| AddImagePopup.AfterOk | src/js/ui/popupAddImage.js:92-97 | the OK click emits exactly one AddImage command carrying what the inputs held (alt defaulted), and ends hidden with empty inputs |
| AddImagePopup.AfterOpen | src/js/ui/popupAddImage.js:109-115 | `openPopupAddImage` emits `closeAllPopup`, which hides this popup, then shows it: visible, empty inputs, URL focused, OK disabled |
| AddImagePopup.HiddenIdempotent | src/js/ui/popupAddImage.js:95-96 | a second `hide()` changes nothing |
| AddImagePopup.PopupAddImage.constructor | src/js/ui/popupAddImage.js:54-74 | a new popup: empty inputs, hidden, bound to its event manager |
| AddImagePopup.PopupAddImage.DisableBtnOnEmptyValue | src/js/ui/popupAddImage.js:130-137 | the fields follow `Validated` |
| AddImagePopup.PopupAddImage.ResetInputs | src/js/ui/popupAddImage.js:126-128 | both inputs become `''`; nothing else changes |
| AddImagePopup.PopupAddImage.OnShown | src/js/ui/popupAddImage.js:85-88 | the URL input is focused and OK is disabled; nothing else changes |
| AddImagePopup.PopupAddImage.Show | src/js/ui/popupAddImage.js:85-88 | the fields follow `Shown` |
| AddImagePopup.PopupAddImage.Hide | src/js/ui/popupAddImage.js:89-91 | the fields follow `Hidden` (also the `focus` and `closeAllPopup` listener, lines 109-110) |
| AddImagePopup.PopupAddImage.ApplyImage | src/js/ui/popupAddImage.js:118-124 | the fields follow `AfterApplyImage`, and the log grows by its one event |
| AddImagePopup.PopupAddImage.ClickOk | src/js/ui/popupAddImage.js:92-97 | the fields follow `AfterOk`, and the log grows by its one event |
| AddImagePopup.PopupAddImage.OpenPopupAddImage | src/js/ui/popupAddImage.js:112-115 | the fields follow `AfterOpen`, and the log grows by `closeAllPopup` |
| ToolbarButton.CommandTriggerOf | src/js/ui/button.js:89-94 | with parameters the trigger is `('command', [command, params])`; without, `('command', command)` |
| ToolbarButton.ClickTriggers | src/js/ui/button.js:84-100 | disabled: no trigger. Enabled: exactly one `clicked`, and it comes last. It is preceded by the command trigger when there is a command, else by the event trigger when there is an event, else by nothing. An event is triggered only when there is no command |
| ToolbarButton.Button.constructor | src/js/ui/button.js:35-54 | the fields hold the options unchanged, the button is enabled and has triggered nothing |
| ToolbarButton.Button.SetTooltip | src/js/ui/button.js:61-63 | only the tooltip changes |
| ToolbarButton.Button.SetOptions | src/js/ui/button.js:65-73 | every option is copied into its field unchanged; enabled state and triggers are kept |
| ToolbarButton.Button.Enable | src/js/ui/button.js:118-120 | the button is enabled afterwards; options and triggers are kept |
| ToolbarButton.Button.Disable | src/js/ui/button.js:126-128 | the button is disabled afterwards; options and triggers are kept |
| ToolbarButton.Button.IsEnabled | src/js/ui/button.js:135-137 | true exactly when the button is not disabled |
| ToolbarButton.Button.Trigger | src/js/ui/button.js:91-99 | `trigger` appends its arguments to the recorded triggers and changes neither options nor enabled state |
| ToolbarButton.Button.OnClick | src/js/ui/button.js:84-100 | the triggers recorded by one click are exactly `ClickTriggers` of the state before the click; options and enabled state are kept |

## Left out

- The DOM, jQuery, CSS classes, HTML templates and i18n strings. Inputs, the OK button and the `wrong` class are plain fields. Focus is only a tag, and `setSelectionRange` is not modelled.
- `_render`, tooltip display (`_onOver`, `_onOut`) and the hover listeners the button's constructor registers: presentation only.
- `LayerPopup` and `ToolbarItem` are not part of this model. Show and hide are taken to set the visibility and run the popup's handler. `trigger` is taken to record its arguments.
- The event manager's listener table is not modelled: `emit` appends to a log. So the delivery of `closeAllPopup` to *other* popups is not modelled, and neither is mutual exclusion between popups. The same goes for the dispatch of a `command` event to the AddLink or AddImage command.
- The bodies of `decodeURIGraceful`, `escapeMarkdownCharacters` and `encodeMarkdownCharacters` are not part of this model. They are arbitrary functions here, so no round trip through them is claimed.
- AddImageCommand.ParseReplacementText: reading the text back needs the helpers to leave no unescaped `]` in the alt text and no unescaped `)` in the URL, neither ending in a lone backslash, because their definitions are not part of this model.
- CodeMirror internals: undo grouping by origin tag; line separators other than `"\n"` (`"\r\n"`, `"\r"`); clipping of out-of-range positions; mapping of selections other than the replaced one. `MarkdownEditor.Valid()` holds the editor's guarantee that the current selection is a valid range.
- A browser does not deliver clicks to a disabled button. That is DOM behaviour, so the OK handlers are modelled as they are written, without a disabled check.
- Buffer.MarkdownEditor.ReplaceRange: only the replacement of the current selection is modelled, the one call the command makes. CodeMirror's mapping of a selection that lies before `from` (kept) or after `to` (shifted) is not modelled.
- The Button constructor's default argument (`tagName: 'button'`, `name: Button.name`, `button.js:35-38`) only feeds the DOM wrapper. Its option fields are all missing, so `new Button()` corresponds to `ButtonOptions("", "", "", "", None, "", "")`, a missing option being modelled by its falsy value.
- The command registry and the `UnknownCommand` error: no registry code is part of this model.
- JavaScript strings are UTF-16 code units, and the model's `char` is a Unicode scalar value. Emptiness tests (`trim().length === 0`, `from.ch > 0`) agree in both counts.
- Buffer columns count Unicode scalar values, not UTF-16 units. CodeMirror's `ch` counts UTF-16 units, so outside the Basic Multilingual Plane the model's `ValidPos`, the slices of `TextBefore`/`TextAfter`, `ChangeEnd` and the `from`/`to` columns of `Exec` differ from CodeMirror's (a character such as U+1F600 is one column here and two there).
