# Drawing app: verified model of the `DrawingApp` core

This project models the core of a browser drawing application (`script.js`,
class `DrawingApp`) in Dafny and proves properties of the model. It covers four parts:

- **Undo/redo history** (`UndoHistory`, and the class `App.DrawingApp`). This is a bounded, linear
  list of canvas snapshots plus a cursor. `saveState` first drops the entries after the cursor. It then
  evicts the oldest entry when 20 are held, or else advances the cursor, and appends the new snapshot.
  `undo` and `redo` move the cursor when they can. `restoreState` selects what to paint: the background fill
  followed by the entry under the cursor, or the background fill alone when the cursor is outside the history
  (it paints at the current `globalAlpha`, see "Left out"). `newCanvas` and `clearCanvas` reset the history or capture a state. The two history
  buttons are enabled exactly when undo or redo would do something.
- **Pointer interaction** (`App.DrawingApp.StartDrawing`, `Draw` and `StopDrawing`). A press opens an
  interaction, and only the spray paints at once. Each move paints the current tool's mark: a segment from the previous point to the new one for the line tools, a scatter around the new point for the spray, nothing for an unknown tool.
  Release or leaving the canvas closes the interaction and captures exactly one snapshot, so a
  `mouseout` after a `mouseup` does nothing.
- **Tool styles** (`Tools`). The pen draws at the brush size in the primary colour. The marker draws at
  twice the width with 30 % of the alpha. The eraser draws at the brush size in the background colour. The
  spray scatters `2 × brushSize` dots, each within `brushSize / 2` of the pointer. A tool name the `draw`
  switch does not know paints nothing.
- **Colour text and export format** (`CssColor`, `ExportFormat`). `rgbToHex` turns `rgb(r, g, b)` into
  `#rrggbb`, returns `#…` text unchanged, and gives `#000000` for anything else. The save dialog's format
  selects the MIME type and the file extension.

The history is specified by pure functions on values: `UndoHistory.Save`, `Undo`, `Redo`, `Reset` and
`Shown`. The class's methods update the `history` and `historyIndex` fields in place. They are proved to
follow these functions, and to keep the button states equal to `CanUndo` and `CanRedo` (`DrawingApp.Valid`).
Snapshots are a type parameter `S`: every operation that captures the canvas receives the snapshot the
canvas encodes to at that moment. The answer to a `confirm()` prompt is a boolean parameter. `Math.random()`
is a parameter `random: nat -> real` whose values lie in [0, 1). Spray iteration `i` uses `random(2i)` for
the angle and `random(2i + 1)` for the distance.

Behaviour of the code the model keeps:

- On a press, the pen, marker and eraser paint nothing. Only the spray paints at once (`script.js:217-220`).
  The first segment is drawn on the first move.
- The eraser keeps the configured opacity (`script.js:230`). It paints the background colour, so it
  restores the background exactly only at full opacity.
- `restoreState` falls back to the background alone only when the cursor is outside the history. There is
  no fallback for an image that fails to decode.
- Any export format other than `jpeg` and `webp` gives PNG, not only the PNG choice.

## Model

| member | source | states |
|---|---|---|
| UndoHistory.Empty | script.js:5-6 | the starting history (no entries, cursor -1) satisfies the invariant, and both buttons are disabled |
| UndoHistory.CanUndo | script.js:372 | the undo button is enabled iff the cursor is > 0; stated through DrawingApp.Valid, which UpdateHistoryButtons re-establishes |
| UndoHistory.CanRedo | script.js:373 | the redo button is enabled iff the cursor is below length-1; stated through DrawingApp.Valid, which UpdateHistoryButtons re-establishes |
| UndoHistory.Save | script.js:322-340 | keeps the invariant (length ≤ 20, cursor in [-1, length-1]); the cursor ends on the new last entry, which is the snapshot, so redo is disabled; the length becomes min(cursor + 2, 20); every earlier entry is the old entry at the same position up to the old cursor, shifted by one when the oldest was evicted |
| UndoHistory.Undo | script.js:355-361 | entries unchanged and invariant kept; the cursor drops by exactly 1 when it was > 0, otherwise nothing changes |
| UndoHistory.Redo | script.js:363-369 | entries unchanged and invariant kept; the cursor rises by exactly 1 when it was < length-1, otherwise nothing changes |
| UndoHistory.Reset | script.js:384-391 | a confirmed new canvas leaves exactly the blank snapshot with cursor 0, so undo and redo are both disabled |
| UndoHistory.Shown | script.js:342-353 | a snapshot is shown exactly when the cursor is in range, and it is the entry under the cursor; otherwise the background alone |
| UndoHistory.SaveAll | script.js:322-340 | any sequence of captures keeps the history invariant |
| UndoHistory.Undos | script.js:355-361 | repeated undo never changes the entries and keeps the invariant |
| UndoHistory.Redos | script.js:363-369 | repeated redo never changes the entries and keeps the invariant |
| UndoHistory.SaveSlidesWindow | script.js:324-336 | with the cursor at the end, a capture slides the window of the 20 most recent entries by one |
| UndoHistory.SaveAllFromReset | script.js:322-340 | after a new canvas and N captures: the history is the last min(N+1, 20) snapshots, the oldest evicted first; the cursor is on the last one; undo is enabled iff N ≥ 1; redo is disabled |
| UndoHistory.UndosMoveBack | script.js:355-361 | k undos from a cursor ≥ k move the cursor back by exactly k |
| UndoHistory.RedosMoveForward | script.js:363-369 | k redos with k entries ahead move the cursor forward by exactly k |
| UndoHistory.UndosThenRedos | script.js:355-369 | k effective undos followed by k redos restore the history exactly |
| UndoHistory.UndoRedoInverse | script.js:355-369 | an effective undo is undone by redo and vice versa, and each enables the other button |
| UndoHistory.SaveAfterUndosTruncates | script.js:324-336 | a capture after k undos keeps the entries up to the new cursor, discards the k undone ones, and leaves redo a no-op |
| UndoHistory.SaveAtCapacityEvictsOldest | script.js:329-336 | at 20 entries with the cursor at the end, a capture shifts out entry 0, keeps length 20 and cursor 19 |
| UndoHistory.ShownAfterSaveAndUndo | script.js:342-358 | after a capture the canvas shows that snapshot; after an effective undo it shows the previous entry; a non-empty history never shows the background alone |
| Tools.ParseTool | script.js:234-247 | the draw switch recognises exactly pen, marker, spray and eraser, and each by its own name |
| Tools.ToolNameRoundTrip | script.js:234-247 | every tool's name selects that tool |
| Tools.LineStyleOf | script.js:253-299 | pen: primary colour, brush-size width, the configured opacity; marker: primary colour, twice the width, opacity × 0.3; eraser: background colour, brush-size width, the configured opacity |
| Tools.EraserIsPenInBackground | script.js:291-299 | the eraser is exactly the pen with the background colour as primary colour |
| Tools.MarkerIsWidePalePen | script.js:263-272 | the marker is exactly the pen with doubled width and alpha scaled by 0.3 |
| Tools.DotCount | script.js:277-279 | the spray loop runs 2 × brushSize times for a positive brush size, otherwise not at all |
| Tools.SprayDots | script.js:274-289 | one spray step yields exactly DotCount(brushSize) dots, each at a distance in [0, brushSize/2) from the pointer, each angle draw in [0, 1) |
| Tools.SprayDot | script.js:280-283 | each dot's distance is a draw from [0, 1) times the radius, so it is below the radius |
| Tools.Stroke | script.js:234-247 | an unknown tool paints nothing; the spray paints a scatter around the current point only; the line tools paint a segment from the previous to the current point in their style |
| Tools.DrawSpray | script.js:274-289 | the loop produces exactly the dots of SprayDots, in the primary colour at the configured opacity, around the pointer |
| Tools.ApplySegment | script.js:230-247 | the tool dispatch produces exactly Stroke's mark for every tool name |
| CssColor.ToHex | script.js:536-538 | `toString(16)`: non-empty lower-case hexadecimal without leading zeros, at most two digits iff the value is < 256 |
| CssColor.PadStart | script.js:536-538 | `padStart`: the result has at least the width, ends with the input and is padded with zeros in front |
| CssColor.Hex2 | script.js:536-538 | each component becomes at least two lower-case hex digits, exactly two iff it is < 256 |
| CssColor.ParseRgb | script.js:533 | a match starts with `rgb(`; MatchesPattern and OnlyPatternMatches state that it matches exactly the texts of the pattern's shape, with their digit runs' values as components |
| CssColor.DecimalValue | script.js:536-538 | `parseInt` of a digit run: its value is below ten to the power of its length |
| CssColor.LeadingZero | script.js:536-538 | a leading zero does not change a component's value, so `rgb(007, …)` reads 7 |
| CssColor.RgbToHex | script.js:529-541 | every result starts with `#`; `#…` input is returned unchanged; input the pattern does not match gives `#000000` |
| CssColor.RgbToHexOfMatch | script.js:533-540 | any matched `rgb(…)` text, with any white space after the commas and components of any size, converts to `#` followed by each component's `toString(16)` padded to two digits |
| CssColor.HexRoundTrip | script.js:536-538 | the hexadecimal text reads back as the number |
| CssColor.Hex2RoundTrip | script.js:536-538 | the zero-padded component reads back as the number |
| CssColor.MatchesPattern | script.js:533 | every `rgb(<digits>,<spaces><digits>,<spaces><digits>)` text matches, with the decimal values of its digit runs as components |
| CssColor.OnlyPatternMatches | script.js:533-534 | any text that matches has exactly that shape, so everything else falls back to `#000000` |
| CssColor.PresetColourToHex | script.js:529-540 | for `rgb(r, g, b)` with components ≤ 255 the result is 7 characters: `#` and three lower-case hex pairs that read back as r, g and b |
| CssColor.RgbToHexIdempotent | script.js:531 | converting a result again changes nothing |
| ExportFormat.EncodingFor | script.js:403-416 | jpeg and webp give `image/jpeg` and `image/webp`; anything else gives `image/png`; the extension is the subtype, except `jpg` for JPEG |
| ExportFormat.DownloadName | script.js:419 | the download name is the file name, a dot and the extension |
| ExportFormat.EncodingsDistinct | script.js:403-416 | two formats give the same encoding exactly when they are equal or both fall back to PNG |
| App.DrawingApp.constructor | script.js:2-24 | default tool, colours, size and opacity; not drawing; the blank canvas is the only history entry, with cursor 0 and both buttons disabled |
| App.DrawingApp.UpdateHistoryButtons | script.js:371-374 | undo is disabled iff the cursor ≤ 0; redo is disabled iff the cursor ≥ length-1 |
| App.DrawingApp.SaveState | script.js:322-340 | updates the history fields in place exactly as UndoHistory.Save, keeping the invariant and the button states |
| App.DrawingApp.Undo | script.js:355-361 | moves the cursor as UndoHistory.Undo; restores the entry now under the cursor only when undo was possible |
| App.DrawingApp.Redo | script.js:363-369 | moves the cursor as UndoHistory.Redo; restores the entry now under the cursor only when redo was possible |
| App.DrawingApp.ClearCanvas | script.js:376-382 | a confirmed clear captures the cleared canvas as a new entry; an unconfirmed one changes nothing |
| App.DrawingApp.NewCanvas | script.js:384-392 | a confirmed new canvas leaves only the blank snapshot with both buttons disabled; an unconfirmed one changes nothing |
| App.DrawingApp.StartDrawing | script.js:211-221 | opens the interaction at the press point; only the spray paints immediately, around that point |
| App.DrawingApp.Draw | script.js:223-251 | outside an interaction nothing happens; inside one, it paints the current tool's mark from the previous point, and the current point becomes the previous point |
| App.DrawingApp.StopDrawing | script.js:301-306 | closes the interaction and captures one snapshot only if it was open; otherwise nothing changes |
| App.DrawingApp.SetTool | script.js:179-180 | the chosen tool becomes the current tool |
| App.DrawingApp.SwapColors | script.js:316-317 | the primary and secondary colours are exchanged |
| App.ReleaseThenLeave | script.js:84-85 | a `mouseup` then a `mouseout` add at most one history entry, exactly one when an interaction was open; tool, settings and last point stay unchanged |
| App.PenStroke | script.js:82-84 | press, move and release with the pen: nothing is painted on the press, one pen segment in the settings in force at the press is painted on the move, the move point becomes the last point, and exactly one entry is captured, with redo disabled; tool and settings stay unchanged |

## Left out

- Canvas rendering is not modelled: pixels, `stroke`, `arc`, `fill`, `fillRect`, `clearRect`, `drawImage` and the round line caps and joins. These are browser calls. A step is modelled as a `Mark` record of what it asks the canvas to paint.
- The canvas ignores a `globalAlpha` value outside [0, 1]. The model takes the opacity as configured.
- Snapshot encoding and decoding are not modelled: `toDataURL`, the `Image` object and the asynchronous `onload` in `restoreState`. Snapshots are opaque, and `restoreState` is modelled as the choice of what to show (`UndoHistory.Shown`).
- `updateCanvasBackground` only fills the canvas with the background colour. It has no effect on the model's state.
- `resizeCanvas` is DOM sizing followed by `restoreState`.
- Coordinate mapping and zoom are not modelled: `getPosition`, `updateCursorPosition`, `adjustZoom`, `resetZoom` and `updateZoom`. They use floating-point division and the element's on-screen bounds. Points come into the model already in canvas coordinates, as real numbers rather than doubles.
- Spray geometry is not modelled: `Math.cos`, `Math.sin` and π. A dot keeps only its angle draw and its distance.
- DOM and UI wiring are not modelled: `initElements`, `initEventListeners`, `updateToolInfo`, the save and load dialogs, and `handleKeyboardShortcuts`. They only route user actions to the modelled operations.
- The parts of `setTool` and `swapColors` that touch the DOM are not modelled: the button highlight, the cursor CSS and the input values.
- The input listeners are not modelled. This includes the background-colour listener that repaints and calls `saveState`, and the `parseInt` of the brush size and opacity.
- `loadImage` is not modelled. It is a `FileReader` read plus an asynchronous decode, and ends in the `saveState` modelled here.
- `saveCanvas` is modelled only for the format switch and the download name. The link element and the encoding are not modelled.
- `confirm()` prompts are boolean parameters.
- UndoHistory.Shown: `restoreState` fills the background and draws the snapshot at whatever `globalAlpha` the last stroke left: the opacity, or opacity × 0.3 after a marker stroke (`script.js:230`, `script.js:266`). Nothing resets it first, so the canvas is replaced by the selected snapshot only when that alpha is 1; otherwise the result blends with what was on the canvas. The model states the selection, not the pixels.
- App.DrawingApp.ClearCanvas and App.DrawingApp.NewCanvas: both erase the canvas with `clearRect`, which ignores `globalAlpha`, then fill the background through `updateCanvasBackground` at the leftover alpha (`script.js:378-379`, `script.js:388-389`, `script.js:175-176`). Below alpha 1 the captured entry is a partly transparent background. The model takes the captured snapshot as a parameter and does not describe its pixels.
- CssColor.RgbToHex: components are exact integers. JavaScript's `parseInt` loses precision above 2^53, so for such inputs the model's hex digits can differ from the browser's.
- Tools.DotCount: the brush size is an integer. A `NaN` from `parseInt` is not represented; with `NaN` the spray loop would also run zero times.
