# niivue desktop: a verified model of the UI core

This project models the renderer-side core of the niivue desktop application, an
Electron viewer for medical images, in Dafny. The model covers five parts.

- **Image worker** (`image_worker.dfy`). The worker loads the niimath WebAssembly
  module once (messages are handled one at a time) and copies a command string and a voxel buffer into the module's
  linear memory. It then runs the native `niimath` routine and posts the processed
  bytes back. The worker is a class with the module's memory as an `array`, the
  allocation log as a `map`, the posted replies as a `seq`, and ghost traces of the
  native calls.
- **Image processor panel** (`image_processor.dfy`). The panel posts the first
  volume to the worker. When the worker replies, it writes the bytes back into that
  volume or adds a processed copy as a new layer.
- **Main window** (`app.dfy`). This part covers:
  - which sidebar panel a tab opens;
  - the file server url of a path;
  - the image list and its active entry;
  - reordering volumes with `moveImage` and with `handleMoveUp`/`handleMoveDown`;
  - the close-all handler.

  The window state is a class `App.Ui` whose methods are the React handlers. One
  `useState` hook is one field.
- **Helpers** (`utils.dfy`, `nv_utils.dfy`, `js_string.dfy`). These are `basename`,
  `removeExtension`, and the `nvUtils` wrappers that forward to the `window.NIIVUE`
  bridge only when the member they need is a function. `js_string.dfy` holds the
  JavaScript `split`, `join` and number-to-string semantics they rest on.
- **Scene-settings editor** (`json_editor.dfy`). It fills in defaults for null
  options, edits one option at a time, and picks the input widget for each option.

The external rendering library's `Niivue` object is modelled in `niivue.dfy` by its
ordered volume list only. Its operations are stated by their effect on that list.
These effects are assumptions about the library; they are listed under "Left out".

## Model

| member | source | states |
|---|---|---|
| Common.MoveAt | src/ui/App.jsx:953-960 | The `$splice` pair `[drag, 1], [hover, 0, item]`, element by element: the item lands at `hover`, the items between shift one place towards `drag`, and the rest stay. |
| Common.MovePermutes | src/ui/App.jsx:953-960 | Reordering keeps every image, with its multiplicity. |
| Common.MoveBack | src/ui/App.jsx:953-960 | Moving back from `hover` to `drag` restores the list. |
| JsString.JoinSplit | src/ui/nvUtils.js:117-119 | Joining the pieces of `s.split(sep)` with `sep` gives `s` back. |
| JsString.SplitFromOneOccurrence | src/ui/nvUtils.js:117 | With one occurrence of the separator, the split yields exactly the text before it and the text after it. |
| JsString.LastPieceOfSplit | src/ui/utils.js:9 | The last piece of a split on one character is the longest suffix without that character. |
| JsString.LastPieceOfCharSplit | src/ui/utils.js:9 | Splitting a whole string on one character, the last piece holds no such character, ends the string, and the character comes just before it unless it is the whole string. |
| JsString.NatToString | src/ui/App.jsx:677 | A port rendered in a template literal is a non-empty string of decimal digits with no leading zero. |
| JsString.ParseNatToString | src/ui/App.jsx:677 | Reading the rendered digits back gives the number. |
| Utils.BasenameIsAfterLastSlash | src/ui/utils.js:8-10 | `basename` is the part after the last "/": it holds no "/", it ends the path, and a "/" comes just before it unless it is the whole path. |
| Utils.BasenameWithoutSlash | src/ui/utils.js:8-10 | A path without "/" is its own base name. |
| Utils.BasenameOfDirectory | src/ui/utils.js:8-10 | A path ending in "/" has the empty base name. |
| Utils.BasenameExample | src/ui/utils.js:1-10 | The documented example gives "file.txt". |
| NvUtils.RemoveExtensionExample | src/ui/nvUtils.js:110-120 | The documented example with the default ".nii" gives "test". |
| NvUtils.RemoveExtensionAbsent | src/ui/nvUtils.js:116-120 | When the extension does not occur, the whole string is dropped and the result is empty. |
| NvUtils.RemoveExtensionOnce | src/ui/nvUtils.js:116-120 | When the extension occurs once, the result is the text before it. |
| NvUtils.RemoveExtensionShorter | src/ui/nvUtils.js:116-120 | The result is never longer than the input. |
| NvUtils.CallOrGet | src/ui/nvUtils.js:30-36 | The dialog and comms-info getters call the bridge member when it is a function and return the member itself otherwise. |
| NvUtils.OnGetOpt | src/ui/nvUtils.js:182-187 | `onGetOpt` returns the bridge's answer when the member is a function and `false` otherwise. |
| NvUtils.Register | src/ui/nvUtils.js:140-144 | A registration wrapper hands its callback to the bridge exactly when the call cannot throw. |
| NvUtils.CallUnguarded | src/ui/nvUtils.js:100-103 | `loadTextFile` calls the member without the guard, so it throws exactly when the member is not a function. |
| NvUtils.NoBridge | src/ui/nvUtils.js:7 | With no `window.NIIVUE`: the getters give undefined, `onGetOpt` gives false, nothing is registered, and the unguarded calls throw. |
| JsonEditor.DefaultFor | src/ui/components/JsonEditor.jsx:13-17 | The value a null option receives is never null. |
| JsonEditor.Normalized | src/ui/components/JsonEditor.jsx:9-19 | The defaults pass keeps the key set and replaces exactly the null values. |
| JsonEditor.Normalize | src/ui/components/JsonEditor.jsx:8-22 | The effect's `forEach` loop computes `Normalized` of the initial object. |
| JsonEditor.NormalizedDefaults | src/ui/components/JsonEditor.jsx:11-19 | Non-null values are kept. A null key containing "color" (case-insensitively) gets white `[1, 1, 1, 1]`. Any other null key gets "". |
| JsonEditor.NormalizeIdempotent | src/ui/components/JsonEditor.jsx:8-22 | No value is null after the pass, so a second pass changes nothing. |
| JsonEditor.Edit | src/ui/components/JsonEditor.jsx:26-29 | `{ ...obj, [key]: value }` changes the edited key only, and the stored value is the one forwarded to `onJsonChange`. |
| JsonEditor.HandleChange | src/ui/components/JsonEditor.jsx:24-32 | A text edit stores and forwards the field's text under its key and changes nothing else. |
| JsonEditor.HandleColorChange | src/ui/components/JsonEditor.jsx:34-41 | A colour edit stores and forwards the picker's array under its key and changes nothing else. |
| JsonEditor.HandleBooleanChange | src/ui/components/JsonEditor.jsx:43-50 | A switch edit stores and forwards the checked state under its key and changes nothing else. |
| JsonEditor.EditUndo | src/ui/components/JsonEditor.jsx:24-32 | Editing a key back to its old value restores the object. |
| JsonEditor.FieldKind | src/ui/components/JsonEditor.jsx:61-82 | Booleans get a switch. Other values whose key ends in "color" get a colour picker. Everything else gets a text field. |
| JsonEditor.PickerOptionsGetColorDefault | src/ui/components/JsonEditor.jsx:61-71 | A null option shown with a colour picker has received the white default. |
| JsonEditor.ColorDefaultInTextField | src/ui/components/JsonEditor.jsx:13-14 | The converse fails: "colorbarHeight" receives a colour array yet is shown in a text field. |
| Niivue.IndexOfId | src/ui/components/ImageProcessor.jsx:35 | Finding a volume by id gives the first index holding it, and None exactly when no volume has it. |
| Niivue.WithColormap | src/ui/components/ImageProcessor.jsx:80 | `setColormap` keeps the length, every id and every image. |
| Niivue.WithVolumeAtMoves | src/ui/App.jsx:962 | With unique ids, `setVolume(volumes[drag], hover)` is the same list move as the `$splice` on the image list. |
| Niivue.Viewer.AddVolume | src/ui/components/ImageProcessor.jsx:79 | `addVolume` appends and keeps the ids unique. |
| Niivue.Viewer.RemoveVolumeByIndex | src/ui/App.jsx:535 | `removeVolumeByIndex(i)` drops index `i`. |
| Niivue.Viewer.RemoveVolume | src/ui/components/ImageProcessor.jsx:76 | `removeVolume` drops the volume with that id, if there is one. |
| Niivue.Viewer.SetVolume | src/ui/App.jsx:962 | `setVolume` moves or inserts the volume at the index. |
| Niivue.Viewer.SetColormap | src/ui/components/ImageProcessor.jsx:80 | `setColormap` colours the volume with that id. |
| Niivue.Viewer.SetImage | src/ui/components/ImageProcessor.jsx:51-66 | Assigning `img` replaces that volume's image only. |
| Niivue.Viewer.ClearMeshes | src/ui/App.jsx:538 | `nv.meshes = []`. |
| ImageWorker.EncodeCommand | src/ui/imageWorker.js:34-47 | The command region holds `cmd.length + 1` bytes: the low byte of each code unit, then a NUL. |
| ImageWorker.CommandRoundTrip | src/ui/imageWorker.js:43-47 | The native routine reads back exactly the command if and only if every code unit is a non-NUL one-byte character. |
| ImageWorker.CommandBytes | src/ui/imageWorker.js:43-46 | The `for` loop fills `cmdArray` with the encoded command. |
| ImageWorker.NativeInputs | src/ui/imageWorker.js:47-75 | The native routine finds the image bytes at `imgPtr`. It finds the NUL-terminated command at `cmdPtr` whenever the two regions do not overlap. |
| ImageWorker.MemoryOutsideRegions | src/ui/imageWorker.js:47-87 | A message changes no byte of memory outside the command and image regions. |
| ImageWorker.PostedReplySize | src/ui/imageWorker.js:83-96 | A posted reply carries exactly the image region's bytes after the native routine. |
| ImageWorker.BalancedAsWritten | src/ui/imageWorker.js:33-102 | As written, the allocation log is restored if and only if the message was posted or failed before recording a region. |
| ImageWorker.LeakOnNativeFailure | src/ui/imageWorker.js:77-80 | A non-zero status leaves both regions recorded. |
| ImageWorker.BalancedReleasing | src/ui/imageWorker.js:98-102 | With the release on every exit, the allocation log is always restored. |
| ImageWorker.Worker.constructor | src/ui/imageWorker.js:3-4 | Nothing is cached; memory is 256 pages of 64 KiB. |
| ImageWorker.Worker.InitializeWasm | src/ui/imageWorker.js:7-19 | The module is fetched and instantiated only while nothing is cached, and a failed load caches nothing. |
| ImageWorker.Worker.Write | src/ui/imageWorker.js:47 | `Uint8Array.set` at a pointer writes that region and nothing else. |
| ImageWorker.Worker.HandleMessage | src/ui/imageWorker.js:21-107 | The handler as written. Its exit, cache, replies, allocation log, native-call trace and memory are the specification functions of the request and the library's answers. |
| ImageWorker.Worker.HandleMessageReleasing | src/ui/imageWorker.js:21-107 | The same handler with the release on every exit: the module is still fetched only while nothing is cached, and exit, replies, log, trace and memory are the same specification functions with release selected. |
| ImageWorker.Worker.Handle | src/ui/imageWorker.js:21-31 | Load, then check the three exports, then continue. |
| ImageWorker.Worker.Run | src/ui/imageWorker.js:33-47 | Allocate, record and write the command region. |
| ImageWorker.Worker.RunImage | src/ui/imageWorker.js:49-60 | Allocate, record and write the image region. |
| ImageWorker.Worker.RunNative | src/ui/imageWorker.js:62-80 | Call `niimath` and stop on a non-zero status. |
| ImageWorker.Worker.CallNative | src/ui/imageWorker.js:63-75 | The `niimath` call is recorded with the command and image regions as they stand, and afterwards the image region holds the routine's output while the rest of memory is unchanged. |
| ImageWorker.AtNativeCall | src/ui/imageWorker.js:62-102 | Once both regions are allocated and written, the handler ends in the native failure or in a post, and the trace, the allocation record and the memory take their final forms: released on a post, kept on a failure. |
| ImageWorker.Worker.Post | src/ui/imageWorker.js:82-102 | Post a copy of the image region, then release both regions. |
| ImageWorker.Worker.Release | src/ui/imageWorker.js:98-102 | `record_free` and `wfree` of the recorded regions, command first. |
| ImageWorker.RetryAfterFailedLoad | src/ui/imageWorker.js:7-19 | A failed load posts nothing, and the next message loads the module and posts its reply. |
| ImageWorker.LeakAfterNativeFailure | src/ui/imageWorker.js:77-80 | Status 3 leaves both regions in the allocation log. |
| ImageWorker.NoLeakWhenReleasing | src/ui/imageWorker.js:98-102 | The same message with the release on every exit leaves the log empty. |
| ImageProcessor.MetadataOf | src/ui/components/ImageProcessor.jsx:140 | The posted metadata carries the volume's id and datatype code. |
| ImageProcessor.ProcessImage | src/ui/components/ImageProcessor.jsx:132-143 | Nothing is posted without a viewer or a volume. Otherwise the first volume's metadata and bytes are posted with the command and the flag (`RequestFor` of the first volume). |
| ImageProcessor.ConsistentVolumeFillsRegion | src/ui/components/ImageProcessor.jsx:139-142 | The posted bytes fill the worker's image region exactly if and only if the volume's byte count matches its header. |
| ImageProcessor.OversizedVolumeRangeError | src/ui/components/ImageProcessor.jsx:139-142 | With the module loaded and both regions allocated and in memory, the worker takes its image range error on the posted request if and only if the volume holds more bytes than its header describes. |
| ImageProcessor.ElementTypeOf | src/ui/components/ImageProcessor.jsx:51-66 | Exactly the datatype codes 2, 4, 16 and 512 are handled. |
| ImageProcessor.ViewFor | src/ui/components/ImageProcessor.jsx:51-66 | The typed array is built if and only if the code is handled and the byte count is a multiple of the element width. Its buffer is the reply's bytes. An unhandled code gives `Unsupported`. |
| ImageProcessor.HandleReply | src/ui/components/ImageProcessor.jsx:31-89 | `onmessage` keeps the ids unique and leaves the volume list that `AfterReply` gives. |
| ImageProcessor.ReplyFindsFirstVolume | src/ui/components/ImageProcessor.jsx:34-35 | The reply to a posted first volume finds that volume. |
| ImageProcessor.WithLayerKeepsUnique | src/ui/components/ImageProcessor.jsx:73-83 | Adding a layer with a fresh id keeps the ids unique. |
| ImageProcessor.KeptPlusLayerUnique | src/ui/components/ImageProcessor.jsx:73-77 | Dropping the second volume and appending a layer with a fresh id leaves all ids distinct. |
| ImageProcessor.ColormapKeepsUnique | src/ui/components/ImageProcessor.jsx:80 | `setColormap` leaves every id in place, so distinct ids stay distinct. |
| ImageProcessor.ReplyKeepsList | src/ui/components/ImageProcessor.jsx:34-66 | The reply is NotFound exactly when no volume has its id. Only an applied reply changes the list, and the ids stay unique. |
| ImageProcessor.InPlaceReply | src/ui/components/ImageProcessor.jsx:84-86 | Without a new layer, the found volume gets the reply's bytes and nothing else changes. |
| ImageProcessor.NewLayerReply | src/ui/components/ImageProcessor.jsx:42-83 | A new layer ends the list with the fresh id and the reply's bytes. The list before it is the old list without its second volume. |
| ImageProcessor.SecondVolumeColouredRed | src/ui/components/ImageProcessor.jsx:75-80 | As written, with three or more volumes, the old third volume is coloured red and the new layer keeps its source's colormap. |
| ImageProcessor.AppliedNewLayer | src/ui/components/ImageProcessor.jsx:42-83 | An applied new-layer reply found its volume, built a view of the bytes, and the list became that volume's copy under the fresh id added as a layer. |
| ImageProcessor.NewLayerColouredRed | src/ui/components/ImageProcessor.jsx:78-80 | Colouring by the new layer's own id makes the new layer red and leaves the rest alone. |
| ImageProcessor.ColouringsAgreeOnSmallLists | src/ui/components/ImageProcessor.jsx:75-80 | With one or two volumes the two colourings agree. |
| App.TabContent | src/ui/App.jsx:185-208 | Tab 1 shows volumes, tab 2 meshes, tab 3 settings, and any other tab nothing (both directions). |
| App.Toggle | src/ui/App.jsx:218-230 | Asking for the panel already shown closes it; otherwise the asked-for panel opens. |
| App.ToggleTwice | src/ui/App.jsx:218-230 | Toggling twice reopens a shown panel and closes one that was not shown. |
| App.FirstIndexOf | src/ui/App.jsx:676-678 | Parser side of the url round trip, not source code: the first index of a character, and None exactly when the character is absent. |
| App.FirstIndexAfter | src/ui/App.jsx:676-678 | Parser side of the url round trip: in `a + c + b` with no `c` in `a`, the first `c` is right after `a`, so the parser finds each separator that the template puts in. |
| App.SplitAtFirst | src/ui/App.jsx:676-678 | Parser side of the url round trip, the inverse of the template's concatenation: splitting at the first `c` gives a prefix without `c`, and the prefix, `c` and the suffix rebuild the string. |
| App.SplitAtFirstJoined | src/ui/App.jsx:676-678 | Parser side of the url round trip: splitting the template's `a + c + b` at `c` gives back `a` and `b` when `a` has no `c`. `App.ParseMakeNiivueUrl` rests on this. |
| App.NoSlashInDigits | src/ui/App.jsx:677 | Parser side of the url round trip: a rendered port contains no "/", so the parser's split at "/" ends the port where the template did. |
| App.ParseMakeNiivueUrl | src/ui/App.jsx:676-678 | The url `makeNiivueUrl` builds gives back its path, host, port, route and query key, whenever the host has no ":", the route no "?" and the key no "=". |
| App.NiivueUrlInjective | src/ui/App.jsx:676-678 | Under those conditions, different paths or servers give different urls. |
| App.ImageList | src/ui/App.jsx:716-730 | `getImageList` gives one entry per volume, in order, with its index, id and name. Exactly the entry at the active index is active. |
| App.Toggled | src/ui/App.jsx:683-692 | `toggleActive`'s `map` keeps the length. |
| App.LastIndexNamed | src/ui/App.jsx:683-688 | The last entry with the name, and None exactly when no entry has it. |
| App.ToggleIsExclusive | src/ui/App.jsx:683-692 | After a toggle, an entry is active if and only if the value is true and it has the name. Every other field is kept. |
| App.ToggleOnSelectsOne | src/ui/App.jsx:680-696 | With distinct names, switching an entry on leaves exactly that entry active, and it becomes the active index. |
| App.TrackedFollowsImage | src/ui/App.jsx:963-968 | The corrected rule's index names the same image after the move. |
| App.SwapRuleAdjacent | src/ui/App.jsx:963-968 | For a move to a neighbouring position, the swap rule as written agrees with the corrected rule. |
| App.SwapRuleLosesActive | src/ui/App.jsx:963-968 | For a longer move it does not: `moveImage(0, 2)` on three images with index 1 active leaves the index on the wrong image. |
| App.MovedUpSwaps | src/ui/App.jsx:851-864 | Moving up exchanges the volume with the one above and leaves the rest in place. |
| App.MoveDownThenUp | src/ui/App.jsx:851-879 | Moving a volume down and then up restores the list. |
| App.MoveAtEdges | src/ui/App.jsx:851-879 | The top volume cannot move up and the bottom one cannot move down. |
| App.RemoveVolumesDownward | src/ui/App.jsx:529-536 | Removing from the last index down empties the viewer's volume list. |
| App.Ui.constructor | src/ui/App.jsx:157-183 | The initial `useState` values. |
| App.Ui.HandleChange | src/ui/App.jsx:185-208 | `handleChange` selects the tab and shows its panel. |
| App.Ui.HandleClickTab | src/ui/App.jsx:210-216 | Clicking the selected tab deselects it and closes the panel; any other click changes nothing. |
| App.Ui.ToggleSidebarContent | src/ui/App.jsx:218-230 | The panel follows `Toggle`, and the active type follows the panel. |
| App.Ui.ToggleActive | src/ui/App.jsx:680-696 | The entries become `Toggled`. The last entry with the name becomes the active image, with type volume. With no such entry, both are kept. |
| App.Ui.MoveImage | src/ui/App.jsx:951-971 | The image list and the viewer's volumes both make the same move. The active index follows the swap rule as written, or the corrected rule. |
| App.Ui.HandleMoveUp | src/ui/App.jsx:851-864 | At the top nothing changes. Otherwise the volume moves up, the list is rebuilt marking the old active index, and the first image becomes active. |
| App.Ui.HandleMoveDown | src/ui/App.jsx:866-879 | The same for moving down, at the bottom. |
| App.Ui.CloseAllVolumes | src/ui/App.jsx:528-558 | Every volume and mesh is gone and the volume-related state is back to its initial values. |
| App.Ui.ResetVolumeState | src/ui/App.jsx:540-555 | The resets of the close-all handler. |
| App.Ui.ResetSelection | src/ui/App.jsx:540-555 | The image, mesh and layer lists are emptied, every active index goes back to 0 and no image type is active. |
| App.Ui.ResetControls | src/ui/App.jsx:547-554 | Window and calibration bounds go to 0, opacity to 1, and both dialogs close. |

## Left out

- **The rendering library.** Its code is not part of this model. The model assumes these effects on the volume list:
  - `addVolume` appends;
  - `removeVolume` removes the volume with the given id;
  - `removeVolumeByIndex` removes one index;
  - `setVolume` moves a listed volume (found by id) to the index, inserts an unlisted one, and does nothing for an index past the end;
  - `setColormap` colours the first volume with that id;
  - every volume has a unique id.
- `drawScene`, `updateGLVolume`, `calMinMax` and `trustCalMinMax`: rendering and intensity statistics are not modelled.
- **Fetch and instantiation of the WebAssembly module, `walloc` and `niimath`.** Their answers for one message are a parameter (`ImageWorker.Native`). The model assumes `niimath` writes only the image region, with `output` its result.
- Growth of the linear memory beyond its initial 256 pages (up to its 2048-page maximum) is not modelled: the memory length is fixed.
- **Console logging and the worker's outer `catch`.** They become the `Exit` value. The range errors are modelled as the exits that the `catch` swallows.
- **`ImageProcessor.HandleReply`.**
  - `uuidv4()` is the parameter `freshId`, and its freshness is a precondition.
  - The `overlay` checkbox seen by the reply handler is a parameter.
  - The source passes `overlay` to `processImage` as `isNewLayer`; the model keeps them separate.
  - `clone()` is a copy of the volume value; the `processedImage.id` it sets is the only difference.
  - The typed-array element values are not modelled, only the bytes and element type.
- **`ImageProcessor.MetadataOf`.** `getImageMetadata()` is assumed to carry the volume's id and its header fields, with `bpv` as bits per voxel over 8.
- `App.Ui.ToggleActive`: the source also sets `active` on the shared entry objects in place, so the old list aliases the new one; the model treats entries as values.
- `App.Ui.HandleMoveUp` and `App.Ui.HandleMoveDown`: the rebuilt list marks the old active index while the active index becomes 0. The model states exactly this behaviour, without correcting it. Both also require `index` to be a valid index of the viewer's volumes. In the source, an out-of-range index that passes the edge guard hands `nv.volumes[index]` (undefined) to the library's `setVolume`, whose code is not part of this model.
- `App.Ui.MoveImage`: requires `drag` and `hover` to be valid indices of both lists. Nothing in the source calls `moveImage`, `handleMoveUp` or `handleMoveDown`: `FileItem` receives them as props and only spreads them into its style. The requires names the indices that any caller must supply.
- `App.Ui.CloseAllVolumes`: `setColorPickerColor` is left out because the colour picker state is not part of the model. `nv.drawScene()` is left out as rendering.
- `App.MakeNiivueUrl`: the path is put in the url without encoding, as in the source. The round trip holds only under the stated conditions on host, route and query key.
- App.jsx passes a volume object to `removeVolume` in its other handlers, and ImageProcessor.jsx passes an id; only the id form is modelled.
- **The other `nvUtils` wrappers.**
  - They share `Register` (the `on...` callbacks) and `CallOrGet` (the dialogs and `getCommsInfo`).
  - `saveTextFile` is modelled by `CallUnguarded` like `loadTextFile`.
  - `webGL2Supported` and `onSetViewSelected` are not part of this model.
- **JavaScript strings.** Outside the worker's command (a sequence of UTF-16 code units, `seq<uint16>`), strings are Dafny `string`s, whose elements are Unicode scalar values, not UTF-16 code units. `toLowerCase` is modelled on ASCII letters only.
- `JsString.Split` and `NvUtils.RemoveExtension`: a character outside the Basic Multilingual Plane is one element here and two code units in JavaScript. So the empty-separator split and every length differ from the source on such characters: `removeExtension("😀", "")` gives a lone high surrogate in JavaScript and "" here. Lone surrogates cannot be represented at all.
- `ImageWorker.Worker.InitializeWasm` and `ImageWorker.Worker.HandleMessage`: messages are modelled as handled one at a time, each to completion. In the source the listener is `async`. A second message that arrives while the first load is still awaiting `fetch` or `WebAssembly.instantiate` also finds no cached instance. It fetches and instantiates a second instance over the same shared memory, and the later one overwrites `wasmInstance`. The model's "fetched once" (`fetches` grows only while nothing is cached) holds only for messages handled one after another.
- **`JsonEditor.Normalize`.** The default-filling effect is the loop; React's re-render on `setJsonObject` is not modelled.

## Findings

| source | as written | input that shows it | evidently intended | confidence | as-written member | corrected member |
|---|---|---|---|---|---|---|
| src/ui/imageWorker.js:36-80 | The early `return`s after a failed image allocation, a failed native call or a range error skip `record_free`/`wfree`, so recorded regions stay allocated. | A message for which `niimath` returns 3 after both regions were allocated at 1024 and 4096. | Release every recorded region on every exit. | not executed | ImageWorker.LeakAfterNativeFailure | ImageWorker.NoLeakWhenReleasing |
| src/ui/components/ImageProcessor.jsx:80 | The red colormap goes to `nv.volumes[1]`, which is the new layer only while at most two volumes are loaded. | Three volumes loaded and a new-layer reply with the overlay checked: the old third volume turns red and the new layer does not. | Colour the new layer (`processedImage.id`). | not executed | ImageProcessor.SecondVolumeColouredRed | ImageProcessor.NewLayerColouredRed |
| src/ui/App.jsx:964-968 | The active index swaps the drag and hover positions, which follows the active image only for moves by one place. | Three images with `activeImage == 1`; the direct call `moveImage(0, 2)`: the index stays 1, which now names the third of the old images (the old `images[2]`). | The active index follows the active image to where the move puts it. | not executed | App.SwapRuleLosesActive | App.TrackedFollowsImage |
