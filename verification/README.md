# Webcam camera selection, modelled in Dafny

This project models the camera-selection logic of the `Webcam` class of a
browser webcam helper. The class keeps three pieces of selection state:

- `facingMode`: which way the camera should face, `"user"` (front) or
  `"enviroment"` (back, spelt that way in the class).
- `webcamList`: the cameras found by the last device enumeration.
- `selectedDeviceId`: the id of the chosen camera; `""` means none is chosen.

Four operations act on that record:

- `getVideoInputs` keeps the `"videoinput"` entries of an enumeration. A lone
  camera forces `"user"` mode.
- `getMediaConstraints` builds the `getUserMedia` constraint object.
- `selectCamera` picks the first camera whose lower-cased label contains
  "front" (in `"user"` mode) or "back" (in `"enviroment"` mode).
- `flip` toggles the mode and selects again.

The model treats each operation as a pure function from state to state.

Files:

- `options.dfy` (`Options`): the optional value used for absent properties.
- `text.dfy` (`Text`): ASCII lower-casing and `includes`.
- `devices.dfy` (`Devices`): the device record, the camera filter, its loop
  form, and the order and count lemmas.
- `constraints.dfy` (`Constraints`): the constraint object.
- `webcam.dfy` (`Webcam`): the state record, its transitions and the lemmas
  that relate them.

The environment-facing literal is kept as the class writes it: `"enviroment"`.
A state holding the standard spelling `"environment"` therefore never selects
a camera (`UnknownModeKeepsSelection`), and `flip` sends it to `"user"`.

The JavaScript device property `label` is named `deviceLabel` here, because
`label` is a reserved word in Dafny.

Two facts about the selection state:

- The facing mode is any string; only "user" and "enviroment" are
  recognised (`UnknownModeKeepsSelection`).
- Enumerating again never clears the selection, so the selected id need not
  be in the current list (`StaleSelectionAfterEnumeration`).

## Model

| member | source | states |
|---|---|---|
| Text.LowerChar | src/webcam.js:98-100 | lower-casing maps A-Z to the letter at the same alphabet position in a-z, leaves every other character alone, and never yields an upper-case ASCII letter |
| Text.Lower | src/webcam.js:98-100 | `toLowerCase` of a label keeps its length and lower-cases each character in place |
| Text.LowerIdempotent | src/webcam.js:98-100 | lower-casing a label twice gives the same text as once |
| Text.Includes | src/webcam.js:98-100 | `includes` is true exactly when the needle occurs at some position of the lower-cased label |
| Devices.IsVideoInput | src/webcam.js:45 | a device is a camera exactly when its kind is the string "videoinput" |
| Devices.VideoInputs | src/webcam.js:44-48 | the filtered list holds only devices of kind "videoinput" and is no longer than the enumeration |
| Devices.VideoInputsMembers | src/webcam.js:44-48 | a device is in the filtered list exactly when it is in the enumeration and has kind "videoinput" |
| Devices.VideoInputsSnoc | src/webcam.js:44-48 | each further enumeration entry is appended to the camera list exactly when its kind is "videoinput" |
| Devices.VideoPositions | src/webcam.js:44-48 | the camera indices of an enumeration are strictly increasing and include every index whose entry is a camera |
| Devices.VideoInputsInOrder | src/webcam.js:44-48 | the k-th listed camera is the entry at the k-th camera index, so order is kept and nothing is dropped or repeated |
| Devices.CollectVideoInputs | src/webcam.js:43-48 | the `forEach`/`push` loop builds exactly the filtered camera list |
| Webcam.Create | src/webcam.js:4-19 | a new webcam knows no cameras and has nothing selected; the facing mode is the argument, or "user" when it is undefined |
| Webcam.SetFacingMode | src/webcam.js:25-27 | the setter changes the facing mode and leaves the list and the selection as they were |
| Webcam.GetVideoInputs | src/webcam.js:42-52 | the stored list becomes the filtered enumeration, which is also the returned value; exactly one camera forces "user", otherwise the mode stays; the selection is never touched |
| Webcam.StaleSelectionAfterEnumeration | src/webcam.js:42-52 | when the new enumeration lists no camera with the selected id, the selection survives it and no camera in the new list has that id |
| Webcam.WebcamCount | src/webcam.js:33-35 | the camera count is the length of the stored camera list |
| Webcam.WebcamCountAfterEnumeration | src/webcam.js:33-35 | after an enumeration, `webcamCount` is the number of camera indices of it, i.e. of entries of kind "videoinput" |
| Webcam.GetMediaConstraints | src/webcam.js:56-91 | with no selection the video part names the facing mode and no device id; with a selection it names that exact id and no facing mode; width 1024/1280/1920 and height 576/720/1080, each min <= ideal <= max; audio is off |
| Webcam.ConstraintsRoundTrip | src/webcam.js:59-64 | the requested device id read back from the constraints is the selected id; exactly one of facing mode and device id is present, and a present facing mode is the state's |
| Webcam.ConstraintsIgnoreCameraList | src/webcam.js:56-91 | the constraints depend only on the facing mode and the selection, not on the camera list |
| Webcam.Matches | src/webcam.js:96-101 | a camera is accepted in "user" mode when its lower-cased label contains "front", in "enviroment" mode when it contains "back", and in no other mode |
| Webcam.FirstMatch | src/webcam.js:95-105 | the index found is a camera that the rule accepts with no accepted camera before it; none is found only when the rule accepts no camera |
| Webcam.FirstMatchUnique | src/webcam.js:95-105 | two first matches in the same list are the same index |
| Webcam.SelectCamera | src/webcam.js:94-106 | the selection becomes the id of the first accepted camera in list order; with no accepted camera the state is unchanged; mode and list are never changed |
| Webcam.SelectCameraLoop | src/webcam.js:95-105 | the loop that stops at the first accepted camera ends in the state that the selection rule describes |
| Webcam.SelectCameraIdempotent | src/webcam.js:94-106 | selecting twice gives the same state as selecting once |
| Webcam.UnknownModeKeepsSelection | src/webcam.js:96-101 | a facing mode other than "user" and "enviroment" selects nothing and keeps the previous selection |
| Webcam.Toggle | src/webcam.js:110 | the new mode is always "user" or "enviroment", and it is "enviroment" exactly when the old mode was "user" |
| Webcam.ToggleInvolution | src/webcam.js:110 | toggling twice restores the mode exactly when the mode was "user" or "enviroment" |
| Webcam.Flip | src/webcam.js:109-113 | flip toggles the mode and keeps the list; the selection becomes the first camera accepted for the new mode, or stays when none is |
| Webcam.FlipTwice | src/webcam.js:109-113 | flipping twice from a known mode restores mode and list; when the list has a camera for the starting mode, it ends on the camera a fresh selection in that mode picks |
| Webcam.FlipTwiceCanMoveSelection | src/webcam.js:109-113 | without a camera for the starting mode, flipping twice can change the selection: from "user" with only a back camera it ends on the back camera |
| Webcam.SelectionAfterEnumeration | src/webcam.js:128-130 | after enumerating and then selecting, the chosen id is that of the first enumeration entry that is a camera accepted for the resulting mode |
| Webcam.NoAcceptedCameraAfterEnumeration | src/webcam.js:128-130 | when no camera of the enumeration is accepted for the resulting mode, enumerating and then selecting keeps the old selection |
| Webcam.FrontAndBackExample | src/webcam.js:94-113 | with cameras labelled "Back" and "FRONT", "user" mode selects the front one and `flip` moves to "enviroment" and the back one |

## Left out

- `start`, `info` and `stream`: promise chains over the browser's
  `getUserMedia` and `enumerateDevices`, with no logic beyond passing
  rejections on. Their synchronous core is covered by
  `SelectionAfterEnumeration` and `NoAcceptedCameraAfterEnumeration`: `info` hands the enumeration to
  `getVideoInputs`, then `start` calls `selectCamera`.
- `stop`: it only stops the tracks of external media streams. The list of
  streams (`_streamList`) is not part of the state.
- `snap`, `getImage`, `render`: canvas drawing, blobs, object URLs, anchor
  elements, sound playback and a 3D renderer from a file that is not part of
  this model.
- Constructor sizing from the window dimensions and all `style.transform`
  mirroring: side effects on DOM elements. The sizing can also throw: line 11
  on a null video element, line 12 on the undeclared `video` when the window
  height is 0. `Create` is total and models neither failure.
- The canvas and snap-sound element references the constructor stores: only
  `snap` uses them.
- The `webcamList` and `selectedDeviceId` getters: they are the record's
  fields.
- Aliasing of the camera list: the `webcamList` getter, `getVideoInputs` and
  `info` hand out the live array the object stores, so a caller that changes
  it changes `webcamCount` and what `selectCamera` scans. The model has value
  semantics and cannot express such changes.
- Text.Lower: lower-cases ASCII A-Z only, not the full Unicode mapping of
  `toLowerCase`.
- Loose equality (`==`) on values that are not strings: facing mode, label,
  kind and device id are always strings in the model.
