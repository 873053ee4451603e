/** The camera-selection state of the `Webcam` class: which way the camera
    should face, the cameras found by the last enumeration, and the id of the
    selected camera (`""` when none is selected). Every operation is a pure
    transition from one state to the next. */
module Webcam {
  import opened Options
  import opened Text
  import opened Devices
  import opened Constraints

  const User: string := "user"
  /** The environment-facing mode, spelt as the class spells it; the
      standard's `"environment"` is a different value here. */
  const Enviroment: string := "enviroment"

  datatype State = State(facingMode: string, webcamList: seq<Device>, selectedDeviceId: string)

  /** The constructor: `facingMode` defaults to `"user"` when left undefined;
      no camera is known and none is selected. */
  function Create(facingMode: Option<string>): (s: State)
    ensures s.webcamList == [] && s.selectedDeviceId == ""
    ensures facingMode.Some? ==> s.facingMode == facingMode.value
    ensures facingMode.None? ==> s.facingMode == User
  {
    State(facingMode.GetOr(User), [], "")
  }

  /** The `facingMode` setter. */
  function SetFacingMode(s: State, value: string): (t: State)
    ensures t.facingMode == value
    ensures t.webcamList == s.webcamList && t.selectedDeviceId == s.selectedDeviceId
  {
    s.(facingMode := value)
  }

  /** The `webcamCount` getter. */
  function WebcamCount(s: State): nat {
    |s.webcamList|
  }

  /** `getVideoInputs`: the camera list becomes the `"videoinput"` entries of
      the enumeration (it is also what the call returns); a lone camera forces
      the facing mode to `"user"`; the selection is left alone. */
  function GetVideoInputs(s: State, mediaDevices: seq<Device>): (t: State)
    ensures t.webcamList == VideoInputs(mediaDevices)
    ensures |t.webcamList| == 1 ==> t.facingMode == User
    ensures |t.webcamList| != 1 ==> t.facingMode == s.facingMode
    ensures t.selectedDeviceId == s.selectedDeviceId
  {
    var list := VideoInputs(mediaDevices);
    State(if |list| == 1 then User else s.facingMode, list, s.selectedDeviceId)
  }

  /** After an enumeration the camera count is the number of `"videoinput"`
      entries in it, that is, the number of camera indices. */
  lemma WebcamCountAfterEnumeration(s: State, mediaDevices: seq<Device>)
    ensures WebcamCount(GetVideoInputs(s, mediaDevices)) == |VideoPositions(mediaDevices)|
  {
    VideoInputsInOrder(mediaDevices);
  }

  /** Enumeration does not clear the selection: an id chosen from an earlier
      list survives a new enumeration that lists no camera with that id, so
      the selected id need not belong to the current list. */
  lemma StaleSelectionAfterEnumeration(s: State, mediaDevices: seq<Device>)
    requires forall k :: 0 <= k < |mediaDevices| && IsVideoInput(mediaDevices[k]) ==>
               mediaDevices[k].deviceId != s.selectedDeviceId
    ensures GetVideoInputs(s, mediaDevices).selectedDeviceId == s.selectedDeviceId
    ensures forall k :: 0 <= k < |GetVideoInputs(s, mediaDevices).webcamList| ==>
              GetVideoInputs(s, mediaDevices).webcamList[k].deviceId != s.selectedDeviceId
  {
    var list := GetVideoInputs(s, mediaDevices).webcamList;
    forall k | 0 <= k < |list|
      ensures list[k].deviceId != s.selectedDeviceId
    {
      VideoInputsMembers(mediaDevices, list[k]);
    }
  }

  /** `getMediaConstraints`: a facing-mode request while nothing is selected,
      an exact device-id request otherwise; fixed size ranges; no audio. */
  function GetMediaConstraints(s: State): (c: MediaConstraints)
    ensures s.selectedDeviceId == "" ==> c.video.facingMode == Some(s.facingMode) && c.video.deviceId.None?
    ensures s.selectedDeviceId != "" ==> c.video.facingMode.None? && c.video.deviceId == Some(Exact(s.selectedDeviceId))
    ensures c.video.width == Range(1024, 1280, 1920) && c.video.height == Range(576, 720, 1080)
    ensures c.video.width.Ordered() && c.video.height.Ordered()
    ensures !c.audio
  {
    var video :=
      if s.selectedDeviceId == "" then VideoConstraints(Some(s.facingMode), None, Width, Height)
      else VideoConstraints(None, Some(Exact(s.selectedDeviceId)), Width, Height);
    MediaConstraints(video, false)
  }

  /** The constraints carry the whole selection: the requested device id reads
      back as the selected id, exactly one of facing mode and device id is
      present, and the facing mode is the state's whenever it is present. */
  lemma ConstraintsRoundTrip(s: State)
    ensures RequestedDeviceId(GetMediaConstraints(s)) == s.selectedDeviceId
    ensures GetMediaConstraints(s).video.facingMode.Some? != GetMediaConstraints(s).video.deviceId.Some?
    ensures GetMediaConstraints(s).video.facingMode.Some? ==> GetMediaConstraints(s).video.facingMode.value == s.facingMode
  {
  }

  /** The constraints depend on nothing but the facing mode and the selection. */
  lemma ConstraintsIgnoreCameraList(s: State, t: State)
    requires s.facingMode == t.facingMode && s.selectedDeviceId == t.selectedDeviceId
    ensures GetMediaConstraints(s) == GetMediaConstraints(t)
  {
  }

  /** The camera-choice rule: in `"user"` mode a label containing "front", in
      `"enviroment"` mode a label containing "back", compared lower-case. */
  predicate Matches(facingMode: string, webcam: Device) {
    || (facingMode == User && Includes(Lower(webcam.deviceLabel), "front"))
    || (facingMode == Enviroment && Includes(Lower(webcam.deviceLabel), "back"))
  }

  predicate HasMatch(facingMode: string, list: seq<Device>) {
    exists k :: 0 <= k < |list| && Matches(facingMode, list[k])
  }

  /** `i` is the first camera in `list` that the rule accepts. */
  predicate IsFirstMatch(facingMode: string, list: seq<Device>, i: int) {
    && 0 <= i < |list|
    && Matches(facingMode, list[i])
    && forall j :: 0 <= j < i ==> !Matches(facingMode, list[j])
  }

  /** The index of the first accepted camera, if any. */
  function FirstMatch(facingMode: string, list: seq<Device>): (r: Option<nat>)
    ensures r.Some? ==> IsFirstMatch(facingMode, list, r.value)
    ensures r.None? ==> !HasMatch(facingMode, list)
  {
    if list == [] then None
    else if Matches(facingMode, list[0]) then Some(0)
    else
      match FirstMatch(facingMode, list[1..])
      case None => None
      case Some(i) => Some(i + 1)
  }

  /** There is at most one first match. */
  lemma FirstMatchUnique(facingMode: string, list: seq<Device>, i: int, j: int)
    requires IsFirstMatch(facingMode, list, i) && IsFirstMatch(facingMode, list, j)
    ensures i == j
  {
  }

  /** `selectCamera`: the first camera in list order that the rule accepts
      becomes the selection; when none is accepted (in particular when the
      facing mode is neither `"user"` nor `"enviroment"`) the previous selection
      stays. Mode and list are untouched. */
  function SelectCamera(s: State): (t: State)
    ensures t.facingMode == s.facingMode && t.webcamList == s.webcamList
    ensures forall i :: IsFirstMatch(s.facingMode, s.webcamList, i) ==>
              t.selectedDeviceId == s.webcamList[i].deviceId
    ensures !HasMatch(s.facingMode, s.webcamList) ==> t == s
  {
    match FirstMatch(s.facingMode, s.webcamList)
    case None => s
    case Some(i) => s.(selectedDeviceId := s.webcamList[i].deviceId)
  }

  /** The `for ... of` loop with `break` that `selectCamera` runs. */
  method SelectCameraLoop(s: State) returns (t: State)
    ensures t == SelectCamera(s)
  {
    t := s;
    for i := 0 to |s.webcamList|
      invariant t == s
      invariant forall j :: 0 <= j < i ==> !Matches(s.facingMode, s.webcamList[j])
    {
      var webcam := s.webcamList[i];
      if Matches(s.facingMode, webcam) {
        t := s.(selectedDeviceId := webcam.deviceId);
        assert IsFirstMatch(s.facingMode, s.webcamList, i);
        return;
      }
    }
  }

  /** Running the selection again changes nothing. */
  lemma SelectCameraIdempotent(s: State)
    ensures SelectCamera(SelectCamera(s)) == SelectCamera(s)
  {
  }

  /** With a facing mode other than the two the rule knows (including the
      standard spelling `"environment"`), selection keeps the state as it is. */
  lemma UnknownModeKeepsSelection(s: State)
    requires s.facingMode != User && s.facingMode != Enviroment
    ensures SelectCamera(s) == s
  {
  }

  /** The facing-mode toggle of `flip`: `"user"` becomes `"enviroment"`, any
      other value becomes `"user"`. */
  function Toggle(facingMode: string): (r: string)
    ensures r == User || r == Enviroment
    ensures r == Enviroment <==> facingMode == User
  {
    if facingMode == User then Enviroment else User
  }

  /** Toggling twice restores the mode exactly when it was one of the two
      known modes. */
  lemma ToggleInvolution(facingMode: string)
    ensures Toggle(Toggle(facingMode)) == facingMode <==> facingMode == User || facingMode == Enviroment
  {
  }

  /** `flip`: toggle the facing mode, then select again for the new mode. */
  function Flip(s: State): (t: State)
    ensures t.facingMode == Toggle(s.facingMode) && t.webcamList == s.webcamList
    ensures forall i :: IsFirstMatch(t.facingMode, s.webcamList, i) ==>
              t.selectedDeviceId == s.webcamList[i].deviceId
    ensures !HasMatch(t.facingMode, s.webcamList) ==> t.selectedDeviceId == s.selectedDeviceId
  {
    SelectCamera(s.(facingMode := Toggle(s.facingMode)))
  }

  /** Flipping twice from a known mode restores the mode and the list; when
      the list has a camera for the starting mode it also lands on the camera
      that a fresh selection in that mode picks. */
  lemma FlipTwice(s: State)
    requires s.facingMode == User || s.facingMode == Enviroment
    ensures Flip(Flip(s)).facingMode == s.facingMode
    ensures Flip(Flip(s)).webcamList == s.webcamList
    ensures HasMatch(s.facingMode, s.webcamList) ==> Flip(Flip(s)) == SelectCamera(s)
  {
  }

  /** Without a camera for the starting mode, flipping twice need not restore
      the selection: the intermediate flip may select a camera for the other
      direction, and the second flip keeps it. */
  lemma FlipTwiceCanMoveSelection()
    ensures var s := State(User, [Device(VideoInput, "back", "b")], "x");
            && !HasMatch(User, s.webcamList)
            && Flip(Flip(s)) == State(User, s.webcamList, "b")
  {
  }

  /** Entry `j` of an enumeration is the first camera in it that the rule
      accepts for `facingMode`. */
  predicate IsFirstAcceptedCamera(facingMode: string, mediaDevices: seq<Device>, j: int) {
    && 0 <= j < |mediaDevices|
    && IsVideoInput(mediaDevices[j])
    && Matches(facingMode, mediaDevices[j])
    && forall j' :: 0 <= j' < j && IsVideoInput(mediaDevices[j']) ==> !Matches(facingMode, mediaDevices[j'])
  }

  /** The synchronous part of `start`: once device enumeration delivers a list,
      the cameras are collected and a camera is selected. The selection is the
      first entry of the enumeration itself that is a camera and that the rule
      accepts for the post-enumeration mode. */
  lemma SelectionAfterEnumeration(s: State, mediaDevices: seq<Device>, j: int)
    requires IsFirstAcceptedCamera(GetVideoInputs(s, mediaDevices).facingMode, mediaDevices, j)
    ensures SelectCamera(GetVideoInputs(s, mediaDevices)).selectedDeviceId == mediaDevices[j].deviceId
  {
    var e := GetVideoInputs(s, mediaDevices);
    var mode := e.facingMode;
    var list := e.webcamList;
    var p := VideoPositions(mediaDevices);
    VideoInputsInOrder(mediaDevices);
    var k :| 0 <= k < |p| && p[k] == j;
    assert list[k] == mediaDevices[j];
    forall k' | 0 <= k' < k
      ensures !Matches(mode, list[k'])
    {
      assert p[k'] < j;
      assert list[k'] == mediaDevices[p[k']];
    }
    assert IsFirstMatch(mode, list, k);
  }

  /** When the enumeration holds no camera that the rule accepts, collecting
      and selecting keeps the previous selection. */
  lemma NoAcceptedCameraAfterEnumeration(s: State, mediaDevices: seq<Device>)
    requires forall j :: 0 <= j < |mediaDevices| && IsVideoInput(mediaDevices[j]) ==>
               !Matches(GetVideoInputs(s, mediaDevices).facingMode, mediaDevices[j])
    ensures SelectCamera(GetVideoInputs(s, mediaDevices)).selectedDeviceId == s.selectedDeviceId
  {
    var e := GetVideoInputs(s, mediaDevices);
    var list := e.webcamList;
    var p := VideoPositions(mediaDevices);
    VideoInputsInOrder(mediaDevices);
    forall k | 0 <= k < |list|
      ensures !Matches(e.facingMode, list[k])
    {
      assert list[k] == mediaDevices[p[k]];
    }
  }

  /** A phone with a back and a front camera, labelled in mixed case: in
      `"user"` mode the front camera is chosen, and `flip` moves to the back
      one. */
  lemma FrontAndBackExample()
    ensures var back := Device(VideoInput, "Back", "b");
            var front := Device(VideoInput, "FRONT", "f");
            var s := State(User, [back, front], "");
            && SelectCamera(s).selectedDeviceId == "f"
            && Flip(SelectCamera(s)) == State(Enviroment, [back, front], "b")
  {
    var back := Device(VideoInput, "Back", "b");
    var front := Device(VideoInput, "FRONT", "f");
    assert Lower("Back") == "back";
    assert Lower("FRONT") == "front";
    assert OccursAt("back", "back", 0);
    assert OccursAt("front", "front", 0);
    assert IsFirstMatch(User, [back, front], 1);
    assert IsFirstMatch(Enviroment, [back, front], 0);
  }
}
