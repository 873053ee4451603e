/** Media devices as reported by device enumeration, and the filter that keeps
    the cameras among them. */
module Devices {

  /** One enumerated media device: its `kind`, human-readable `label` (here `deviceLabel`, as `label` is a Dafny keyword) and `deviceId`. */
  datatype Device = Device(kind: string, deviceLabel: string, deviceId: string)

  const VideoInput: string := "videoinput"

  predicate IsVideoInput(d: Device) {
    d.kind == VideoInput
  }

  /** The devices whose kind is `"videoinput"`, in enumeration order. */
  function VideoInputs(devices: seq<Device>): (r: seq<Device>)
    ensures |r| <= |devices|
    ensures forall k :: 0 <= k < |r| ==> IsVideoInput(r[k])
  {
    if devices == [] then []
    else if IsVideoInput(devices[0]) then [devices[0]] + VideoInputs(devices[1..])
    else VideoInputs(devices[1..])
  }

  /** A device is listed exactly when it is in the enumeration and is a camera. */
  lemma {:induction false} VideoInputsMembers(devices: seq<Device>, d: Device)
    ensures d in VideoInputs(devices) <==> d in devices && IsVideoInput(d)
  {
    if devices != [] {
      VideoInputsMembers(devices[1..], d);
      assert devices == [devices[0]] + devices[1..];
    }
  }

  /** Appending one device to the enumeration appends it to the cameras exactly
      when it is a camera. */
  lemma {:induction false} VideoInputsSnoc(devices: seq<Device>, d: Device)
    ensures VideoInputs(devices + [d]) == VideoInputs(devices) + (if IsVideoInput(d) then [d] else [])
  {
    if devices == [] {
      assert devices + [d] == [d];
    } else {
      assert (devices + [d])[0] == devices[0];
      assert (devices + [d])[1..] == devices[1..] + [d];
      VideoInputsSnoc(devices[1..], d);
    }
  }

  /** The indices of the cameras in an enumeration, in increasing order; an
      index reference for `VideoInputs` that is defined without it. */
  ghost function VideoPositions(devices: seq<Device>): (p: seq<nat>)
    ensures forall k :: 0 <= k < |p| ==> p[k] < |devices| && IsVideoInput(devices[p[k]])
    ensures forall k, l :: 0 <= k < l < |p| ==> p[k] < p[l]
    ensures forall j :: 0 <= j < |devices| && IsVideoInput(devices[j]) ==> j in p
  {
    if devices == [] then []
    else
      var init := devices[..|devices| - 1];
      assert forall j :: 0 <= j < |init| ==> init[j] == devices[j];
      VideoPositions(init) + (if IsVideoInput(devices[|devices| - 1]) then [|devices| - 1] else [])
  }

  /** Filtering keeps order: the k-th camera is the device at the k-th camera
      index of the enumeration. With the contract of `VideoPositions` this says
      that `VideoInputs` holds exactly the cameras, each once, in their
      original order. */
  lemma {:induction false} VideoInputsInOrder(devices: seq<Device>)
    ensures |VideoInputs(devices)| == |VideoPositions(devices)|
    ensures forall k :: 0 <= k < |VideoPositions(devices)| ==>
              VideoInputs(devices)[k] == devices[VideoPositions(devices)[k]]
  {
    if devices != [] {
      var n := |devices| - 1;
      var init := devices[..n];
      var last := devices[n];
      assert devices == init + [last];
      VideoInputsSnoc(init, last);
      VideoInputsInOrder(init);
      var r, p := VideoInputs(devices), VideoPositions(devices);
      var r0, p0 := VideoInputs(init), VideoPositions(init);
      assert p == p0 + (if IsVideoInput(last) then [n] else []);
      assert r == r0 + (if IsVideoInput(last) then [last] else []);
      forall k | 0 <= k < |p|
        ensures r[k] == devices[p[k]]
      {
        if k < |p0| {
          assert r[k] == r0[k] == init[p0[k]];
          assert p[k] == p0[k] < n;
        }
      }
    }
  }

  /** The `forEach`/`push` loop that collects the cameras of an enumeration. */
  method CollectVideoInputs(mediaDevices: seq<Device>) returns (list: seq<Device>)
    ensures list == VideoInputs(mediaDevices)
  {
    list := [];
    for i := 0 to |mediaDevices|
      invariant list == VideoInputs(mediaDevices[..i])
    {
      var mediaDevice := mediaDevices[i];
      if IsVideoInput(mediaDevice) {
        list := list + [mediaDevice];
      }
      assert mediaDevices[..i + 1] == mediaDevices[..i] + [mediaDevice];
      VideoInputsSnoc(mediaDevices[..i], mediaDevice);
    }
    assert mediaDevices[..|mediaDevices|] == mediaDevices;
  }
}
