/** The JNI layer of the Mac backend (mac/AudioJNI.cpp): two tables of 16
    device slots, ids handed to Java, and the data transfer between Java
    byte arrays and the native rings. */
module AudioJni {
  import opened Bytes
  import opened PlaybackRingBuffer
  import opened RecordingRingBuffer

  /** `MAXDEVICES`. */
  const MAX_DEVICES: int := 16

  /** `recordingDevices[]` or `playbackDevices[]`: a slot is `None` where
      the C array holds `NULL`. */
  class DeviceTable<T> {
    var slots: array<Option<T>>

    ghost predicate Valid()
      reads this
    {
      slots.Length == MAX_DEVICES
    }

    /** The global arrays start zeroed: every slot is empty. */
    constructor()
      ensures Valid() && fresh(slots)
      ensures forall j :: 0 <= j < MAX_DEVICES ==> slots[j].None?
    {
      slots := new Option<T>[MAX_DEVICES](_ => None);
    }

    /** The slot search and bookkeeping of `recordingInit` /
        `playbackInit`: the new `device` goes into the lowest empty slot,
        whose index is returned. With no empty slot the call fails with
        `exhausted`; when the device's own `Init` fails (`initError`), the
        slot is emptied again and the call fails with that message. */
    method Init(device: T, initError: Option<string>, exhausted: string) returns (r: Result<int>)
      requires Valid()
      modifies slots
      ensures (forall j :: 0 <= j < MAX_DEVICES ==> old(slots[j]).Some?) ==>
        r == Err(NativeError(exhausted)) && slots[..] == old(slots[..])
      ensures (exists j :: 0 <= j < MAX_DEVICES && old(slots[j]).None?) && initError.Some? ==>
        r == Err(NativeError(initError.value)) && slots[..] == old(slots[..])
      ensures r.Ok? <==> initError.None? && exists j :: 0 <= j < MAX_DEVICES && old(slots[j]).None?
      ensures r.Ok? ==> (0 <= r.value < MAX_DEVICES && old(slots[r.value]).None? &&
        (forall j :: 0 <= j < r.value ==> old(slots[j]).Some?) &&
        slots[..] == old(slots[..])[r.value := Some(device)])
    {
      var dev := 0;
      while dev < MAX_DEVICES && slots[dev].Some?
        invariant 0 <= dev <= MAX_DEVICES
        invariant forall j :: 0 <= j < dev ==> slots[j].Some?
      {
        dev := dev + 1;
      }
      if dev == MAX_DEVICES {
        return Err(NativeError(exhausted));
      }
      slots[dev] := Some(device);
      if initError.Some? {
        slots[dev] := None;
        assert slots[..] == old(slots[..]);
        return Err(NativeError(initError.value));
      }
      r := Ok(dev);
    }

    /** `CheckRecordingDevice` / `CheckPlaybackDevice`: ids below 0, of 16
        or more, or of an empty slot are rejected. */
    method Check(id: int) returns (r: Result<T>)
      requires Valid()
      ensures r.Err? <==> id < 0 || id >= MAX_DEVICES || slots[id].None?
      ensures r.Err? ==> r.error == NativeError("Invalid device ID")
      ensures r.Ok? ==> r.value == slots[id].value
    {
      if id < 0 || id >= MAX_DEVICES || slots[id].None? {
        return Err(NativeError("Invalid device ID"));
      }
      r := Ok(slots[id].value);
    }

    /** `recordingClose` / `playbackClose`: a valid id's slot is emptied,
        and no other slot changes. */
    method Close(id: int) returns (r: Result<()>)
      requires Valid()
      modifies slots
      ensures r.Ok? <==> 0 <= id < MAX_DEVICES && old(slots[id]).Some?
      ensures r.Ok? ==> slots[..] == old(slots[..])[id := None]
      ensures r.Err? ==> r == Err(NativeError("Invalid device ID")) && slots[..] == old(slots[..])
    {
      var device := Check(id);
      if device.Err? {
        return Err(device.error);
      }
      slots[id] := None;
      r := Ok(());
    }
  }

  /** The devices in the table's slots. */
  ghost function Devices<T>(table: DeviceTable<T>): (devices: set<T>)
    reads table, table.slots
    requires table.Valid()
    ensures forall j :: 0 <= j < MAX_DEVICES && table.slots[j].Some? ==> table.slots[j].value in devices
  {
    set j | 0 <= j < MAX_DEVICES && table.slots[j].Some? :: table.slots[j].value
  }

  /** Whether every device in the table is a well-formed recording ring. */
  ghost predicate RecordingRings(table: DeviceTable<RecordingRing>)
    reads table, table.slots, Devices(table)
    requires table.Valid()
  {
    forall j :: 0 <= j < MAX_DEVICES && table.slots[j].Some? ==> table.slots[j].value.Valid()
  }

  /** Whether every device in the table is a well-formed playback ring. */
  ghost predicate PlaybackRings(table: DeviceTable<PlaybackRing>)
    reads table, table.slots, Devices(table)
    requires table.Valid()
  {
    forall j :: 0 <= j < MAX_DEVICES && table.slots[j].Some? ==> table.slots[j].value.Valid()
  }

  /** `recordingInit`: a new device with `numBuffers` buffers (decided by
      the hardware) in the lowest empty slot. */
  method RecordingInit(table: DeviceTable<RecordingRing>, numBuffers: int, initError: Option<string>)
    returns (r: Result<int>)
    requires table.Valid() && numBuffers >= 1
    modifies table.slots
    ensures r.Ok? ==> (0 <= r.value < MAX_DEVICES && old(table.slots[r.value]).None? &&
      table.slots[r.value].Some? && fresh(table.slots[r.value].value) &&
      table.slots[r.value].value.Valid() && table.slots[r.value].value.Pending() == [] &&
      forall j :: 0 <= j < MAX_DEVICES && j != r.value ==> table.slots[j] == old(table.slots[j]))
    ensures r.Err? ==> table.slots[..] == old(table.slots[..])
  {
    var device := new RecordingRing(numBuffers);
    r := table.Init(device, initError, "No more recording devices available");
  }

  /** `playbackInit`: a new, empty device for the hardware's rate and
      channel count in the lowest empty slot. */
  method PlaybackInit(table: DeviceTable<PlaybackRing>, sampleRate: int, stereo: bool, initError: Option<string>)
    returns (r: Result<int>)
    requires table.Valid() && 0 < sampleRate && 6 * sampleRate < 0x8000_0000
    modifies table.slots
    ensures r.Ok? ==> (0 <= r.value < MAX_DEVICES && old(table.slots[r.value]).None? &&
      table.slots[r.value].Some? && fresh(table.slots[r.value].value) &&
      table.slots[r.value].value.Valid() && table.slots[r.value].value.Unplayed() == [] &&
      forall j :: 0 <= j < MAX_DEVICES && j != r.value ==> table.slots[j] == old(table.slots[j]))
    ensures r.Err? ==> table.slots[..] == old(table.slots[..])
  {
    var device := new PlaybackRing(sampleRate, stereo);
    r := table.Init(device, initError, "No more playback devices available");
  }

  /** `recordingGetData`: every pending buffer is retrieved and the
      buffers are returned concatenated in retrieval order; nothing is left
      pending. */
  method RecordingGetData(table: DeviceTable<RecordingRing>, id: int) returns (r: Result<seq<byte>>)
    requires table.Valid() && RecordingRings(table)
    modifies if 0 <= id < MAX_DEVICES && table.slots[id].Some? then {table.slots[id].value} else {}
    ensures r.Err? <==> id < 0 || id >= MAX_DEVICES || table.slots[id].None?
    ensures r.Ok? ==> var ring := table.slots[id].value;
      ring.Valid() && r.value == Flatten(old(ring.Pending())) && ring.Pending() == []
  {
    var device := table.Check(id);
    if device.Err? {
      return Err(device.error);
    }
    var ring := device.value;
    var collected, samples := Drain(ring);
    var output := new byte[samples];
    var j, pos := 0, 0;
    while j < |collected|
      modifies output
      invariant 0 <= j <= |collected|
      invariant pos == |Flatten(collected[..j])| <= samples
      invariant output[..pos] == Flatten(collected[..j])
    {
      assert collected[..j + 1][..j] == collected[..j];
      var next := pos + |collected[j]|;
      assert next <= samples by {
        FlattenPrefix(collected, j + 1);
      }
      SetRegion(output, pos, next, collected[j]);
      pos := next;
      j := j + 1;
    }
    assert collected[..j] == collected;
    r := Ok(output[..]);
  }

  /** The first loop of `recordingGetData`: `RetrieveBuffer` until it
      returns `NULL`, adding up the sizes. */
  method Drain(ring: RecordingRing) returns (collected: seq<seq<byte>>, samples: int)
    requires ring.Valid()
    modifies ring`playbackIndex, ring`pendingCount
    ensures ring.Valid() && ring.Pending() == []
    ensures collected == old(ring.Pending()) && samples == |Flatten(collected)|
  {
    collected, samples := [], 0;
    ghost var all := ring.Pending();
    while true
      invariant ring.Valid()
      invariant collected + ring.Pending() == all
      invariant samples == |Flatten(collected)|
      decreases |ring.Pending()|
    {
      ghost var rest := ring.Pending();
      var buffer := ring.RetrieveBuffer();
      if buffer.None? {
        break;
      }
      MoveFirst(collected, rest);
      collected := collected + [buffer.value];
      samples := samples + |buffer.value|;
    }
    assert collected + [] == collected;
  }

  /** Moving the first pending buffer to the collected ones keeps their
      concatenation and adds its length to the concatenation's. */
  lemma MoveFirst(collected: seq<seq<byte>>, rest: seq<seq<byte>>)
    requires rest != []
    ensures collected + [rest[0]] + rest[1..] == collected + rest
    ensures |Flatten(collected + [rest[0]])| == |Flatten(collected)| + |rest[0]|
  {
    assert (collected + [rest[0]])[..|collected|] == collected;
  }

  /** The length of a prefix's concatenation is at most the whole's. */
  lemma {:induction false} FlattenPrefix(parts: seq<seq<byte>>, k: int)
    requires 0 <= k <= |parts|
    ensures |Flatten(parts[..k])| <= |Flatten(parts)|
    decreases |parts|
  {
    if k < |parts| {
      var init := parts[..|parts| - 1];
      assert init[..k] == parts[..k];
      FlattenPrefix(init, k);
    } else {
      assert parts[..k] == parts;
    }
  }

  /** `playbackAddData`: the whole array is added after the unplayed
      bytes, or, when the ring refuses it or the array cannot be pinned
      (`pinned` false), nothing changes. */
  method PlaybackAddData(table: DeviceTable<PlaybackRing>, id: int, data: seq<byte>, pinned: bool)
    returns (r: Result<()>)
    requires table.Valid() && PlaybackRings(table) && |data| < 0x8000_0000
    modifies if 0 <= id < MAX_DEVICES && table.slots[id].Some?
      then {table.slots[id].value, table.slots[id].value.buffer} else {}
    ensures r.Err? && (id < 0 || id >= MAX_DEVICES || table.slots[id].None?) ==>
      r == Err(NativeError("Invalid device ID"))
    ensures 0 <= id < MAX_DEVICES && table.slots[id].Some? ==>
      var ring := table.slots[id].value;
      ring.Valid() &&
      (r.Ok? <==> pinned && old(ring.UnplayedSize()) + |data| < ring.buffer.Length) &&
      (r.Ok? ==> ring.Unplayed() == old(ring.Unplayed()) + data) &&
      (r.Err? ==> ring.Unplayed() == old(ring.Unplayed()))
  {
    var device := table.Check(id);
    if device.Err? {
      return Err(device.error);
    }
    var ring := device.value;
    var region := ring.RequestAdd(|data|);
    if region.Err? {
      return Err(region.error);
    }
    if !pinned {
      return Err(NativeError("Error obtaining array"));
    }
    ring.Store(data);
    ring.FinishAdd(|data|);
    r := Ok(());
  }

  /** `playbackGetUnplayedSize`. */
  method PlaybackGetUnplayedSize(table: DeviceTable<PlaybackRing>, id: int) returns (r: Result<int>)
    requires table.Valid() && PlaybackRings(table)
    ensures r.Err? <==> id < 0 || id >= MAX_DEVICES || table.slots[id].None?
    ensures r.Ok? ==> r.value == |table.slots[id].value.Unplayed()|
  {
    var device := table.Check(id);
    if device.Err? {
      return Err(device.error);
    }
    r := Ok(device.value.UnplayedSize());
  }
}
