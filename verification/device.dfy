/**
 * An Open Image Denoise device (src/device.rs, `Device`), together with the
 * buffer factories that src/buffer.rs adds to it.
 *
 * The native handle comes from `oidnNewDevice`, which is foreign: the handle
 * it returned is a parameter. The native calls the wrapper makes on the
 * handle (commit, retain, release) are recorded in the ghost `log`.
 */
module Devices {
  import opened Wrappers
  import opened Native
  import opened Buffers

  datatype DeviceCall = DeviceCommit | DeviceRetain | DeviceRelease

  /** References that dependents (filters) took with retain and have not yet given back. */
  ghost function NetRetains(log: seq<DeviceCall>): int
  {
    Occurrences(log, DeviceRetain) - Occurrences(log, DeviceRelease)
  }

  lemma NetRetainsConcat(a: seq<DeviceCall>, b: seq<DeviceCall>)
    ensures NetRetains(a + b) == NetRetains(a) + NetRetains(b)
  {
    OccurrencesConcat(a, b, DeviceRetain);
    OccurrencesConcat(a, b, DeviceRelease);
  }

  /** A retain followed, after anything that is itself balanced, by a release leaves the count where it was. */
  lemma RetainReleaseBalanced(log: seq<DeviceCall>, between: seq<DeviceCall>)
    requires NetRetains(between) == 0
    ensures NetRetains(log + [DeviceRetain] + between + [DeviceRelease]) == NetRetains(log)
  {
    NetRetainsConcat(log, [DeviceRetain]);
    NetRetainsConcat(log + [DeviceRetain], between);
    NetRetainsConcat(log + [DeviceRetain] + between, [DeviceRelease]);
  }

  /** `get_error`: the deferred native error, `Ok` exactly when the code is NONE. */
  function GetError(code: Error, message: string): (r: Result<(), (Error, string)>)
    ensures r.Success? <==> code == NoError
    ensures r.Failure? ==> r.error == (code, message)
  {
    if code == NoError then Success(()) else Failure((code, message))
  }

  /**
   * `same_device_as_buf` compares identities of the shared allocation, not
   * handles: devices with distinct tokens never both claim the same buffer.
   */
  lemma BufferOnOneDevice(first: Device, second: Device, buf: Buffer)
    requires first.token != second.token
    ensures !(first.SameDeviceAsBuf(buf) && second.SameDeviceAsBuf(buf))
  {
  }

  class Device {
    const handle: Handle
    /** The fresh `Arc` allocation that identifies this device to its buffers. */
    const token: Token
    ghost var log: seq<DeviceCall>
    ghost var released: bool

    /** `create`: commits whatever handle `oidnNewDevice` returned, then wraps it. */
    constructor Create(handle: Handle)
      ensures this.handle == handle && !released
      ensures log == [DeviceCommit]
      ensures fresh(token)
    {
      this.handle := handle;
      token := new Token();
      log := [DeviceCommit];
      released := false;
    }

    /** `from_raw`: wraps a handle the caller vouches is valid and committed; nothing is committed here. */
    constructor FromRaw(handle: Handle)
      ensures this.handle == handle && !released
      ensures log == []
      ensures fresh(token)
    {
      this.handle := handle;
      token := new Token();
      log := [];
      released := false;
    }

    /** `try_create`: no device for a null handle; otherwise commit it and wrap it. */
    static method TryCreate(handle: Handle) returns (d: Option<Device>)
      ensures d.None? <==> handle == Null
      ensures d.Some? ==> fresh(d.value) && fresh(d.value.token)
      ensures d.Some? ==> d.value.handle == handle && d.value.log == [DeviceCommit] && !d.value.released
    {
      if handle != Null {
        var device := new Device.Create(handle);
        d := Some(device);
      } else {
        d := None;
      }
    }

    /** `same_device_as_buf`: the buffer carries this device's identity token. */
    predicate SameDeviceAsBuf(buf: Buffer)
    {
      buf.deviceToken == token
    }

    /**
     * `create_buffer`: `newBuffer` is what `oidnNewBuffer` returned for
     * 4 * |contents| bytes. Null gives `None`; otherwise the contents are copied in.
     */
    method CreateBuffer(contents: seq<F32>, newBuffer: Handle) returns (b: Option<Buffer>)
      requires !released
      ensures b.None? <==> newBuffer == Null
      ensures b.Some? ==> fresh(b.value) && b.value.Valid() && b.value.handle == newBuffer
      ensures b.Some? ==> b.value.size == |contents| && b.value.contents == contents
      ensures b.Some? ==> SameDeviceAsBuf(b.value)
    {
      if newBuffer == Null {
        return None;
      }
      var buf := new Buffer.Wrap(newBuffer, token, contents);
      b := Some(buf);
    }

    /**
     * `create_buffer_from_raw`: `byteSize` is what `oidnGetBufferSize` reports and
     * `existing` the native memory read as floats; the element count rounds down.
     */
    method CreateBufferFromRaw(raw: Handle, byteSize: nat, existing: seq<F32>) returns (b: Buffer)
      requires !released
      requires |existing| == byteSize / 4
      ensures fresh(b) && b.Valid() && b.handle == raw && b.contents == existing
      ensures 4 * b.size <= byteSize < 4 * b.size + 4
      ensures SameDeviceAsBuf(b)
    {
      b := new Buffer.Wrap(raw, token, existing);
    }

    /** `oidnRetainDevice`, as issued by a filter that keeps this device. */
    method Retain()
      requires !released
      modifies this`log
      ensures log == old(log) + [DeviceRetain]
    {
      log := log + [DeviceRetain];
    }

    /** `oidnReleaseDevice` for a reference a dependent took with `Retain`. */
    method Release()
      requires !released
      modifies this`log
      ensures log == old(log) + [DeviceRelease]
      ensures NetRetains(log) == NetRetains(old(log)) - 1
    {
      log := log + [DeviceRelease];
      NetRetainsConcat(old(log), [DeviceRelease]);
    }

    /** `Drop`: releases the device's own reference, exactly once. */
    method Drop()
      requires !released
      modifies this
      ensures released && log == old(log) + [DeviceRelease]
      ensures Occurrences(log, DeviceRelease) == Occurrences(old(log), DeviceRelease) + 1
    {
      log := log + [DeviceRelease];
      released := true;
      OccurrencesConcat(old(log), [DeviceRelease], DeviceRelease);
    }
  }
}
