/**
 * Concrete scenarios: the two buffer round trips of src/tests.rs, and
 * small filter configurations that exhibit the validation order, the in-place
 * path, device membership, and the two defects of the Rust code recorded in README.md.
 * Native handles stay parameters; a scenario that needs an allocation to
 * succeed says so in its precondition.
 */
module Scenarios {
  import opened Wrappers
  import opened Native
  import opened Buffers
  import opened Devices
  import opened Filters

  /** The bit pattern of the f32 value 1.0. */
  const One: F32 := 0x3F80_0000

  /**
   * `buffer_read_write`: a one-element buffer is written with [1.0] and read
   * back both as a vector and into a slice. A failed allocation skips the test.
   */
  method BufferReadWrite(deviceHandle: Handle, bufferHandle: Handle) returns (outcome: Option<(seq<F32>, seq<F32>)>)
    ensures outcome.None? <==> bufferHandle == Null
    ensures outcome.Some? ==> outcome.value == ([One], [One])
  {
    var device := new Device.Create(deviceHandle);
    var created := device.CreateBuffer([0], bufferHandle);
    if created.None? {
      return None;
    }
    var buffer := created.value;
    var written := buffer.Write([One]);
    var read := buffer.Read();
    var slice := new F32[1](_ => 0);
    var copied := buffer.ReadToSlice(slice);
    outcome := Some((read, slice[..]));
  }

  /**
   * `buffer_import_read_write`: a native buffer of one f32 (4 bytes) is
   * imported, written with [1.0] and read back. A null native buffer skips the test.
   */
  method BufferImportReadWrite(deviceHandle: Handle, raw: Handle, existing: F32) returns (outcome: Option<(seq<F32>, seq<F32>)>)
    ensures outcome.None? <==> raw == Null
    ensures outcome.Some? ==> outcome.value == ([One], [One])
  {
    if raw == Null {
      return None;
    }
    var device := new Device.Create(deviceHandle);
    var buffer := device.CreateBufferFromRaw(raw, 4, [existing]);
    var written := buffer.Write([One]);
    var read := buffer.Read();
    var slice := new F32[1](_ => 0);
    var copied := buffer.ReadToSlice(slice);
    outcome := Some((read, slice[..]));
  }

  /**
   * A 4 x 4 image needs 48 elements; a 47-element color slice is rejected with
   * InvalidImageDimensions and the output slice keeps its zeros.
   */
  method ShortColorRejected(deviceHandle: Handle, filterHandle: Handle, newColor: Handle, newOutput: Handle)
    returns (r: Result<(), Error>, output: seq<F32>)
    ensures r == if newColor == Null || newOutput == Null then Failure(OutOfMemory) else Failure(InvalidImageDimensions)
    ensures output == seq(48, _ => 0)
  {
    var device := new Device.Create(deviceHandle);
    var filter := new RayTracing.New(device, filterHandle);
    filter.ImageDimensions(4, 4);
    var out := new F32[48](_ => 0);
    r := filter.Filter(seq(47, _ => 0), out, newColor, newOutput);
    output := out[..];
  }

  /** A 2 x 1 image denoised in place: six elements, accepted, and still six elements afterwards. */
  method InPlaceAccepted(deviceHandle: Handle, filterHandle: Handle, newBuffer: Handle)
    returns (r: Result<(), Error>, image: seq<F32>)
    ensures r == if newBuffer == Null then Failure(OutOfMemory) else Success(())
    ensures |image| == 6
    ensures r.Failure? ==> image == seq(6, _ => 0)
  {
    var device := new Device.Create(deviceHandle);
    var filter := new RayTracing.New(device, filterHandle);
    filter.ImageDimensions(2, 1);
    var color := new F32[6](_ => 0);
    r := filter.FilterInPlace(color, newBuffer);
    image := color[..];
  }

  /**
   * Buffers of a second device: as albedo it is refused, and as the color
   * image it is rejected with InvalidArgument before any size is looked at.
   */
  method ForeignBuffersRejected(homeHandle: Handle, otherHandle: Handle, filterHandle: Handle,
                                albedoHandle: Handle, colorHandle: Handle, outputHandle: Handle)
    returns (installed: bool, r: Result<(), Error>)
    requires albedoHandle != Null && colorHandle != Null && outputHandle != Null
    ensures !installed
    ensures r == Failure(InvalidArgument)
  {
    var home := new Device.Create(homeHandle);
    var other := new Device.Create(otherHandle);
    var filter := new RayTracing.New(home, filterHandle);
    var albedo := other.CreateBuffer([0, 0, 0], albedoHandle);
    installed := filter.AlbedoBuffer(albedo.value);
    var color := other.CreateBuffer([0, 0, 0], colorHandle);
    var output := home.CreateBuffer([], outputHandle);
    r := filter.FilterBuffer(color.value, output.value);
  }

  /**
   * A fitting color buffer and an output buffer of another device on a fresh
   * filter: the color image is staged before the output's device is checked, so
   * the rejected call leaves exactly that one call on the native filter.
   */
  method ForeignOutputStagesColor(homeHandle: Handle, otherHandle: Handle, filterHandle: Handle,
                                  colorHandle: Handle, outputHandle: Handle)
    returns (r: Result<(), Error>, ghost trace: seq<Call>)
    requires colorHandle != Null && outputHandle != Null
    ensures r == Failure(InvalidArgument)
    ensures trace == [SetImage(ColorSlot, colorHandle, 0, 0)]
  {
    var home := new Device.Create(homeHandle);
    var other := new Device.Create(otherHandle);
    var filter := new RayTracing.New(home, filterHandle);
    var color := home.CreateBuffer([], colorHandle);
    var output := other.CreateBuffer([], outputHandle);
    r := filter.FilterBuffer(color.value, output.value);
    trace := filter.trace;
  }

  /**
   * `albedo_normal` on a fresh filter, as written: the new normal buffer ends
   * up as the albedo buffer and no normal buffer is set.
   */
  method AlbedoNormalLosesNormal(deviceHandle: Handle, filterHandle: Handle, newAlbedo: Handle, newNormal: Handle,
                                 a: seq<F32>, n: seq<F32>)
    returns (albedo: Option<seq<F32>>, hasNormal: bool)
    requires newAlbedo != Null && newNormal != Null
    ensures albedo == Some(n) && !hasNormal
  {
    var device := new Device.Create(deviceHandle);
    var filter := new RayTracing.New(device, filterHandle);
    filter.AlbedoNormal(a, n, newAlbedo, newNormal);
    albedo := if filter.albedo.Some? then Some(filter.albedo.value.contents) else None;
    hasNormal := filter.normal.Some?;
  }

  /** The same call on the corrected `albedo_normal`: each image lands in its own slot. */
  method AlbedoNormalCorrectedKeepsBoth(deviceHandle: Handle, filterHandle: Handle, newAlbedo: Handle, newNormal: Handle,
                                        a: seq<F32>, n: seq<F32>)
    returns (albedo: Option<seq<F32>>, normal: Option<seq<F32>>)
    requires newAlbedo != Null && newNormal != Null
    ensures albedo == Some(a) && normal == Some(n)
  {
    var device := new Device.Create(deviceHandle);
    var filter := new RayTracing.New(device, filterHandle);
    filter.AlbedoNormalCorrected(a, n, newAlbedo, newNormal);
    albedo := if filter.albedo.Some? then Some(filter.albedo.value.contents) else None;
    normal := if filter.normal.Some? then Some(filter.normal.value.contents) else None;
  }

  /**
   * With dimensions 2^62 x 4 the wrapped element count is 0, so two empty
   * buffers pass every size check and the filter commits and executes.
   */
  method WrappedDimensionsAcceptEmpty(deviceHandle: Handle, filterHandle: Handle, colorHandle: Handle, outputHandle: Handle)
    returns (count: USize, r: Result<(), Error>)
    requires colorHandle != Null && outputHandle != Null
    ensures count == 0 && r == Success(())
  {
    var device := new Device.Create(deviceHandle);
    var filter := new RayTracing.New(device, filterHandle);
    ElementCountWraps();
    filter.ImageDimensions(0x4000_0000_0000_0000, 4);
    count := filter.imgDims.2;
    var color := device.CreateBuffer([], colorHandle);
    var output := device.CreateBuffer([], outputHandle);
    r := filter.FilterBuffer(color.value, output.value);
  }
}
