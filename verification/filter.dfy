/**
 * The ray-tracing denoising filter (src/filter.rs, `RayTracing`).
 *
 * The filter is a small state machine over its configuration fields. Setters
 * change one field each; the auxiliary-image setters reuse a held buffer of the
 * right size or allocate a new one; resizing evicts auxiliary buffers that no
 * longer fit. Execution validates the configuration in a fixed order, and only
 * once every check has passed does it commit and execute. The native filter
 * calls are recorded, in order, in the ghost `trace`.
 */
module Filters {
  import opened Wrappers
  import opened Native
  import opened Buffers
  import opened Devices

  /** The image slots of the native "RT" filter: "albedo", "normal", "color" and "output". */
  datatype ImageSlot = AlbedoSlot | NormalSlot | ColorSlot | OutputSlot

  /** The scalar parameters of the native "RT" filter: "hdr", "inputScale", "srgb", "clean_aux" and "quality". */
  datatype Parameter = HdrParam | InputScaleParam | SrgbParam | CleanAuxParam | QualityParam

  /** A native call on the filter handle. */
  datatype Call =
    | SetImage(slot: ImageSlot, image: Handle, width: USize, height: USize)
    | SetBool(param: Parameter, flag: bool)
    | SetFloat(param: Parameter, scalar: F32)
    | SetInt(param: Parameter, number: int)
    | Commit
    | Execute
    | Release

  /** The trace splits into single calls and commit-execute pairs: every commit is followed at once by an execute. */
  ghost predicate CommitsExecuted(trace: seq<Call>)
    decreases |trace|
  {
    if trace == [] then true
    else if trace[0] == Commit then |trace| >= 2 && trace[1] == Execute && CommitsExecuted(trace[2..])
    else CommitsExecuted(trace[1..])
  }

  /** What `CommitsExecuted` means position by position. */
  lemma {:induction false} CommitsExecutedAt(trace: seq<Call>, i: nat)
    requires CommitsExecuted(trace)
    requires i < |trace| && trace[i] == Commit
    ensures i + 1 < |trace| && trace[i + 1] == Execute
    decreases |trace|
  {
    if trace[0] == Commit {
      if i >= 2 {
        CommitsExecutedAt(trace[2..], i - 2);
      }
    } else {
      CommitsExecutedAt(trace[1..], i - 1);
    }
  }

  /** A trace that never commits trivially satisfies the invariant. */
  lemma {:induction false} NoCommitExecuted(calls: seq<Call>)
    requires Commit !in calls
    ensures CommitsExecuted(calls)
    decreases |calls|
  {
    if calls != [] {
      assert forall c | c in calls[1..] :: c in calls;
      NoCommitExecuted(calls[1..]);
    }
  }

  lemma {:induction false} CommitsExecutedAppend(a: seq<Call>, b: seq<Call>)
    requires CommitsExecuted(a) && CommitsExecuted(b)
    ensures CommitsExecuted(a + b)
    decreases |a|
  {
    if a == [] {
      assert a + b == b;
    } else if a[0] == Commit {
      assert (a + b)[0] == Commit && (a + b)[1] == Execute;
      assert (a + b)[2..] == a[2..] + b;
      CommitsExecutedAppend(a[2..], b);
    } else {
      assert (a + b)[0] == a[0];
      assert (a + b)[1..] == a[1..] + b;
      CommitsExecutedAppend(a[1..], b);
    }
  }

  /** `3 * width * height` computed in `usize`, which wraps in a release build. */
  function ElementCount(width: USize, height: USize): (n: USize)
    ensures 3 * width * height < USizeLimit ==> n == 3 * width * height
  {
    PixelProduct(width, height);
    WrapUSize(3 * width * height)
  }

  lemma PixelProduct(width: nat, height: nat)
    ensures 0 <= width * height <= 3 * width * height
  {
  }

  /** Reduction modulo 2^64, what `usize` arithmetic does to an out-of-range result. */
  function WrapUSize(x: nat): (r: USize)
    ensures x < USizeLimit ==> r == x
    ensures (x - r) % USizeLimit == 0
  {
    x % USizeLimit
  }

  /** The element count with the overflow detected instead of wrapped. */
  function CheckedElementCount(width: USize, height: USize): (n: Option<USize>)
    ensures n.Some? <==> 3 * width * height < USizeLimit
    ensures n.Some? ==> n.value == 3 * width * height
  {
    PixelProduct(width, height);
    if 3 * width * height < USizeLimit then Some(3 * width * height) else None
  }

  /** An image of 2^62 by 4 pixels: the wrapped count is 0, so empty buffers pass every size check. */
  lemma ElementCountWraps()
    ensures 3 * 0x4000_0000_0000_0000 * 4 != 0
    ensures ElementCount(0x4000_0000_0000_0000, 4) == 0
    ensures CheckedElementCount(0x4000_0000_0000_0000, 4) == None
  {
  }

  /** What execution checks of an image operand: its element count and whether it is on the filter's device. */
  datatype Operand = Operand(size: nat, onDevice: bool)

  /** The order-free statement of a configuration execution accepts. */
  predicate Fits(n: nat, albedo: Option<nat>, normal: Option<nat>, color: Option<Operand>, output: Operand)
  {
    && (albedo.Some? ==> albedo.value == n)
    && (albedo.Some? && normal.Some? ==> normal.value == n)
    && (color.Some? ==> color.value.onDevice && color.value.size == n)
    && output.onDevice && output.size == n
  }

  /** The auxiliary-image checks that open `execute_filter_buffer`; normal is checked only with albedo. */
  function CheckAuxiliary(n: nat, albedo: Option<nat>, normal: Option<nat>): (r: Option<Error>)
    ensures r.None? <==> (albedo.Some? ==> albedo.value == n) && (albedo.Some? && normal.Some? ==> normal.value == n)
    ensures r.Some? ==> r.value == InvalidImageDimensions
  {
    if albedo.Some? && albedo.value != n then Some(InvalidImageDimensions)
    else if albedo.Some? && normal.Some? && normal.value != n then Some(InvalidImageDimensions)
    else None
  }

  /**
   * The checks on the color and output operands, in the order of src/filter.rs. `color`
   * is `None` on the in-place path, where the output doubles as the color image
   * and its size is checked before its device.
   */
  function CheckOperands(n: nat, color: Option<Operand>, output: Operand): (r: Option<Error>)
    ensures r.None? <==> (color.Some? ==> color.value.onDevice && color.value.size == n) && output.onDevice && output.size == n
    ensures r == Some(InvalidArgument) ==> (color.Some? && !color.value.onDevice) || !output.onDevice
    ensures r == Some(InvalidImageDimensions) ==> (color.Some? && color.value.size != n) || output.size != n
    ensures r.Some? ==> r.value == InvalidArgument || r.value == InvalidImageDimensions
  {
    if color.Some? && !color.value.onDevice then Some(InvalidArgument)
    else if color.Some? && color.value.size != n then Some(InvalidImageDimensions)
    else if color.None? && output.size != n then Some(InvalidImageDimensions)
    else if !output.onDevice then Some(InvalidArgument)
    else if output.size != n then Some(InvalidImageDimensions)
    else None
  }

  /** The whole validation of `execute_filter_buffer`: the first failing check decides the error. */
  function CheckImages(n: nat, albedo: Option<nat>, normal: Option<nat>, color: Option<Operand>, output: Operand): (r: Option<Error>)
    ensures r.None? <==> Fits(n, albedo, normal, color, output)
    ensures r.Some? ==> r.value == InvalidArgument || r.value == InvalidImageDimensions
    ensures r == Some(InvalidArgument) ==> (color.Some? && !color.value.onDevice) || !output.onDevice
    ensures r == Some(InvalidImageDimensions) ==>
      || (albedo.Some? && albedo.value != n)
      || (albedo.Some? && normal.Some? && normal.value != n)
      || (color.Some? && color.value.size != n)
      || output.size != n
  {
    var aux := CheckAuxiliary(n, albedo, normal);
    if aux.Some? then aux else CheckOperands(n, color, output)
  }

  /** A normal image without an albedo image is never looked at. */
  lemma NormalIgnoredWithoutAlbedo(n: nat, normal: Option<nat>, color: Option<Operand>, output: Operand)
    ensures CheckImages(n, None, normal, color, output) == CheckImages(n, None, None, color, output)
  {
  }

  /** Auxiliary sizes are checked before anything about the color or output buffers. */
  lemma AuxiliaryCheckedFirst(n: nat, albedo: Option<nat>, normal: Option<nat>, color: Option<Operand>, output: Operand)
    requires (albedo.Some? && albedo.value != n) || (albedo.Some? && normal.Some? && normal.value != n)
    ensures CheckImages(n, albedo, normal, color, output) == Some(InvalidImageDimensions)
  {
  }

  /** With fitting auxiliaries, a color buffer from another device is rejected whatever its size. */
  lemma ForeignColorRejected(n: nat, albedo: Option<nat>, normal: Option<nat>, color: Operand, output: Operand)
    requires albedo.Some? ==> albedo.value == n
    requires albedo.Some? && normal.Some? ==> normal.value == n
    requires !color.onDevice
    ensures CheckImages(n, albedo, normal, Some(color), output) == Some(InvalidArgument)
  {
  }

  /** With a fitting color image, an output buffer from another device is rejected whatever its size. */
  lemma ForeignOutputRejected(n: nat, albedo: Option<nat>, normal: Option<nat>, color: Option<Operand>, output: Operand)
    requires albedo.Some? ==> albedo.value == n
    requires albedo.Some? && normal.Some? ==> normal.value == n
    requires color.Some? ==> color.value.onDevice && color.value.size == n
    requires color.None? ==> output.size == n
    requires !output.onDevice
    ensures CheckImages(n, albedo, normal, color, output) == Some(InvalidArgument)
  {
  }

  /**
   * A color image of the wrong size is rejected before the output buffer's device
   * is looked at; on the in-place path the same holds for the output buffer itself.
   */
  lemma ColorSizeBeforeOutputDevice(n: nat, albedo: Option<nat>, normal: Option<nat>, color: Option<Operand>, output: Operand)
    requires albedo.Some? ==> albedo.value == n
    requires albedo.Some? && normal.Some? ==> normal.value == n
    requires color.Some? ==> color.value.onDevice && color.value.size != n
    requires color.None? ==> output.size != n
    ensures CheckImages(n, albedo, normal, color, output) == Some(InvalidImageDimensions)
  {
  }

  /** The number of auxiliary images staged when the auxiliary checks pass. */
  function AuxiliaryCount<A, B>(albedo: Option<A>, normal: Option<B>): nat
  {
    if albedo.None? then 0 else if normal.Some? then 2 else 1
  }

  /**
   * How many images execution stages before it stops: each check is made just
   * before its image is staged, so a failure leaves the images checked before it
   * staged. The count is the full image count exactly when validation passes.
   */
  function StagedCount(n: nat, albedo: Option<nat>, normal: Option<nat>, color: Option<Operand>, output: Operand): (k: nat)
    ensures k <= AuxiliaryCount(albedo, normal) + 2
    ensures k == AuxiliaryCount(albedo, normal) + 2 <==> CheckImages(n, albedo, normal, color, output).None?
    ensures CheckAuxiliary(n, albedo, normal).Some? ==> k == (if albedo.Some? && albedo.value == n then 1 else 0)
  {
    if albedo.Some? && albedo.value != n then 0
    else if albedo.Some? && normal.Some? && normal.value != n then 1
    else AuxiliaryCount(albedo, normal) + OperandCount(n, color, output)
  }

  /** How many of the color and output images are staged once the auxiliary checks have passed. */
  function OperandCount(n: nat, color: Option<Operand>, output: Operand): nat
  {
    if (color.Some? && (!color.value.onDevice || color.value.size != n)) || (color.None? && output.size != n) then 0
    else if !output.onDevice || output.size != n then 1
    else 2
  }

  /** The auxiliary images staged on the native filter; normal goes only with albedo. */
  function AuxiliaryCalls(width: USize, height: USize, albedo: Option<Handle>, normal: Option<Handle>): (calls: seq<Call>)
    ensures |calls| == AuxiliaryCount(albedo, normal)
  {
    if albedo.None? then []
    else [SetImage(AlbedoSlot, albedo.value, width, height)]
         + (if normal.Some? then [SetImage(NormalSlot, normal.value, width, height)] else [])
  }

  /** The images staged on the native filter, in order. */
  function ImageCalls(width: USize, height: USize, albedo: Option<Handle>, normal: Option<Handle>, color: Handle, output: Handle): seq<Call>
  {
    AuxiliaryCalls(width, height, albedo, normal)
    + [SetImage(ColorSlot, color, width, height), SetImage(OutputSlot, output, width, height)]
  }

  /** The scalar parameters staged after the images; the quality goes through `as i32`. */
  function ParameterCalls(hdr: bool, inputScale: F32, srgb: bool, cleanAux: bool, quality: U32): seq<Call>
  {
    [ SetBool(HdrParam, hdr), SetFloat(InputScaleParam, inputScale), SetBool(SrgbParam, srgb),
      SetBool(CleanAuxParam, cleanAux), SetInt(QualityParam, AsI32(quality)) ]
  }

  /**
   * The staged images come in the order albedo, normal, color, output; a normal
   * image is staged only right after an albedo image; nothing is committed or executed.
   */
  lemma ImageCallsOrder(width: USize, height: USize, albedo: Option<Handle>, normal: Option<Handle>, color: Handle, output: Handle)
    ensures var s := ImageCalls(width, height, albedo, normal, color, output);
      && 2 <= |s|
      && s[|s| - 2] == SetImage(ColorSlot, color, width, height)
      && s[|s| - 1] == SetImage(OutputSlot, output, width, height)
      && (albedo.Some? ==> s[0] == SetImage(AlbedoSlot, albedo.value, width, height))
      && (albedo.Some? && normal.Some? ==> s[1] == SetImage(NormalSlot, normal.value, width, height))
      && (forall i | 0 <= i < |s| && s[i].SetImage? && s[i].slot == NormalSlot ::
            i == 1 && albedo.Some? && normal.Some? && s[0] == SetImage(AlbedoSlot, albedo.value, width, height))
      && Commit !in s && Execute !in s
  {
  }

  /** `after` is `before` followed by a proper prefix of `staging`: what a rejected execution leaves behind. */
  ghost predicate StagedPrefix(before: seq<Call>, after: seq<Call>, staging: seq<Call>)
  {
    |before| <= |after| && after[..|before|] == before && after[|before|..] < staging
  }

  /** A rejected execution neither commits nor executes, whatever it staged. */
  lemma {:induction false} StagedPrefixNoCommit(before: seq<Call>, after: seq<Call>, staging: seq<Call>)
    requires StagedPrefix(before, after, staging)
    requires Commit !in staging && Execute !in staging
    ensures Occurrences(after, Commit) == Occurrences(before, Commit)
    ensures Occurrences(after, Execute) == Occurrences(before, Execute)
  {
    var added := after[|before|..];
    assert after == before + added;
    assert forall c | c in added :: c in staging;
    OccurrencesConcat(before, added, Commit);
    OccurrencesConcat(before, added, Execute);
  }

  /** Stopping after staging part of `staged` leaves a proper prefix of `staged + rest`, and no commit. */
  lemma RejectedPrefix(before: seq<Call>, added: seq<Call>, staged: seq<Call>, rest: seq<Call>)
    requires CommitsExecuted(before)
    requires added <= staged && Commit !in staged && rest != []
    ensures StagedPrefix(before, before + added, staged + rest)
    ensures CommitsExecuted(before + added)
  {
    var after := before + added;
    assert after[..|before|] == before;
    assert after[|before|..] == added;
    assert added == (staged + rest)[..|added|];
    assert Commit !in added by {
      forall i | 0 <= i < |added| ensures added[i] != Commit {
        assert added[i] == staged[i];
      }
    }
    CommitsExecutedExtend(before, added);
  }

  /** Appending calls without a commit, or a commit with its execute, keeps every commit followed by an execute. */
  lemma CommitsExecutedExtend(trace: seq<Call>, more: seq<Call>)
    requires CommitsExecuted(trace)
    requires Commit !in more || more == [Commit, Execute]
    ensures CommitsExecuted(trace + more)
  {
    if Commit !in more {
      NoCommitExecuted(more);
    } else {
      assert more[2..] == [];
    }
    CommitsExecutedAppend(trace, more);
  }

  lemma AppendRegroup(a: seq<Call>, b: seq<Call>, c: seq<Call>, d: seq<Call>)
    ensures a + b + c + d == a + (b + c) + d
  {
  }

  /** `Some(size)` of a held buffer. */
  function SizeOf(b: Option<Buffer>): Option<nat>
  {
    if b.Some? then Some(b.value.size) else None
  }

  function HandleOf(b: Option<Buffer>): Option<Handle>
  {
    if b.Some? then Some(b.value.handle) else None
  }

  /** The held buffer exists and has exactly `n` elements: the setters then reuse it. */
  predicate Reusable(b: Option<Buffer>, n: nat)
  {
    b.Some? && b.value.size == n
  }

  /** No held buffer, or one of exactly `n` elements. */
  predicate FitsOrAbsent(b: Option<Buffer>, n: nat)
  {
    b.Some? ==> b.value.size == n
  }

  function ToResult(e: Option<Error>): (r: Result<(), Error>)
  {
    if e.Some? then Failure(e.value) else Success(())
  }

  class RayTracing {
    const handle: Handle
    const device: Device
    var albedo: Option<Buffer>
    var normal: Option<Buffer>
    var hdr: bool
    var inputScale: F32
    var srgb: bool
    var cleanAux: bool
    /** (width, height, element count) */
    var imgDims: (USize, USize, USize)
    var quality: U32
    ghost var trace: seq<Call>
    ghost var released: bool

    /** The auxiliary buffers the filter owns. */
    ghost function Aux(): set<Buffer>
      reads this`albedo, this`normal
    {
      (if albedo.Some? then {albedo.value} else {}) + (if normal.Some? then {normal.value} else {})
    }

    /**
     * A live filter on a live device; its auxiliary buffers are live, distinct,
     * and were created by its device.
     */
    ghost predicate Live()
      reads this`released, this`albedo, this`normal, device`released, Aux()
    {
      && !released && !device.released
      && (albedo.Some? ==> albedo.value.Valid() && device.SameDeviceAsBuf(albedo.value))
      && (normal.Some? ==> normal.value.Valid() && device.SameDeviceAsBuf(normal.value))
      && (albedo.Some? && normal.Some? ==> albedo.value != normal.value)
    }

    /** A live filter every one of whose commits was followed by an execute. */
    ghost predicate Valid()
      reads this, device, Aux()
    {
      Live() && CommitsExecuted(trace)
    }

    /** Every held auxiliary buffer matches the configured element count. */
    ghost predicate AuxFits()
      reads this`albedo, this`normal, this`imgDims
    {
      FitsOrAbsent(albedo, imgDims.2) && FitsOrAbsent(normal, imgDims.2)
    }

    function OperandOf(b: Buffer): Operand
    {
      Operand(b.size, device.SameDeviceAsBuf(b))
    }

    /** What execution returns for these color and output operands under the current configuration. */
    ghost function Outcome(color: Option<Operand>, output: Operand): Result<(), Error>
      reads this`imgDims, this`albedo, this`normal
    {
      ToResult(CheckImages(imgDims.2, SizeOf(albedo), SizeOf(normal), color, output))
    }

    /** How many images execution stages for these operands under the current configuration. */
    ghost function Staged(color: Option<Operand>, output: Operand): nat
      reads this`imgDims, this`albedo, this`normal
    {
      StagedCount(imgDims.2, SizeOf(albedo), SizeOf(normal), color, output)
    }

    /** The calls a successful execution makes before committing. */
    ghost function Staging(color: Handle, output: Handle): seq<Call>
      reads this`imgDims, this`albedo, this`normal, this`hdr, this`inputScale, this`srgb, this`cleanAux, this`quality
    {
      ImageCalls(imgDims.0, imgDims.1, HandleOf(albedo), HandleOf(normal), color, output)
      + ParameterCalls(hdr, inputScale, srgb, cleanAux, quality)
    }

    /** `new`: retains the device, wraps `handle` (what `oidnNewFilter` returned), all defaults. */
    constructor New(device: Device, handle: Handle)
      requires !device.released
      modifies device`log
      ensures Valid()
      ensures this.device == device && this.handle == handle
      ensures albedo == None && normal == None
      ensures !hdr && !srgb && !cleanAux && inputScale == NaN
      ensures imgDims == (0, 0, 0) && quality == 0 && trace == []
      ensures device.log == old(device.log) + [DeviceRetain]
    {
      device.Retain();
      this.device := device;
      this.handle := handle;
      albedo := None;
      normal := None;
      hdr := false;
      inputScale := NaN;
      srgb := false;
      cleanAux := false;
      imgDims := (0, 0, 0);
      quality := 0;
      trace := [];
      released := false;
    }

    /** `filter_quality`: stores the raw native quality value. */
    method FilterQuality(quality: U32)
      requires Valid()
      modifies this`quality
      ensures Valid() && this.quality == quality
    {
      this.quality := quality;
    }

    method Hdr(hdr: bool)
      requires Valid()
      modifies this`hdr
      ensures Valid() && this.hdr == hdr
    {
      this.hdr := hdr;
    }

    /** `hdr_scale`, the deprecated name of `input_scale`. */
    method HdrScale(scale: F32)
      requires Valid()
      modifies this`inputScale
      ensures Valid() && inputScale == scale
    {
      inputScale := scale;
    }

    method InputScale(scale: F32)
      requires Valid()
      modifies this`inputScale
      ensures Valid() && inputScale == scale
    {
      inputScale := scale;
    }

    method Srgb(srgb: bool)
      requires Valid()
      modifies this`srgb
      ensures Valid() && this.srgb == srgb
    {
      this.srgb := srgb;
    }

    method CleanAux(cleanAux: bool)
      requires Valid()
      modifies this`cleanAux
      ensures Valid() && this.cleanAux == cleanAux
    {
      this.cleanAux := cleanAux;
    }

    /**
     * `albedo`: overwrites a held albedo buffer of the same length, otherwise
     * replaces it by a new buffer (`newBuffer` is what `oidnNewBuffer` returned;
     * the Rust code panics when it is null).
     */
    method Albedo(data: seq<F32>, newBuffer: Handle)
      requires Valid()
      requires !Reusable(albedo, |data|) ==> newBuffer != Null
      modifies this`albedo, Aux()
      ensures Valid()
      ensures albedo.Some? && albedo.value.size == |data| && albedo.value.contents == data
      ensures Reusable(old(albedo), |data|) ==> albedo == old(albedo)
      ensures !Reusable(old(albedo), |data|) ==> fresh(albedo.value) && albedo.value.handle == newBuffer
      ensures !Reusable(old(albedo), |data|) && old(albedo).Some? ==> old(albedo).value.released
      ensures normal == old(normal) && (normal.Some? ==> unchanged(normal.value))
    {
      if Reusable(albedo, |data|) {
        var written := albedo.value.Write(data);
      } else {
        var created := device.CreateBuffer(data, newBuffer);
        if albedo.Some? {
          albedo.value.Drop();
        }
        albedo := created;
      }
    }

    /**
     * `albedo_normal`, as written: a normal buffer that cannot be reused is
     * created and then stored in `albedo`, replacing the albedo just set, and
     * `normal` is never assigned.
     */
    method AlbedoNormal(a: seq<F32>, n: seq<F32>, newAlbedo: Handle, newNormal: Handle)
      requires Valid()
      requires !Reusable(albedo, |a|) ==> newAlbedo != Null
      requires !Reusable(normal, |n|) ==> newNormal != Null
      modifies this`albedo, Aux()
      ensures Valid()
      ensures normal == old(normal)
      ensures Reusable(old(normal), |n|) ==>
        && albedo.Some? && albedo.value.size == |a| && albedo.value.contents == a
        && normal.value.contents == n
      ensures Reusable(old(normal), |n|) && Reusable(old(albedo), |a|) ==> albedo == old(albedo)
      ensures Reusable(old(normal), |n|) && !Reusable(old(albedo), |a|) ==>
        && fresh(albedo.value) && albedo.value.handle == newAlbedo
        && (old(albedo).Some? ==> old(albedo).value.released)
      ensures !Reusable(old(normal), |n|) && normal.Some? ==> normal.value.contents == old(normal.value.contents)
      ensures !Reusable(old(normal), |n|) ==>
        && albedo.Some? && fresh(albedo.value) && albedo.value.handle == newNormal
        && albedo.value.size == |n| && albedo.value.contents == n
        && (old(albedo).Some? ==> old(albedo).value.released)
    {
      if Reusable(albedo, |a|) {
        var written := albedo.value.Write(a);
      } else {
        var created := device.CreateBuffer(a, newAlbedo);
        if albedo.Some? {
          albedo.value.Drop();
        }
        albedo := created;
      }
      if Reusable(normal, |n|) {
        var written := normal.value.Write(n);
      } else {
        var created := device.CreateBuffer(n, newNormal);
        albedo.value.Drop();
        albedo := created;
      }
    }

    /** `albedo_normal` with the normal buffer stored where it belongs. */
    method AlbedoNormalCorrected(a: seq<F32>, n: seq<F32>, newAlbedo: Handle, newNormal: Handle)
      requires Valid()
      requires !Reusable(albedo, |a|) ==> newAlbedo != Null
      requires !Reusable(normal, |n|) ==> newNormal != Null
      modifies this`albedo, this`normal, Aux()
      ensures Valid()
      ensures albedo.Some? && albedo.value.size == |a| && albedo.value.contents == a
      ensures normal.Some? && normal.value.size == |n| && normal.value.contents == n
      ensures Reusable(old(albedo), |a|) ==> albedo == old(albedo)
      ensures !Reusable(old(albedo), |a|) ==> fresh(albedo.value) && albedo.value.handle == newAlbedo
      ensures Reusable(old(normal), |n|) ==> normal == old(normal)
      ensures !Reusable(old(normal), |n|) ==> fresh(normal.value) && normal.value.handle == newNormal
      ensures !Reusable(old(albedo), |a|) && old(albedo).Some? ==> old(albedo).value.released
      ensures !Reusable(old(normal), |n|) && old(normal).Some? ==> old(normal).value.released
    {
      if Reusable(albedo, |a|) {
        var written := albedo.value.Write(a);
      } else {
        var created := device.CreateBuffer(a, newAlbedo);
        if albedo.Some? {
          albedo.value.Drop();
        }
        albedo := created;
      }
      if Reusable(normal, |n|) {
        var written := normal.value.Write(n);
      } else {
        var created := device.CreateBuffer(n, newNormal);
        if normal.Some? {
          normal.value.Drop();
        }
        normal := created;
      }
    }

    /**
     * `albedo_buffer`: installs a caller's buffer if it comes from this filter's
     * device. A rejected buffer was moved into the call and is dropped there.
     */
    method AlbedoBuffer(buffer: Buffer) returns (installed: bool)
      requires Valid() && buffer.Valid() && buffer !in Aux()
      modifies this`albedo, Aux(), buffer
      ensures Valid()
      ensures installed <==> device.SameDeviceAsBuf(buffer)
      ensures installed ==> albedo == Some(buffer) && buffer.contents == old(buffer.contents)
      ensures installed && old(albedo).Some? ==> old(albedo).value.released
      ensures !installed ==> albedo == old(albedo) && unchanged(Aux()) && buffer.released
      ensures normal == old(normal) && (normal.Some? ==> unchanged(normal.value))
    {
      if !device.SameDeviceAsBuf(buffer) {
        buffer.Drop();
        return false;
      }
      if albedo.Some? {
        albedo.value.Drop();
      }
      albedo := Some(buffer);
      installed := true;
    }

    /** `albedo_normal_buffer`: installs both buffers, or neither if either comes from another device. */
    method AlbedoNormalBuffer(a: Buffer, n: Buffer) returns (installed: bool)
      requires Valid() && a.Valid() && n.Valid()
      requires a != n && a !in Aux() && n !in Aux()
      modifies this`albedo, this`normal, Aux(), a, n
      ensures Valid()
      ensures installed <==> device.SameDeviceAsBuf(a) && device.SameDeviceAsBuf(n)
      ensures installed ==> albedo == Some(a) && normal == Some(n)
      ensures installed ==> a.contents == old(a.contents) && n.contents == old(n.contents)
      ensures installed ==> (old(albedo).Some? ==> old(albedo).value.released) && (old(normal).Some? ==> old(normal).value.released)
      ensures !installed ==> albedo == old(albedo) && normal == old(normal) && unchanged(Aux())
      ensures !installed ==> a.released && n.released
    {
      if !device.SameDeviceAsBuf(a) || !device.SameDeviceAsBuf(n) {
        a.Drop();
        n.Drop();
        return false;
      }
      if albedo.Some? {
        albedo.value.Drop();
      }
      albedo := Some(a);
      if normal.Some? {
        normal.value.Drop();
      }
      normal := Some(n);
      installed := true;
    }

    /**
     * `image_dimensions`: records (width, height, 3 * width * height) and drops
     * every held auxiliary buffer whose size differs from the new count.
     */
    method ImageDimensions(width: USize, height: USize)
      requires Valid()
      modifies this`albedo, this`normal, this`imgDims, Aux()
      ensures Valid() && AuxFits()
      ensures imgDims == (width, height, ElementCount(width, height))
      ensures albedo == if Reusable(old(albedo), imgDims.2) then old(albedo) else None
      ensures normal == if Reusable(old(normal), imgDims.2) then old(normal) else None
      ensures old(albedo).Some? && albedo.None? ==> old(albedo).value.released
      ensures old(normal).Some? && normal.None? ==> old(normal).value.released
      ensures unchanged(Aux())
    {
      var count := ElementCount(width, height);
      if albedo.Some? && albedo.value.size != count {
        albedo.value.Drop();
        albedo := None;
      }
      if normal.Some? && normal.value.size != count {
        normal.value.Drop();
        normal := None;
      }
      imgDims := (width, height, count);
    }

    /**
     * `execute_filter_buffer`: validates in the order of src/filter.rs, staging each image
     * as soon as it has been checked; only a fully validated call commits and executes.
     * `color` is `None` on the in-place path.
     */
    method ExecuteFilterBuffer(color: Option<Buffer>, output: Buffer) returns (r: Result<(), Error>)
      requires Valid() && output.Valid() && output !in Aux()
      requires color.Some? ==> color.value.Valid() && color.value !in Aux()
      modifies this`trace, output`contents
      ensures Valid() && output.Valid()
      ensures r == Outcome(if color.Some? then Some(OperandOf(color.value)) else None, OperandOf(output))
      ensures r.Success? ==>
        trace == old(trace) + Staging(if color.Some? then color.value.handle else output.handle, output.handle) + [Commit, Execute]
      ensures r.Failure? ==>
        StagedPrefix(old(trace), trace, Staging(if color.Some? then color.value.handle else output.handle, output.handle))
      ensures r.Failure? ==>
        |trace| == |old(trace)| + Staged(if color.Some? then Some(OperandOf(color.value)) else None, OperandOf(output))
      ensures r.Failure? ==> output.contents == old(output.contents)
    {
      var colorHandle := if color.Some? then color.value.handle else output.handle;
      var colorOperand := if color.Some? then Some(OperandOf(color.value)) else None;
      var e := Validate(colorOperand, OperandOf(output), colorHandle, output.handle);
      if e.Some? {
        r := Failure(e.value);
      } else {
        CommitAndExecute(output, colorHandle, old(trace));
        r := Success(());
      }
    }

    /**
     * Validation seen from the filter's invariant: a rejected call leaves the
     * trace extended by exactly the images it staged and nothing else.
     */
    method Validate(color: Option<Operand>, output: Operand, colorHandle: Handle, outputHandle: Handle)
      returns (e: Option<Error>)
      requires CommitsExecuted(trace)
      modifies this`trace
      ensures e == CheckImages(imgDims.2, SizeOf(albedo), SizeOf(normal), color, output)
      ensures CommitsExecuted(trace)
      ensures e.None? ==> trace == old(trace) + ImageCalls(imgDims.0, imgDims.1, HandleOf(albedo), HandleOf(normal), colorHandle, outputHandle)
      ensures e.Some? ==> StagedPrefix(old(trace), trace, Staging(colorHandle, outputHandle))
      ensures |trace| == |old(trace)| + Staged(color, output)
    {
      ghost var added;
      e, added := StageImages(color, output, colorHandle, outputHandle);
      RejectedPrefix(old(trace), added, ImageCalls(imgDims.0, imgDims.1, HandleOf(albedo), HandleOf(normal), colorHandle, outputHandle),
                     ParameterCalls(hdr, inputScale, srgb, cleanAux, quality));
    }

    /**
     * The validation part of `execute_filter_buffer`: each image is staged on the
     * native filter as soon as its checks pass, in the order albedo, normal,
     * color, output; the first failing check ends it. `added` is what was staged.
     */
    method StageImages(color: Option<Operand>, output: Operand, colorHandle: Handle, outputHandle: Handle)
      returns (e: Option<Error>, ghost added: seq<Call>)
      modifies this`trace
      ensures e == CheckImages(imgDims.2, SizeOf(albedo), SizeOf(normal), color, output)
      ensures var images := ImageCalls(imgDims.0, imgDims.1, HandleOf(albedo), HandleOf(normal), colorHandle, outputHandle);
        && trace == old(trace) + added && added <= images && Commit !in images
        && (e.None? ==> added == images)
      ensures |added| == Staged(color, output)
    {
      ghost var images := [SetImage(ColorSlot, colorHandle, imgDims.0, imgDims.1),
                           SetImage(OutputSlot, outputHandle, imgDims.0, imgDims.1)];
      ghost var aux := AuxiliaryCalls(imgDims.0, imgDims.1, HandleOf(albedo), HandleOf(normal));
      ImageCallsOrder(imgDims.0, imgDims.1, HandleOf(albedo), HandleOf(normal), colorHandle, outputHandle);
      ghost var staged;
      e, staged := StageAuxiliary();
      added := aux[..staged];
      if e.None? {
        assert added == aux;
        ghost var stagedImages;
        e, stagedImages := StageOperands(color, output, colorHandle, outputHandle);
        added := aux + images[..stagedImages];
      }
    }

    /**
     * The tail of a fully validated `execute_filter_buffer`: stages the scalar
     * parameters, commits, executes, and the engine overwrites the output buffer.
     */
    method CommitAndExecute(output: Buffer, colorHandle: Handle, ghost before: seq<Call>)
      requires Valid() && output.Valid() && output !in Aux()
      requires trace == before + ImageCalls(imgDims.0, imgDims.1, HandleOf(albedo), HandleOf(normal), colorHandle, output.handle)
      modifies this`trace, output`contents
      ensures Valid() && output.Valid()
      ensures trace == before + Staging(colorHandle, output.handle) + [Commit, Execute]
    {
      ghost var images := ImageCalls(imgDims.0, imgDims.1, HandleOf(albedo), HandleOf(normal), colorHandle, output.handle);
      ghost var params := ParameterCalls(hdr, inputScale, srgb, cleanAux, quality);
      assert Commit !in params;
      CommitsExecutedExtend(trace, params);
      CommitsExecutedExtend(trace + params, [Commit, Execute]);
      trace := trace + params + [Commit, Execute];
      AppendRegroup(before, images, params, [Commit, Execute]);
      output.contents := EngineOutput(output.size);
    }

    /**
     * The color and output part of `execute_filter_buffer`, in the order of src/filter.rs:
     * the color image is staged once checked, the output image once checked.
     * `staged` counts the images staged before a failure.
     */
    method StageOperands(color: Option<Operand>, output: Operand, colorHandle: Handle, outputHandle: Handle)
      returns (e: Option<Error>, ghost staged: nat)
      modifies this`trace
      ensures e == CheckOperands(imgDims.2, color, output)
      ensures var images := [SetImage(ColorSlot, colorHandle, imgDims.0, imgDims.1), SetImage(OutputSlot, outputHandle, imgDims.0, imgDims.1)];
        && staged <= 2 && trace == old(trace) + images[..staged]
        && (e.None? ==> staged == 2)
      ensures staged == OperandCount(imgDims.2, color, output)
    {
      ghost var images := [SetImage(ColorSlot, colorHandle, imgDims.0, imgDims.1), SetImage(OutputSlot, outputHandle, imgDims.0, imgDims.1)];
      var n := imgDims.2;
      staged := 0;
      assert old(trace) + images[..0] == old(trace);
      if color.Some? {
        if !color.value.onDevice {
          return Some(InvalidArgument), staged;
        }
        if color.value.size != n {
          return Some(InvalidImageDimensions), staged;
        }
      } else if output.size != n {
        return Some(InvalidImageDimensions), staged;
      }
      trace := trace + [images[0]];
      staged := 1;
      assert images[..1] == [images[0]];
      if !output.onDevice {
        return Some(InvalidArgument), staged;
      }
      if output.size != n {
        return Some(InvalidImageDimensions), staged;
      }
      trace := trace + [images[1]];
      staged := 2;
      assert images[..2] == images;
      e := None;
    }

    /**
     * The auxiliary part of `execute_filter_buffer`: checks the held albedo
     * buffer and stages it, then does the same for the normal buffer if there is
     * an albedo buffer. `staged` counts the images staged before a failure.
     */
    method StageAuxiliary() returns (e: Option<Error>, ghost staged: nat)
      modifies this`trace
      ensures e == CheckAuxiliary(imgDims.2, SizeOf(albedo), SizeOf(normal))
      ensures var aux := AuxiliaryCalls(imgDims.0, imgDims.1, HandleOf(albedo), HandleOf(normal));
        && staged <= |aux| && trace == old(trace) + aux[..staged]
        && (e.None? ==> staged == |aux|)
      ensures e.Some? ==> staged == if albedo.Some? && albedo.value.size == imgDims.2 then 1 else 0
    {
      ghost var aux := AuxiliaryCalls(imgDims.0, imgDims.1, HandleOf(albedo), HandleOf(normal));
      staged := 0;
      assert old(trace) + aux[..0] == old(trace);
      if albedo.Some? {
        if albedo.value.size != imgDims.2 {
          return Some(InvalidImageDimensions), staged;
        }
        trace := trace + [SetImage(AlbedoSlot, albedo.value.handle, imgDims.0, imgDims.1)];
        staged := 1;
        assert aux[..1] == [SetImage(AlbedoSlot, albedo.value.handle, imgDims.0, imgDims.1)];
        if normal.Some? {
          if normal.value.size != imgDims.2 {
            return Some(InvalidImageDimensions), staged;
          }
          trace := trace + [SetImage(NormalSlot, normal.value.handle, imgDims.0, imgDims.1)];
          staged := 2;
          assert aux[..2] == aux;
        } else {
          assert aux[..1] == aux;
        }
      }
      e := None;
    }

    /**
     * `execute_filter`: copies the slices into transient buffers (`newColor` and
     * `newOutput` are what `oidnNewBuffer` returned), runs the buffer path and, on
     * success, copies the output buffer back into the caller's slice.
     */
    method ExecuteFilter(color: Option<seq<F32>>, output: array<F32>, newColor: Handle, newOutput: Handle)
      returns (r: Result<(), Error>)
      requires Valid()
      modifies this`trace, output
      ensures Valid()
      ensures r == if (color.Some? && newColor == Null) || newOutput == Null then Failure(OutOfMemory)
                   else Outcome(if color.Some? then Some(Operand(|color.value|, true)) else None, Operand(output.Length, true))
      ensures r.Failure? ==> output[..] == old(output[..])
      ensures r.Success? ==>
        trace == old(trace) + Staging(if color.Some? then newColor else newOutput, newOutput) + [Commit, Execute]
      ensures r.Failure? ==>
        StagedPrefix(old(trace), trace, Staging(if color.Some? then newColor else newOutput, newOutput))
      ensures r.Failure? ==>
        |trace| == |old(trace)| + if (color.Some? && newColor == Null) || newOutput == Null then 0
                                  else Staged(if color.Some? then Some(Operand(|color.value|, true)) else None, Operand(output.Length, true))
    {
      var colorBuffer: Option<Buffer> := None;
      if color.Some? {
        var created := device.CreateBuffer(color.value, newColor);
        if created.None? {
          StagingNonEmpty(newColor, newOutput);
          return Failure(OutOfMemory);
        }
        colorBuffer := created;
      }
      var out := device.CreateBuffer(output[..], newOutput);
      if out.None? {
        if colorBuffer.Some? {
          colorBuffer.value.Drop();
        }
        StagingNonEmpty(if color.Some? then newColor else newOutput, newOutput);
        return Failure(OutOfMemory);
      }
      r := RunTransient(colorBuffer, out.value, output);
    }

    /**
     * The second half of `execute_filter`: runs the buffer path on the transient
     * buffers, copies the output buffer back into the slice on success, and
     * releases the transient buffers.
     */
    method RunTransient(color: Option<Buffer>, out: Buffer, output: array<F32>) returns (r: Result<(), Error>)
      requires Valid() && out.Valid() && out !in Aux() && out.size == output.Length
      requires color.Some? ==> color.value.Valid() && color.value !in Aux() && color.value != out
      requires device.SameDeviceAsBuf(out) && (color.Some? ==> device.SameDeviceAsBuf(color.value))
      modifies this`trace, output, out, if color.Some? then {color.value} else {}
      ensures Valid()
      ensures r == Outcome(if color.Some? then Some(Operand(color.value.size, true)) else None, Operand(output.Length, true))
      ensures r.Failure? ==> output[..] == old(output[..])
      ensures r.Success? ==>
        trace == old(trace) + Staging(if color.Some? then color.value.handle else out.handle, out.handle) + [Commit, Execute]
      ensures r.Failure? ==>
        StagedPrefix(old(trace), trace, Staging(if color.Some? then color.value.handle else out.handle, out.handle))
      ensures r.Failure? ==>
        |trace| == |old(trace)| + Staged(if color.Some? then Some(Operand(color.value.size, true)) else None, Operand(output.Length, true))
      ensures r.Success? ==> output[..] == out.contents
      ensures out.released && (color.Some? ==> color.value.released)
    {
      r := ExecuteFilterBuffer(color, out);
      if r.Success? {
        forall i | 0 <= i < output.Length {
          output[i] := out.contents[i];
        }
      }
      out.Drop();
      if color.Some? {
        color.value.Drop();
      }
    }

    /** Staging always holds at least the color and output images. */
    lemma StagingNonEmpty(color: Handle, output: Handle)
      ensures StagedPrefix(trace, trace, Staging(color, output))
    {
    }

    /** `filter`: denoises `color` into `output`. */
    method Filter(color: seq<F32>, output: array<F32>, newColor: Handle, newOutput: Handle) returns (r: Result<(), Error>)
      requires Valid()
      modifies this`trace, output
      ensures Valid()
      ensures r == if newColor == Null || newOutput == Null then Failure(OutOfMemory)
                   else Outcome(Some(Operand(|color|, true)), Operand(output.Length, true))
      ensures r.Failure? ==> output[..] == old(output[..]) && StagedPrefix(old(trace), trace, Staging(newColor, newOutput))
      ensures r.Failure? ==>
        |trace| == |old(trace)| + if newColor == Null || newOutput == Null then 0 else Staged(Some(Operand(|color|, true)), Operand(output.Length, true))
      ensures r.Success? ==> trace == old(trace) + Staging(newColor, newOutput) + [Commit, Execute]
    {
      r := ExecuteFilter(Some(color), output, newColor, newOutput);
    }

    /** `filter_in_place`: the slice is both the color image and the output. */
    method FilterInPlace(color: array<F32>, newBuffer: Handle) returns (r: Result<(), Error>)
      requires Valid()
      modifies this`trace, color
      ensures Valid()
      ensures r == if newBuffer == Null then Failure(OutOfMemory) else Outcome(None, Operand(color.Length, true))
      ensures r.Failure? ==> color[..] == old(color[..]) && StagedPrefix(old(trace), trace, Staging(newBuffer, newBuffer))
      ensures r.Failure? ==> |trace| == |old(trace)| + if newBuffer == Null then 0 else Staged(None, Operand(color.Length, true))
      ensures r.Success? ==> trace == old(trace) + Staging(newBuffer, newBuffer) + [Commit, Execute]
    {
      r := ExecuteFilter(None, color, newBuffer, newBuffer);
    }

    /**
     * `filter_buffer`: denoises one caller buffer into another. The caller's
     * buffers are borrowed, so neither is one of the filter's own auxiliary buffers.
     */
    method FilterBuffer(color: Buffer, output: Buffer) returns (r: Result<(), Error>)
      requires Valid() && color.Valid() && output.Valid()
      requires color !in Aux() && output !in Aux()
      modifies this`trace, output`contents
      ensures Valid() && output.Valid()
      ensures r == Outcome(Some(OperandOf(color)), OperandOf(output))
      ensures r.Failure? ==> output.contents == old(output.contents) && StagedPrefix(old(trace), trace, Staging(color.handle, output.handle))
      ensures r.Failure? ==> |trace| == |old(trace)| + Staged(Some(OperandOf(color)), OperandOf(output))
      ensures r.Success? ==> trace == old(trace) + Staging(color.handle, output.handle) + [Commit, Execute]
    {
      r := ExecuteFilterBuffer(Some(color), output);
    }

    /** `filter_in_place_buffer`: one caller buffer is both color and output. */
    method FilterInPlaceBuffer(color: Buffer) returns (r: Result<(), Error>)
      requires Valid() && color.Valid() && color !in Aux()
      modifies this`trace, color`contents
      ensures Valid() && color.Valid()
      ensures r == Outcome(None, OperandOf(color))
      ensures r.Failure? ==> color.contents == old(color.contents) && StagedPrefix(old(trace), trace, Staging(color.handle, color.handle))
      ensures r.Failure? ==> |trace| == |old(trace)| + Staged(None, OperandOf(color))
      ensures r.Success? ==> trace == old(trace) + Staging(color.handle, color.handle) + [Commit, Execute]
    {
      r := ExecuteFilterBuffer(None, color);
    }

    /** `Drop`: releases the filter handle, the device reference taken by `New`, and the held buffers. */
    method Drop()
      requires Valid()
      modifies this`released, this`trace, device`log, Aux()
      ensures released && trace == old(trace) + [Release]
      ensures device.log == old(device.log) + [DeviceRelease]
      ensures old(albedo).Some? ==> old(albedo).value.released
      ensures old(normal).Some? ==> old(normal).value.released
    {
      trace := trace + [Release];
      device.Release();
      if albedo.Some? {
        albedo.value.Drop();
      }
      if normal.Some? {
        normal.value.Drop();
      }
      released := true;
    }
  }

  /**
   * The effect of the denoising pass on the output buffer: some image of the
   * same length. A fresh array without an initialiser has arbitrary elements.
   */
  method EngineOutput(size: nat) returns (pixels: seq<F32>)
    ensures |pixels| == size
  {
    var result := new F32[size];
    pixels := result[..];
  }
}
