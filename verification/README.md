# oidn-rs core in Dafny

A model of the Rust-side bookkeeping of `oidn`, the Rust wrapper around Intel
Open Image Denoise. Everything the wrapper hands to the native library (device,
buffer and filter handles, pixel memory, the denoising pass) is reached through
opaque handles. What is modelled is what the wrapper itself decides:

- **Buffers** (`buffer.dfy`, module `Buffers`): a native float buffer with a fixed
  element count `size`, the identity token of the device that created it, and its
  native memory `contents`. `Write` and `ReadToSlice` are guarded by size checks.
- **Devices** (`device.dfy`, module `Devices`): a handle plus a fresh identity
  token (the `Arc<u8>` allocation). Creation commits the handle, and `try_create`
  fails only on a null handle. `GetError` maps the deferred native error code to
  `Ok`/`Err`. The buffer factories of `impl Device` in src/buffer.rs live here.
  The native calls on the device handle (commit, retain, release) are recorded in
  a ghost `log`. `SameDeviceAsBuf` is the membership test: the buffer's token is
  this device's token.
- **The ray-tracing filter** (`filter.dfy`, module `Filters`, class `RayTracing`):
  - The setters change one configuration field each.
  - The auxiliary-image setters reuse a held buffer of the right length or replace it.
  - `ImageDimensions` evicts auxiliary buffers that no longer fit.
  - Execution validates in a fixed order, first the albedo and normal sizes, then the
    color device and size, then the output device and size. Only once every check has
    passed does it stage the parameters, commit and execute.
  - The native calls on the filter handle are recorded, in order, in the ghost
    `trace` (`SetImage`, `SetBool`, `SetFloat`, `SetInt`, `Commit`, `Execute`,
    `Release`). The invariant `CommitsExecuted` says every commit is followed at once
    by an execute.
  - The denoising pass leaves some image of the same length in the output buffer.
- **Shared definitions**: `native.dfy` (module `Native`) holds pixels as 32-bit
  patterns (`F32 = bv32`, no float arithmetic), handles (`0` is null), the error
  codes, `usize`/`u32` ranges and the `as i32` cast. `wrappers.dfy` holds `Option`
  and `Result`.
- **Scenarios** (`scenarios.dfy`): the two buffer round trips of src/tests.rs, and
  concrete filter configurations for the validation order, the in-place path, foreign
  buffers and the two findings below.

Foreign results are parameters: the handle `oidnNewDevice`, `oidnNewFilter` or
`oidnNewBuffer` returned, the byte size `oidnGetBufferSize` reported, and the
error code and message `oidnGetDeviceError` produced.

Behaviour of the code that the model keeps:

- Validation is not free of native side effects. Each image is staged with
  `oidnSetFilterImage` as soon as its own checks pass (src/filter.rs:264-352).
  A rejected execution therefore leaves a proper prefix of the staging calls in
  the trace, though never a commit or an execute (`StagedPrefix`, `StagedPrefixNoCommit`).
  The prefix holds exactly the images checked before the failing check (`StagedCount`).
  For example, a foreign output buffer after a fitting color buffer leaves the color
  image staged (`ForeignOutputStagesColor`).
- Parameters are staged in the order hdr, inputScale, srgb, clean_aux, quality
  (src/filter.rs:353-366).
- A normal image without an albedo image is silently ignored
  (src/filter.rs:282-301): `NormalIgnoredWithoutAlbedo`.
- filter.rs tests device membership through a buffer `id` field. buffer.rs has no
  such field and compares the `Arc` allocation instead. Both are modelled as one
  comparison of identity tokens.

The caller's buffers passed to `filter_buffer` and `filter_in_place_buffer` are
borrowed, while the filter's auxiliary buffers are private and owned. So the
model requires the two to be distinct objects (`!in Aux()`), which Rust
guarantees by ownership.

## Model

| member | source | states |
|---|---|---|
| Native.AsI32 | src/filter.rs:362-366 | the `as i32` of the raw quality is the two's-complement value with the same 32 bits: in i32 range, congruent mod 2^32, unchanged below 2^31 |
| Buffers.Buffer.Wrap | src/buffer.rs:29-33 | a wrapped buffer is live, keeps the handle and the device token, and its `size` is the length of its memory |
| Buffers.Buffer.Write | src/buffer.rs:55-65 | fails exactly when the slice length differs from `size`, leaving the memory unchanged; otherwise the memory becomes the slice; the buffer stays valid |
| Buffers.Buffer.ReadToSlice | src/buffer.rs:68-78 | fails exactly when the slice length differs from `size`, leaving the slice untouched; otherwise the slice equals the buffer contents |
| Buffers.Buffer.Read | src/buffer.rs:81-92 | returns a vector of `size` elements equal to the buffer contents |
| Buffers.Buffer.Size | src/buffer.rs:98-100 | returns the element count fixed at construction (`size` is a constant no method assigns) |
| Buffers.Buffer.Drop | src/buffer.rs:103-107 | releases the buffer; callable only on a live buffer, so it happens once |
| Devices.BufferOnOneDevice | src/buffer.rs:48-50 | `same_device_as_buf` compares identity tokens, so two devices with distinct tokens never both claim one buffer |
| Devices.GetError | src/device.rs:75-84 | `Ok` exactly when the code is NONE; otherwise `Err` carrying that code and the message |
| Devices.Device.Create | src/device.rs:22-28 | the handle is committed before the device is returned (log is exactly one commit), with a fresh identity token |
| Devices.Device.TryCreate | src/device.rs:30-40 | no device exactly when the handle is null, so a null handle is never committed; otherwise a fresh, committed device with a fresh token |
| Devices.Device.FromRaw | src/device.rs:65-67 | wraps the caller's handle with a fresh token and issues no native call |
| Devices.Device.CreateBuffer | src/buffer.rs:18-34 | `None` exactly when the allocation returned null; otherwise a fresh live buffer of `size` = slice length holding the slice, tagged with this device |
| Devices.Device.CreateBufferFromRaw | src/buffer.rs:39-46 | the element count is the native byte size divided by 4, rounded down; the buffer is tagged with this device |
| Devices.Device.Retain | src/filter.rs:22-24 | one retain is appended to the device log |
| Devices.Device.Release | src/filter.rs:379 | one release is appended and the net number of outstanding retains drops by one |
| Devices.RetainReleaseBalanced | src/filter.rs:21-38 | the retain of `new` and the release of the filter's `Drop` cancel out: the device's outstanding retains are back where they were |
| Devices.Device.Drop | src/device.rs:87-93 | the device's own reference is released exactly once: one more release in the log, device marked released, callable only while live |
| Filters.CommitsExecutedAt | src/filter.rs:368-369 | in a trace satisfying the invariant, every commit is immediately followed by an execute |
| Filters.CommitsExecutedAppend | src/filter.rs:368-369 | concatenating two traces that keep the invariant keeps it |
| Filters.NoCommitExecuted | src/filter.rs:264-366 | a sequence of staging calls without a commit keeps the invariant |
| Filters.ElementCount | src/filter.rs:201 | `3 * width * height` as a `usize`: equal to the product whenever it fits in 64 bits |
| Filters.CheckedElementCount | src/filter.rs:201 | the overflow-checked count: present exactly when the product fits, and then equal to it |
| Filters.ElementCountWraps | src/filter.rs:201 | for 2^62 x 4 the product is not 0, yet the wrapped count is 0 and the checked count is absent |
| Filters.CheckAuxiliary | src/filter.rs:264-302 | passes exactly when a held albedo has the configured size and, with albedo present, a held normal has it too; fails only with InvalidImageDimensions |
| Filters.CheckOperands | src/filter.rs:303-340 | passes exactly when the color (if given) and the output are on this device with the configured size; InvalidArgument only for a foreign buffer, InvalidImageDimensions only for a wrong size |
| Filters.CheckImages | src/filter.rs:264-340 | the whole validation passes exactly when the order-free condition `Fits` holds; each error kind is returned only for a failure of its kind |
| Filters.NormalIgnoredWithoutAlbedo | src/filter.rs:282-301 | without albedo, a held normal buffer never affects the outcome |
| Filters.AuxiliaryCheckedFirst | src/filter.rs:264-302 | a misfitting auxiliary buffer gives InvalidImageDimensions whatever the color and output are |
| Filters.ForeignColorRejected | src/filter.rs:303-310 | with fitting auxiliaries, a color buffer from another device gives InvalidArgument whatever its size |
| Filters.ForeignOutputRejected | src/filter.rs:335-337 | once the color checks pass, an output buffer from another device gives InvalidArgument whatever its size |
| Filters.ColorSizeBeforeOutputDevice | src/filter.rs:303-337 | with fitting auxiliaries, a color buffer on this device but of the wrong size (or, in place, an output of the wrong size) gives InvalidImageDimensions even when the output buffer is foreign |
| Filters.StagedCount | src/filter.rs:264-340 | how many images a call stages before it stops. It is at most the full image count and reaches it exactly when validation passes. After an auxiliary failure it is 1 if the albedo passed its check, else 0 |
| Filters.ImageCallsOrder | src/filter.rs:264-352 | images are staged as albedo, normal, color, output; normal appears only in second place right after albedo; the staging holds no commit or execute |
| Filters.StagedPrefixNoCommit | src/filter.rs:264-340 | a rejected execution adds no commit and no execute to the trace |
| Filters.RayTracing.New | src/filter.rs:21-38 | no albedo or normal, hdr, srgb and clean_aux false, input scale NaN, dimensions (0,0,0), quality 0, empty trace; the device is retained once |
| Filters.RayTracing.FilterQuality | src/filter.rs:46-49 | sets the raw quality and nothing else |
| Filters.RayTracing.Hdr | src/filter.rs:155-158 | sets `hdr` and nothing else |
| Filters.RayTracing.HdrScale | src/filter.rs:161-164 | sets the input scale and nothing else |
| Filters.RayTracing.InputScale | src/filter.rs:174-177 | sets the input scale and nothing else |
| Filters.RayTracing.Srgb | src/filter.rs:183-186 | sets `srgb` and nothing else |
| Filters.RayTracing.CleanAux | src/filter.rs:193-196 | sets `clean_aux` and nothing else |
| Filters.RayTracing.Albedo | src/filter.rs:99-116 | afterwards albedo holds the slice; a held buffer of equal length is overwritten in place and kept; otherwise a new buffer replaces it and the old one is released; normal untouched |
| Filters.RayTracing.AlbedoNormal | src/filter.rs:60-92 | as written: normal is never assigned, and a held normal buffer of another length keeps its contents; a reusable normal buffer is overwritten in place; otherwise the new normal buffer becomes the albedo buffer, releasing the albedo just set (and a replaced old albedo) |
| Filters.RayTracing.AlbedoNormalCorrected | src/filter.rs:60-92 | afterwards albedo holds the albedo slice and normal the normal slice, each reused when of equal length and otherwise freshly allocated, with the replaced buffer released |
| Filters.RayTracing.AlbedoBuffer | src/filter.rs:146-152 | installs the buffer exactly when it comes from this filter's device, releasing any previous albedo; otherwise the filter is unchanged and the rejected buffer is released |
| Filters.RayTracing.AlbedoNormalBuffer | src/filter.rs:127-138 | installs both buffers exactly when both come from this device; otherwise neither, filter unchanged, both rejected buffers released |
| Filters.RayTracing.ImageDimensions | src/filter.rs:200-220 | dimensions become (w, h, count); a held auxiliary buffer is kept exactly when its size equals the count and is released otherwise, so every held buffer fits afterwards |
| Filters.RayTracing.StageAuxiliary | src/filter.rs:264-302 | returns the auxiliary check's verdict. It appends to the trace the auxiliary images staged before it stopped: all of them on success; on failure the albedo alone if it passed its check, otherwise nothing |
| Filters.RayTracing.StageOperands | src/filter.rs:303-352 | returns the operand check's verdict. It stages nothing when the color-position check fails, only the color image when the output check fails, and both on success |
| Filters.RayTracing.StageImages | src/filter.rs:264-352 | returns the verdict of the whole validation; the trace grows by the first `StagedCount` images of the staging, all of them on success |
| Filters.RayTracing.Validate | src/filter.rs:264-340 | returns the verdict of the whole validation and keeps the invariant; on success the trace grows by all images, on failure by a proper prefix of the staging of exactly `StagedCount` calls |
| Filters.RayTracing.CommitAndExecute | src/filter.rs:353-369 | after the images, appends the five parameter calls, a commit and an execute, so the trace grows by the whole staging and the pair; the invariant is kept and the output keeps its length |
| Filters.RayTracing.ExecuteFilterBuffer | src/filter.rs:259-372 | returns the validation verdict; on success the trace grows by all images, all parameters, commit, execute; on failure by the first `StagedCount` calls of the staging (a proper prefix), with the output buffer untouched |
| Filters.RayTracing.ExecuteFilter | src/filter.rs:238-257 | OutOfMemory when a transient buffer cannot be created; otherwise the validation verdict for operands of the slices' lengths; on failure the output slice is untouched and the trace grows by nothing after OutOfMemory, else by exactly `StagedCount` staging calls |
| Filters.RayTracing.RunTransient | src/filter.rs:247-256 | runs the buffer path on the transient buffers; on success the output slice equals the output buffer's contents; on failure it is untouched and the trace grows by exactly `StagedCount` staging calls; both transient buffers are released |
| Filters.RayTracing.Filter | src/filter.rs:222-224 | the slice path with a color slice: OutOfMemory on a failed allocation, otherwise the validation verdict; trace and output as for `ExecuteFilter` |
| Filters.RayTracing.FilterBuffer | src/filter.rs:226-228 | the buffer path with a color buffer: result and trace as for `ExecuteFilterBuffer`, including the exact count staged on failure |
| Filters.RayTracing.FilterInPlace | src/filter.rs:230-232 | the slice path with the slice as both color and output: its size is checked in the color position; trace and slice as for `ExecuteFilter`, including the exact count staged on failure |
| Filters.RayTracing.FilterInPlaceBuffer | src/filter.rs:234-236 | the buffer path with one buffer as color and output: result and trace as for `ExecuteFilterBuffer` |
| Filters.RayTracing.Drop | src/filter.rs:375-382 | releases the filter handle (trace), gives back the device reference taken by `New`, and releases the held auxiliary buffers |
| Filters.EngineOutput | src/filter.rs:368-369 | the denoising pass produces an image of the requested length, contents unconstrained |
| Scenarios.BufferReadWrite | src/tests.rs:5-23 | writing [1.0] into a one-element buffer and reading back gives [1.0] both as a vector and in a slice; skipped exactly when allocation fails |
| Scenarios.BufferImportReadWrite | src/tests.rs:27-43 | the same round trip through an imported 4-byte native buffer; skipped exactly when the native buffer is null |
| Scenarios.ShortColorRejected | src/filter.rs:308-310 | a 4 x 4 filter rejects a 47-element color slice with InvalidImageDimensions and leaves the output slice untouched |
| Scenarios.InPlaceAccepted | src/filter.rs:313-316 | a 2 x 1 filter accepts a 6-element slice in place and the slice keeps its length |
| Scenarios.ForeignBuffersRejected | src/filter.rs:305-307 | buffers of another device are refused as albedo and rejected as color with InvalidArgument |
| Scenarios.ForeignOutputStagesColor | src/filter.rs:322-337 | on a fresh filter, a fitting color buffer with a foreign output is rejected with InvalidArgument and leaves exactly the color image's `SetImage` in the trace |
| Scenarios.AlbedoNormalLosesNormal | src/filter.rs:83-85 | on a fresh filter, `albedo_normal(a, n)` leaves albedo holding `n` and no normal buffer |
| Scenarios.AlbedoNormalCorrectedKeepsBoth | src/filter.rs:60-92 | the corrected setter leaves albedo holding `a` and normal holding `n` |
| Scenarios.WrappedDimensionsAcceptEmpty | src/filter.rs:201 | after `image_dimensions(2^62, 4)` the count is 0 and two empty buffers are accepted |

## Left out

- Device-type constructors (`new`, `cpu`, `sycl`, `cuda`, `hip`, `metal`, `Default`) only pick the type passed to `oidnNewDevice`. The handle that call returns is a parameter of `Create`/`TryCreate`, so the choice of type is not modelled.
- `raw()` on devices and buffers returns the handle field and is not modelled as a member.
- The `Quality` enumeration and its conversion to the native value: the raw `u32` is the parameter of `FilterQuality`.
- The conversion of a native error code to `Error` and of the message pointer to a `String` (`to_string_lossy`, `try_into().unwrap()`). `GetError` takes the code and the message as values.
- Pixel values and the input scale are carried as bit patterns. No float arithmetic is modelled, and neither is the denoising itself: the output buffer receives unconstrained contents of the right length.
- `Send` implementations and thread-safety: the model is sequential.
- Panics: `albedo` and `albedo_normal` unwrap a failed allocation. That is a precondition that binds only when a new buffer is needed. The `expect` after a same-size write cannot fire and is not modelled.
- Filters.ElementCount: models the release-build wrap-around of `3 * width * height`. A debug build would panic on overflow instead, and that is not modelled.
- Errors raised by the native library inside commit or execute are deferred. They surface only through `GetError`, whose code is a parameter.
- The example programs, the C smoke test, build.rs and src/lib.rs are outside the core.

## Findings

| source | as written | input that shows it | evidently intended | confidence | as-written member | corrected member |
|---|---|---|---|---|---|---|
| src/filter.rs:83-85 | when no held normal buffer can be reused, the new normal buffer is stored into `self.albedo` | a fresh filter, `albedo_normal(a, n)` with any slices: albedo ends up holding `n`, normal stays `None` | store the new buffer into `self.normal` | high, not executed | Filters.RayTracing.AlbedoNormal, Scenarios.AlbedoNormalLosesNormal | Filters.RayTracing.AlbedoNormalCorrected, Scenarios.AlbedoNormalCorrectedKeepsBoth |
| src/filter.rs:201 | `3 * width * height` is a `usize` product that wraps silently in a release build | `image_dimensions(2^62, 4)`: the count is 0, and empty color and output buffers pass every size check | detect the overflow rather than accept a wrapped count | medium, not executed | Filters.ElementCount, Filters.ElementCountWraps, Scenarios.WrappedDimensionsAcceptEmpty | Filters.CheckedElementCount |
