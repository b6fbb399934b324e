/**
 * A native float buffer owned by the Rust side (src/buffer.rs, `Buffer`).
 *
 * The native memory behind the handle is modelled by `contents`; `size`, the
 * element count, and `deviceToken`, the creating device's identity, are fixed
 * when the buffer is wrapped. Writes and slice reads are guarded by size checks.
 */
module Buffers {
  import opened Wrappers
  import opened Native

  class Buffer {
    const handle: Handle
    /** Number of f32 elements (not bytes); no operation ever changes it. */
    const size: nat
    /** Identity of the device that created the buffer. */
    const deviceToken: Token
    /** The native memory, element by element. */
    var contents: seq<F32>
    /** Set once `oidnReleaseBuffer` has been called on the handle. */
    ghost var released: bool

    /** A live buffer whose native memory holds exactly `size` elements. */
    ghost predicate Valid()
      reads this
    {
      !released && |contents| == size
    }

    /** Wraps a native handle whose memory currently holds `initial`. */
    constructor Wrap(handle: Handle, deviceToken: Token, initial: seq<F32>)
      ensures Valid()
      ensures this.handle == handle && this.deviceToken == deviceToken
      ensures size == |initial| && contents == initial
    {
      this.handle := handle;
      this.deviceToken := deviceToken;
      size := |initial|;
      contents := initial;
      released := false;
    }

    /** Overwrites the whole buffer; `None` when the slice length differs from `size`. */
    method Write(data: seq<F32>) returns (r: Option<()>)
      requires Valid()
      modifies this`contents
      ensures Valid()
      ensures r.None? <==> |data| != size
      ensures contents == if r.Some? then data else old(contents)
    {
      if size != |data| {
        r := None;
      } else {
        contents := data;
        r := Some(());
      }
    }

    /** Copies the buffer into the caller's slice; `None`, slice untouched, when the lengths differ. */
    method ReadToSlice(slice: array<F32>) returns (r: Option<()>)
      requires Valid()
      modifies slice
      ensures r.None? <==> slice.Length != size
      ensures slice[..] == if r.Some? then contents else old(slice[..])
    {
      if size != slice.Length {
        r := None;
      } else {
        forall i | 0 <= i < slice.Length {
          slice[i] := contents[i];
        }
        r := Some(());
      }
    }

    /** Returns a fresh copy of the whole buffer. */
    method Read() returns (v: seq<F32>)
      requires Valid()
      ensures |v| == size && v == contents
    {
      var out := new F32[size](_ => 0);
      forall i | 0 <= i < size {
        out[i] := contents[i];
      }
      v := out[..];
    }

    method Size() returns (n: nat)
      ensures n == size
    {
      n := size;
    }

    /** `Drop`: releases the native buffer; ownership guarantees this happens once. */
    method Drop()
      requires Valid()
      modifies this`released
      ensures released
    {
      released := true;
    }
  }
}
