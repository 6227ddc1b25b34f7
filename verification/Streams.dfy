/** Readers and writers over byte strings, with an I/O fault at an arbitrary point.

    A fault position that is a parameter stands for every place at which a call can fail. */
module Streams {
  import opened Bytes

  datatype ReadError = UnexpectedEof | ReadFault

  /** The outcome of `read_exact` for `n` bytes at `pos`. */
  function Exactly(data: seq<byte>, fault: Option<nat>, pos: nat, n: nat): (r: Result<seq<byte>, ReadError>)
    requires pos <= |data|
  {
    if fault.Some? && pos <= fault.value < pos + n && fault.value <= |data| then Err(ReadFault)
    else if pos + n > |data| then Err(UnexpectedEof)
    else Ok(data[pos..pos + n])
  }

  class Reader {
    const data: seq<byte>
    const fault: Option<nat>
    var pos: nat

    constructor (data: seq<byte>, fault: Option<nat>)
      ensures Valid() && pos == 0
      ensures this.data == data && this.fault == fault
    {
      this.data, this.fault, pos := data, fault, 0;
    }

    ghost predicate Valid()
      reads this
    {
      pos <= |data|
    }

    /** What has not been consumed yet. */
    function Rest(): (s: seq<byte>)
      requires Valid()
      reads this
    {
      data[pos..]
    }

    /** `seek(SeekFrom::Start(offset))`; beyond the end nothing can be read. */
    method Seek(offset: nat)
      modifies this`pos
      ensures Valid() && pos == Min(offset, |data|)
    {
      pos := Min(offset, |data|);
    }

    /** `read_exact(&mut buffer)`: the buffer is filled completely or the call fails. */
    method ReadExact(buffer: array<byte>) returns (r: Result<(), ReadError>)
      requires Valid()
      modifies this`pos, buffer
      ensures Valid()
      ensures Exactly(data, fault, old(pos), buffer.Length).Ok? <==> r.Ok?
      ensures r.Ok? ==> pos == old(pos) + buffer.Length && buffer[..] == data[old(pos)..pos]
      ensures r.Err? ==> Exactly(data, fault, old(pos), buffer.Length) == Err(r.error)
    {
      match Exactly(data, fault, pos, buffer.Length) {
        case Err(e) =>
          r := Err(e);
        case Ok(s) =>
          CopyInto(buffer, 0, s);
          assert buffer[..] == buffer[0..0 + |s|];
          pos := pos + buffer.Length;
          r := Ok(());
      }
    }

    /** A one-byte read that asks whether the input has ended. */
    method Probe() returns (r: Result<bool, ReadError>)
      requires Valid()
      modifies this`pos
      ensures Valid()
      ensures fault == Some(old(pos)) ==> r == Err(ReadFault)
      ensures fault != Some(old(pos)) ==> r == Ok(old(pos) < |data|)
    {
      if fault == Some(pos) {
        r := Err(ReadFault);
      } else if pos < |data| {
        pos := pos + 1;
        r := Ok(true);
      } else {
        r := Ok(false);
      }
    }
  }

  /** An open file being read: each call returns as much as it likes, but something while anything is left. */
  class Handle {
    const data: seq<byte>
    const pace: nat -> nat
    var pos: nat
    var calls: nat

    constructor (data: seq<byte>, pace: nat -> nat)
      ensures Valid() && pos == 0 && this.data == data && this.pace == pace
    {
      this.data, this.pace, pos, calls := data, pace, 0, 0;
    }

    ghost predicate Valid()
      reads this
    {
      pos <= |data|
    }

    method Read(buffer: array<byte>, wanted: nat) returns (count: nat)
      requires Valid() && wanted <= buffer.Length
      modifies this`pos, this`calls, buffer
      ensures Valid() && count <= wanted && pos == old(pos) + count
      ensures count == 0 <==> wanted == 0 || old(pos) == |data|
      ensures buffer[..count] == data[old(pos)..pos]
    {
      count := Min(Min(wanted, |data| - pos), 1 + pace(calls));
      CopyInto(buffer, 0, data[pos..pos + count]);
      assert buffer[..count] == buffer[0..0 + count];
      pos, calls := pos + count, calls + 1;
    }
  }

  class Writer {
    var out: seq<byte>
    const capacity: Option<nat>

    constructor (capacity: Option<nat>)
      ensures out == [] && this.capacity == capacity
    {
      out, this.capacity := [], capacity;
    }

    /** `write_all`: every byte is written, or a prefix is and the call fails. */
    method WriteAll(s: seq<byte>) returns (ok: bool)
      modifies this`out
      ensures ok ==> out == old(out) + s
      ensures capacity.None? ==> ok
      ensures old(out) <= out <= old(out) + s
    {
      if capacity.Some? && |out| + |s| > capacity.value {
        if |out| < capacity.value {
          out := out + s[..capacity.value - |out|];
        }
        return false;
      }
      out := out + s;
      return true;
    }
  }

  /** An incremental hash or MAC: `update` absorbs, `finalize` applies the function to all of it. */
  class Hasher {
    var absorbed: seq<byte>

    constructor ()
      ensures absorbed == []
    {
      absorbed := [];
    }

    method Update(s: seq<byte>)
      modifies this
      ensures absorbed == old(absorbed) + s
    {
      absorbed := absorbed + s;
    }

    method Finalize(f: seq<byte> -> seq<byte>) returns (digest: seq<byte>)
      ensures digest == f(absorbed)
    {
      digest := f(absorbed);
    }
  }
}
