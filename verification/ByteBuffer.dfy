/** A growing byte buffer with one position for reading and one for writing. */
module ByteBuffers {
  import opened Common

  class ByteBuffer {
    // The bytes up to the highest position ever written to or sought.
    var memory: Bytes
    var getPos: nat
    var putPos: nat

    ghost predicate Valid()
      reads this
    {
      getPos <= |memory| <= INT_MAX && putPos <= |memory|
    }

    /** Everything is written at the end. */
    ghost predicate Appending()
      reads this
    {
      Valid() && putPos == |memory|
    }

    /** What is left to read. */
    function Rest(): Bytes
      requires Valid()
      reads this
    {
      memory[getPos..]
    }

    function BytesRemaining(): nat
      requires Valid()
      reads this
    {
      |memory| - getPos
    }

    constructor ()
      ensures Appending() && memory == [] && getPos == 0
    {
      memory, getPos, putPos := [], 0, 0;
    }

    /** A buffer for reading `data` only. */
    constructor ReadOnly(data: Bytes)
      requires |data| <= INT_MAX
      ensures Valid() && memory == data && getPos == 0
    {
      memory, getPos, putPos := data, 0, |data|;
    }

    method Get(size: nat) returns (r: Option<Bytes>)
      requires Valid()
      modifies this`getPos
      ensures Valid()
      ensures r.Some? <==> size <= |old(Rest())|
      ensures r.Some? ==> r.value == old(Rest())[..size] && Rest() == old(Rest())[size..]
      ensures r.None? ==> Rest() == old(Rest())
    {
      if BytesRemaining() < size {
        return None;
      }
      r := Some(memory[getPos..getPos + size]);
      getPos := getPos + size;
    }

    /** Moves past bytes known to be there. */
    method SkipGet(size: nat)
      requires Valid() && size <= |Rest()|
      modifies this`getPos
      ensures Valid() && Rest() == old(Rest())[size..]
    {
      getPos := getPos + size;
    }

    method Put(data: Bytes)
      requires Appending() && |memory| + |data| <= INT_MAX
      modifies this`memory, this`putPos
      ensures Appending() && memory == old(memory) + data
    {
      memory := memory[..putPos] + data;
      putPos := putPos + |data|;
    }

    /** Leaves a gap; what its bytes are is not known. */
    method SkipPut(size: nat)
      requires Appending() && |memory| + size <= INT_MAX
      modifies this`memory, this`putPos
      ensures Appending() && |memory| == |old(memory)| + size && memory[..|old(memory)|] == old(memory)
    {
      assert |seq(size, _ => 0 as byte)| == size;
      var unknown: Bytes :| |unknown| == size;
      memory := memory + unknown;
      putPos := putPos + size;
    }

    /** Writes over bytes already there. */
    method Patch(pos: nat, data: Bytes)
      requires Valid() && pos + |data| <= |memory|
      modifies this`memory
      ensures Valid() && memory == old(memory[..pos]) + data + old(memory[pos + |data|..])
      ensures |memory| == |old(memory)|
    {
      memory := memory[..pos] + data + memory[pos + |data|..];
    }
  }
}
