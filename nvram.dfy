/**
 * The NVRAM (EEPROM emulation) working copy as a byte sequence, and what a
 * byte-by-byte write does to it.
 */
module Nvram {
  import opened Types

  /** `mem` after storing `data` one byte at a time at `offset`,
      `offset + 1`, ... — the effect of the write loop. */
  function Overwrite(mem: seq<uint8>, offset: nat, data: seq<uint8>): (r: seq<uint8>)
    requires offset + |data| <= |mem|
    ensures |r| == |mem|
    decreases |data|
  {
    if data == [] then mem else Overwrite(mem[offset := data[0]], offset + 1, data[1..])
  }

  /** Each byte after a write: inside the written range it is the matching
      byte of `data`, outside it is the old byte. */
  lemma {:induction false} OverwriteAt(mem: seq<uint8>, offset: nat, data: seq<uint8>, k: nat)
    requires offset + |data| <= |mem|
    requires k < |mem|
    ensures Overwrite(mem, offset, data)[k] == if offset <= k < offset + |data| then data[k - offset] else mem[k]
    decreases |data|
  {
    if data != [] {
      OverwriteAt(mem[offset := data[0]], offset + 1, data[1..], k);
    }
  }

  /** Reading back the written range yields exactly the bytes written. */
  lemma ReadBack(mem: seq<uint8>, offset: nat, data: seq<uint8>)
    requires offset + |data| <= |mem|
    ensures Overwrite(mem, offset, data)[offset..offset + |data|] == data
  {
    var r := Overwrite(mem, offset, data);
    forall k | 0 <= k < |data|
      ensures r[offset..offset + |data|][k] == data[k]
    {
      OverwriteAt(mem, offset, data, offset + k);
    }
  }

  /** The bytes before and after the written range are untouched. */
  lemma OutsideUnchanged(mem: seq<uint8>, offset: nat, data: seq<uint8>)
    requires offset + |data| <= |mem|
    ensures Overwrite(mem, offset, data)[..offset] == mem[..offset]
    ensures Overwrite(mem, offset, data)[offset + |data|..] == mem[offset + |data|..]
  {
    var r := Overwrite(mem, offset, data);
    forall k | 0 <= k < offset
      ensures r[k] == mem[k]
    {
      OverwriteAt(mem, offset, data, k);
    }
    forall k | offset + |data| <= k < |mem|
      ensures r[k] == mem[k]
    {
      OverwriteAt(mem, offset, data, k);
    }
  }

  /** A later write to a disjoint range does not disturb what an earlier
      write stored. */
  lemma DisjointWritesCommute(mem: seq<uint8>, o1: nat, d1: seq<uint8>, o2: nat, d2: seq<uint8>)
    requires o1 + |d1| <= |mem| && o2 + |d2| <= |mem|
    requires o1 + |d1| <= o2 || o2 + |d2| <= o1
    ensures Overwrite(Overwrite(mem, o1, d1), o2, d2) == Overwrite(Overwrite(mem, o2, d2), o1, d1)
  {
    var a := Overwrite(Overwrite(mem, o1, d1), o2, d2);
    var b := Overwrite(Overwrite(mem, o2, d2), o1, d1);
    forall k | 0 <= k < |mem|
      ensures a[k] == b[k]
    {
      OverwriteAt(mem, o1, d1, k);
      OverwriteAt(mem, o2, d2, k);
      OverwriteAt(Overwrite(mem, o1, d1), o2, d2, k);
      OverwriteAt(Overwrite(mem, o2, d2), o1, d1, k);
    }
  }

  /** Clearing: a region of `n` bytes that all read as the erased value. */
  function Erased(n: nat): (r: seq<uint8>)
    ensures |r| == n
    ensures forall k :: 0 <= k < n ==> r[k] == ERASED
  {
    seq(n, _ => ERASED)
  }

  /** Clearing is the same as writing the erased value over the whole
      region, from any starting contents. */
  lemma ClearIsFullWrite(mem: seq<uint8>)
    ensures Overwrite(mem, 0, Erased(|mem|)) == Erased(|mem|)
  {
    var r := Overwrite(mem, 0, Erased(|mem|));
    forall k | 0 <= k < |mem|
      ensures r[k] == ERASED
    {
      OverwriteAt(mem, 0, Erased(|mem|), k);
    }
  }
}
