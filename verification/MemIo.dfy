/** Dumping memory to a host file and restoring it, by way of a 16 KB buffer
    (ee/cmdHandler.c). */
module MemIo {
  import opened Bytes

  const BUFFER: nat := 16384

  /** A file since it was opened. `whole` says that every transfer so far moved all
      it was asked to; transfers may be short or fail. */
  class File {
    var content: seq<byte>
    var pos: nat
    ghost const base: seq<byte>     // the content when it was opened
    ghost var written: seq<byte>
    ghost var asked: seq<nat>       // the lengths asked for
    ghost var whole: bool

    ghost predicate Fresh()
      reads this
    {
      content == base && pos == 0 && written == [] && asked == [] && whole
    }

    /** The content is what it was, written over from its start. */
    ghost predicate Written()
      reads this
    {
      pos == |written| && content == Overwrite(base, 0, written)
    }

    /** If every transfer was whole, these are the bytes that were read. */
    ghost predicate Gave(got: seq<byte>)
      reads this
    {
      whole ==> pos == |got| <= |content| && got == content[0..|got|]
    }

    constructor (content: seq<byte>)
      ensures Fresh() && base == content
    {
      this.content, base, pos := content, content, 0;
      written, asked, whole := [], [], true;
    }

    method Write(buf: array<byte>, len: nat) returns (ret: int)
      requires len <= buf.Length && Written()
      modifies this
      ensures ret <= len && (whole <==> old(whole) && ret == len) && asked == old(asked) + [len]
      ensures written == old(written) + buf[..if ret > 0 then ret else 0]
      ensures Written()
    {
      ret := *;
      if ret > len {
        ret := -1;
      }
      var d := buf[..if ret > 0 then ret else 0];
      OverwriteTwice(base, 0, written, d);
      written, whole, asked := written + d, whole && ret == len, asked + [len];
      content, pos := Overwrite(content, pos, d), pos + |d|;
    }

    method Read(buf: array<byte>, len: nat) returns (ret: int)
      requires len <= buf.Length
      modifies this, buf
      ensures ret <= len && (whole <==> old(whole) && ret == len) && asked == old(asked) + [len]
      ensures content == old(content) && written == old(written) && pos == old(pos) + (if ret > 0 then ret else 0)
      ensures ret > 0 ==> pos <= |content| && buf[..ret] == content[old(pos)..pos]
    {
      ret := *;
      if ret > len || pos + ret > |content| {
        ret := 0;
      }
      if ret > 0 {
        forall i | 0 <= i < ret {
          buf[i] := content[pos + i];
        }
        pos := pos + ret;
      }
      whole, asked := whole && ret == len, asked + [len];
    }
  }

  /** What a turn of the loops asks for. */
  function ChunkLen(size: nat, total: nat): nat
    requires total <= size
  {
    if size - total < BUFFER then size - total else BUFFER
  }

  /** What the loops ask for, from `total` on. */
  function Chunks(size: nat, total: nat): seq<nat>
    requires total <= size
    decreases size - total
  {
    if total == size then [] else [ChunkLen(size, total)] + Chunks(size, total + ChunkLen(size, total))
  }

  lemma NextChunk(asked: seq<nat>, all: seq<nat>, size: nat, total: nat)
    requires total < size && asked + Chunks(size, total) == all
    ensures var len := ChunkLen(size, total);
            asked + [len] + Chunks(size, total + len) == all && asked + [len] <= all
  {
    var len := ChunkLen(size, total);
    var rest := Chunks(size, total + len);
    assert Chunks(size, total) == [len] + rest;
    Regroup(asked, len, rest);
  }

  lemma Regroup(a: seq<nat>, x: nat, b: seq<nat>)
    ensures a + ([x] + b) == a + [x] + b && a + [x] <= a + [x] + b
  {
  }

  function Sum(ns: seq<nat>): nat {
    if ns == [] then 0 else ns[0] + Sum(ns[1..])
  }

  /** The chunks cover the size once, full buffers first. */
  lemma {:induction false} ChunksPartition(size: nat, total: nat)
    requires total <= size
    ensures var cs := Chunks(size, total);
            Sum(cs) == size - total && (forall i :: 0 <= i < |cs| ==> 0 < cs[i] <= 16384) &&
            (forall i :: 0 <= i < |cs| - 1 ==> cs[i] == 16384)
    decreases size - total
  {
    if total < size {
      ChunksPartition(size, total + ChunkLen(size, total));
    }
  }

  lemma Adjacent(m: seq<byte>, a: nat, b: nat, c: nat)
    requires a <= b <= c <= |m|
    ensures m[a..b] + m[b..c] == m[a..c]
  {
  }

  class Ee {
    const mem: array<byte>
    const dataBuffer: array<byte>

    ghost predicate Valid() {
      dataBuffer.Length == BUFFER && mem != dataBuffer
    }

    constructor (mem: array<byte>)
      ensures Valid() && this.mem == mem
    {
      this.mem := mem;
      dataBuffer := new byte[BUFFER](_ => 0);
    }

    /** pkoDumpMem behind the opening of its file. `offset` advances by what was
        asked of each write, not by what it returned. */
    method DumpMem(file: File, fd: int, start: nat, size: len32) returns (ret: int)
      requires Valid() && start + size <= mem.Length && file.Fresh()
      modifies file, dataBuffer
      ensures mem[..] == old(mem[..])
      ensures fd > 0 && file.whole ==> file.content == Overwrite(file.base, 0, mem[..][start..start + size])
      ensures file.asked <= Chunks(size, 0) && (fd > 0 && file.whole ==> file.asked == Chunks(size, 0))
      ensures fd <= 0 ==> ret == 0 && file.content == old(file.content)
    {
      var offset := start;
      var total, len := 0, BUFFER;
      ghost var (m, all) := (mem[..], Chunks(size, 0));
      ret := 0;
      assert m[start..start] == [];
      if fd > 0 {
        while total < size
          invariant total <= size && offset == start + total && mem[..] == m
          invariant total < size ==> len == BUFFER && (total == 0 || total >= BUFFER)
          invariant file.asked + Chunks(size, total) == all
          invariant file.Written() && (file.whole ==> file.written == m[start..offset])
          decreases size - total
        {
          len := NextLen(size, total, len);
          NextChunk(file.asked, all, size, total);
          ret := DumpPiece(file, offset, len, m, start);
          if ret <= 0 {
            return fd;
          }
          offset := offset + len;
          total := total + len;
        }
      }
    }

    /** pkoWriteMem behind the opening of its file: every chunk is copied whole
        from the buffer, however much of it was read. `got` is what was copied. */
    method WriteMem(file: File, fd: int, start: nat, size: len32) returns (ret: int, ghost got: seq<byte>)
      requires Valid() && start + size <= mem.Length && file.Fresh()
      modifies file, dataBuffer, mem
      ensures file.content == old(file.content)
      ensures |got| <= size && mem[..] == Patch(old(mem[..]), start, got)
      ensures fd > 0 && file.whole ==> size <= |file.content| && got == file.content[0..size]
      ensures file.asked <= Chunks(size, 0) && (fd > 0 && file.whole ==> file.asked == Chunks(size, 0))
      ensures fd <= 0 ==> ret == 0 && got == [] && mem[..] == old(mem[..])
    {
      var offset := start;
      var total, len := 0, BUFFER;
      ghost var (m, all) := (mem[..], Chunks(size, 0));
      ret, got := 0, [];
      PatchNothing(m, start);
      if fd > 0 {
        while total < size
          invariant total <= size && offset == start + total && file.content == old(file.content)
          invariant total < size ==> len == BUFFER && (total == 0 || total >= BUFFER)
          invariant file.asked + Chunks(size, total) == all
          invariant |got| == total && mem[..] == Patch(m, start, got) && file.Gave(got)
          decreases size - total
        {
          len := NextLen(size, total, len);
          NextChunk(file.asked, all, size, total);
          ret, got := RestorePiece(file, offset, len, m, start, got);
          if ret <= 0 {
            return fd, got;
          }
          offset := offset + len;
          total := total + len;
        }
      }
    }

    /** How much the next turn of a loop is to move; the size itself is looked at
        first. */
    method NextLen(size: nat, total: nat, was: nat) returns (len: nat)
      requires total < size && was == BUFFER && (total == 0 || total >= BUFFER)
      ensures len == ChunkLen(size, total) > 0
      ensures total + len < size ==> len == BUFFER
    {
      len := was;
      if size < len {
        len := size;
      } else if size - total < len {
        len := size - total;
      }
    }

    /** The rest of a turn of DumpMem. */
    method DumpPiece(file: File, offset: nat, len: nat, ghost m: seq<byte>, ghost start: nat) returns (ret: int)
      requires Valid() && 0 < len <= BUFFER && start <= offset && offset + len <= |m| && mem[..] == m
      requires file.Written() && (file.whole ==> file.written == m[start..offset])
      modifies file, dataBuffer
      ensures mem[..] == m && file.asked == old(file.asked) + [len]
      ensures file.Written() && (file.whole ==> ret > 0 && file.written == m[start..offset + len])
    {
      CopyOut(offset, len);
      ret := file.Write(dataBuffer, len);
      Adjacent(m, start, offset, offset + len);
    }

    /** The rest of a turn of WriteMem. */
    method RestorePiece(file: File, offset: nat, len: nat, ghost m: seq<byte>, ghost start: nat, ghost got: seq<byte>)
      returns (ret: int, ghost more: seq<byte>)
      requires Valid() && 0 < len <= BUFFER && offset == start + |got| && offset + len <= |m|
      requires mem.Length == |m| && mem[..] == Patch(m, start, got) && file.Gave(got)
      modifies file, dataBuffer, mem
      ensures file.content == old(file.content) && file.asked == old(file.asked) + [len] && file.Gave(more)
      ensures start + |more| <= |m| && mem[..] == Patch(m, start, more)
      ensures if ret > 0 then |more| == |got| + len else more == got && !file.whole
    {
      ret := file.Read(dataBuffer, len);
      if ret <= 0 {
        return ret, got;
      }
      CopyIn(offset, len);
      PatchMore(m, start, got, dataBuffer[..len]);
      more := got + dataBuffer[..len];
      if file.whole {
        Adjacent(file.content, 0, |got|, |got| + len);
      }
    }

    /** memcpy into the buffer. */
    method CopyOut(offset: nat, len: nat)
      requires Valid() && len <= BUFFER && offset + len <= mem.Length
      modifies dataBuffer
      ensures dataBuffer[..len] == mem[..][offset..offset + len]
    {
      forall i | 0 <= i < len {
        dataBuffer[i] := mem[offset + i];
      }
    }

    /** memcpy from the buffer. */
    method CopyIn(offset: nat, len: nat)
      requires Valid() && len <= BUFFER && offset + len <= mem.Length
      modifies mem
      ensures mem[..] == Patch(old(mem[..]), offset, dataBuffer[..len])
    {
      forall i | 0 <= i < len {
        mem[offset + i] := dataBuffer[i];
      }
    }
  }

  /** A dump whose file is opened again and restored, there or on another machine:
      the region comes back, and the rest of that memory is left alone, whatever
      either file or memory held before. */
  method DumpThenRestore(ee: Ee, there: Ee, file: File, fd: int, fd2: int, start: nat, size: len32)
    returns (back: File)
    requires ee.Valid() && there.Valid() && file.Fresh()
    requires start + size <= ee.mem.Length && start + size <= there.mem.Length
    requires ee.dataBuffer != there.mem
    modifies file, ee.dataBuffer, there.dataBuffer, there.mem
    ensures fd > 0 && fd2 > 0 && file.whole && back.whole ==>
              there.mem[..] == Patch(old(there.mem[..]), start, old(ee.mem[..])[start..start + size])
  {
    ghost var region := ee.mem[..][start..start + size];
    var ret := ee.DumpMem(file, fd, start, size);
    back := new File(file.content);
    ghost var got;
    ret, got := there.WriteMem(back, fd2, start, size);
    if fd > 0 && fd2 > 0 && file.whole && back.whole {
      assert Overwrite(file.base, 0, region)[0..size] == region;
    }
  }
}
