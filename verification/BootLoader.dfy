/**
 * Loading the kernel: readseg and readsect of bootmain.c against the emulated disk ports, the rep prefix
 * and insd. Paging is off, so addresses are physical.
 */
module BootLoader {
  import opened LittleEndian

  const SECTSIZE := 512
  const PHYSTOP := 0xE00_0000
  /** Sector numbers that the ports can express. */
  const SECTORS := 0x2000_0000

  /** Opcodes of the rep prefix and of insd. */
  const REP: byte := 0xF3
  const INSD: byte := 0x6D

  /** Byte k of the disk image; reading past its end leaves the zero of the buffer. */
  function ImageByte(image: seq<byte>, k: nat): byte { if k < |image| then image[k] else 0 }

  /** The four bytes of a word come back out of it. */
  lemma {:induction false} WordBytes(b0: byte, b1: byte, b2: byte, b3: byte)
    ensures 0 <= FromBytes(b0, b1, b2, b3) < U32
    ensures var w: uint32 := FromBytes(b0, b1, b2, b3);
            ByteOf(w, 0) == b0 && ByteOf(w, 1) == b1 && ByteOf(w, 2) == b2 && ByteOf(w, 3) == b3
  {
    var w := FromBytes(b0, b1, b2, b3);
    assert w / 0x100 == b1 + 0x100 * b2 + 0x1_0000 * b3;
    assert w / 0x1_0000 == b2 + 0x100 * b3;
    assert w / 0x100_0000 == b3;
  }

  /** The sector that the port writes of readsect add up to. */
  lemma {:induction false} PortsAddUp(offset: uint32)
    ensures offset % 0x100 + (offset / 0x100 % 0x100) * 0x100 + (offset / 0x1_0000 % 0x100) * 0x1_0000
              + ((0xE0 + offset / 0x100_0000 % 0x20) % 0x20) * 0x100_0000 == offset % SECTORS
  {
    var b3 := offset / 0x100_0000;
    LowBytes(offset);
    TopBits(offset, b3);
    assert (0xE0 + b3 % 0x20) % 0x20 == b3 % 0x20;
  }

  lemma {:induction false} LowBytes(offset: uint32)
    ensures offset % 0x100 + (offset / 0x100 % 0x100) * 0x100 + (offset / 0x1_0000 % 0x100) * 0x1_0000
            == offset % 0x100_0000
  {
    BytesOfWord(offset);
  }

  lemma {:induction false} TopBits(offset: uint32, b3: nat)
    requires b3 == offset / 0x100_0000
    ensures offset % SECTORS == (b3 % 0x20) * 0x100_0000 + offset % 0x100_0000
  {
    assert offset == SECTORS * (b3 / 0x20) + ((b3 % 0x20) * 0x100_0000 + offset % 0x100_0000);
  }

  class Machine {
    const memory: array<byte>
    const image: seq<byte>
    var eip: uint32
    var ecx: uint32
    var edi: uint32
    /** Position of the disk file. */
    var pos: nat
    /** Status reads so far, times0x01f7 in the emulator. */
    var times: nat

    /** Address of the boot loader's rep insl instruction. */
    const ins: uint32

    constructor (memory: array<byte>, image: seq<byte>, ins: uint32)
      ensures this.memory == memory && this.image == image && this.ins == ins
    {
      this.memory, this.image, this.ins := memory, image, ins;
      eip, ecx, edi, pos, times := ins, 0, 0, 0, 0;
    }

    predicate Intact()
      reads memory
    {
      ins + 1 < memory.Length && memory[ins] == REP && memory[ins + 1] == INSD
    }

    /** io.in8 on the two disk ports that bootmain reads. */
    method In8(address: nat) returns (b: byte)
      requires address == 0x1F0 || address == 0x1F7
      modifies `pos, `times
      ensures address == 0x1F0 ==> b == ImageByte(image, old(pos)) && pos == old(pos) + 1 && times == old(times)
      ensures address == 0x1F7 ==> b / 64 == 1 && pos == old(pos)
    {
      if address == 0x1F0 {
        b := if pos < |image| then image[pos] else 0;
        pos := pos + 1;
      } else {
        b := if times % 2 == 0 then 0x50 else 0x58;
        times := times + 1;
      }
    }

    /** io.in32: four reads of the same port. */
    method In32() returns (w: uint32)
      modifies `pos, `times
      ensures pos == old(pos) + 4
      ensures forall k: nat :: k < 4 ==> ByteOf(w, k) == ImageByte(image, old(pos) + k)
    {
      var b0 := In8(0x1F0);
      var b1 := In8(0x1F0);
      var b2 := In8(0x1F0);
      var b3 := In8(0x1F0);
      WordBytes(b0, b1, b2, b3);
      w := FromBytes(b0, b1, b2, b3);
    }

    /** io.out8 on the disk ports: the four address ports move the file position. */
    method Out8(address: nat, value: byte)
      modifies `pos
      ensures pos == if address == 0x1F3 then value * SECTSIZE
                     else if address == 0x1F4 then old(pos) + value * 0x100 * SECTSIZE
                     else if address == 0x1F5 then old(pos) + value * 0x1_0000 * SECTSIZE
                     else if address == 0x1F6 then old(pos) + value % 0x20 * 0x100_0000 * SECTSIZE
                     else old(pos)
    {
      if address == 0x1F3 {
        pos := 0;
        pos := pos + value * SECTSIZE;
      } else if address == 0x1F4 {
        pos := pos + value * 0x100 * SECTSIZE;
      } else if address == 0x1F5 {
        pos := pos + value * 0x1_0000 * SECTSIZE;
      } else if address == 0x1F6 {
        pos := pos + value % 0x20 * 0x100_0000 * SECTSIZE;
      }
    }

    /** insd: a word from the disk to memory[edi]. setMemory8 drops bytes above PHYSTOP. */
    method Insd()
      requires edi + 4 <= PHYSTOP <= memory.Length
      modifies this, memory
      ensures edi == old(edi) + 4 && pos == old(pos) + 4 && ecx == old(ecx) && eip == (old(eip) + 1) % U32
      ensures forall a: nat :: a < memory.Length ==>
                memory[a] == if old(edi) <= a < old(edi) + 4 then ImageByte(image, old(pos) + (a - old(edi)))
                else old(memory[a])
    {
      var value := In32();
      hide ByteOf, ImageByte;
      var i := 0;
      while i < 4
        invariant i <= 4
        modifies memory
        invariant forall a: nat :: a < memory.Length ==>
                    memory[a] == if edi <= a < edi + i then ByteOf(value, a - edi) else old(memory[a])
      {
        memory[edi + i] := ByteOf(value, i);
        i := i + 1;
      }
      edi := edi + 4;
      eip := (eip + 1) % U32;
    }

    /** execInst on the instruction behind a prefix. Not ok: an opcode other than insd, whose effect is not modelled. */
    method ExecPlain() returns (ok: bool)
      requires eip < memory.Length && edi + 4 <= PHYSTOP <= memory.Length
      modifies this, memory
      ensures ok <==> old(memory[eip]) == INSD
      ensures ok ==> edi == old(edi) + 4 && pos == old(pos) + 4 && ecx == old(ecx) && eip == (old(eip) + 1) % U32
      ensures ok ==> forall a: nat :: a < memory.Length ==>
                memory[a] == if old(edi) <= a < old(edi) + 4 then ImageByte(image, old(pos) + (a - old(edi)))
                else old(memory[a])
    {
      ok := memory[eip] == INSD;
      if ok {
        Insd();
      }
    }

    /** execInst at the rep prefix: the byte behind it decides what is repeated. */
    method RepStep() returns (ok: bool)
      requires eip + 1 < memory.Length && eip < U32 - 2 && memory[eip] == REP && edi + 4 <= PHYSTOP <= memory.Length
      modifies this, memory
      ensures ok <==> old(ecx) == 0 || old(memory[eip + 1]) == INSD
      ensures old(ecx) == 0 ==>
                ecx == 0 && eip == old(eip) + 2 && edi == old(edi) && pos == old(pos) && memory[..] == old(memory[..])
      ensures ok && old(ecx) > 0 ==>
                && ecx == old(ecx) - 1 && edi == old(edi) + 4 && pos == old(pos) + 4
                && eip == old(eip) + (if old(ecx) > 1 then 0 else 2)
                && forall a: nat :: a < memory.Length ==>
                     memory[a] == if old(edi) <= a < old(edi) + 4 then ImageByte(image, old(pos) + (a - old(edi)))
                     else old(memory[a])
    {
      ok := true;
      var n := ecx;
      if n > 1 {
        eip := eip + 1;
        ok := ExecPlain();
        if ok {
          ecx := ecx - 1;
          eip := eip - 2;
        }
      } else if n == 1 {
        eip := eip + 1;
        ok := ExecPlain();
        if ok {
          ecx := ecx - 1;
        }
      } else {
        eip := eip + 2;
      }
    }

    /** insl(0x1F0, dst, cnt): run the rep loop to its end. */
    method Insl(dst: uint32, cnt: uint32)
      requires Intact() && ins < U32 - 2 && 0 < cnt && dst + 4 * cnt <= PHYSTOP <= memory.Length
               && Clear(dst, 4 * cnt, ins)
      modifies this, memory
      ensures eip == ins + 2 && Intact()
      ensures Loaded(old(memory[..]), memory[..], dst, 4 * cnt, image, old(pos))
    {
      eip, edi, ecx := ins, dst, cnt;
      ghost var start, before := pos, memory[..];
      hide ImageByte;
      while ecx > 0
        invariant ecx <= cnt && edi == dst + 4 * (cnt - ecx) && pos == start + 4 * (cnt - ecx)
        invariant Intact() && eip == if ecx > 0 then ins else ins + 2
        invariant forall a: nat :: a < memory.Length ==>
                    memory[a] == if dst <= a < edi then ImageByte(image, start + (a - dst)) else before[a]
      {
        var ok := RepStep();
        assert ok;
      }
    }

    /** readsect: sector offset of the disk goes to dst. */
    method Readsect(dst: uint32, offset: uint32)
      requires Intact() && ins < U32 - 2 && dst + SECTSIZE <= PHYSTOP <= memory.Length && Clear(dst, SECTSIZE, ins)
      modifies this, memory
      ensures Intact()
      ensures Loaded(old(memory[..]), memory[..], dst, SECTSIZE, image, offset % SECTORS * SECTSIZE)
    {
      var _ := In8(0x1F7);
      Out8(0x1F2, 1);
      Out8(0x1F3, offset % 0x100);
      Out8(0x1F4, offset / 0x100 % 0x100);
      Out8(0x1F5, offset / 0x1_0000 % 0x100);
      Out8(0x1F6, 0xE0 + offset / 0x100_0000 % 0x20);
      Out8(0x1F7, 0x20);
      PortsAddUp(offset);
      assert pos == offset % SECTORS * SECTSIZE;
      var _ := In8(0x1F7);
      Insl(dst, SECTSIZE / 4);
    }

    /** readseg: count bytes of the kernel from offset on go to pa. The kernel starts at sector 1. */
    method Readseg(pa: uint32, count: uint32, offset: uint32)
      requires Intact() && ins < U32 - 2 && offset % SECTSIZE <= pa
      requires pa + count + SECTSIZE - 1 <= PHYSTOP <= memory.Length
               && Clear(pa - offset % SECTSIZE, Span(offset, count), ins)
      requires (offset + count) / SECTSIZE + 1 < SECTORS
      modifies this, memory
      ensures Intact()
      ensures forall a: nat :: pa <= a < pa + count ==> memory[a] == ImageByte(image, SECTSIZE + offset + (a - pa))
      ensures forall a: nat ::
                a < memory.Length && !(pa - offset % SECTSIZE <= a < pa - offset % SECTSIZE + Span(offset, count)) ==>
                  memory[a] == old(memory[a])
    {
      var epa := pa + count;
      var p, s := pa - offset % SECTSIZE, offset / SECTSIZE + 1;
      ghost var lo, s0, before, j := p, s, memory[..], 0;
      SpanFits(offset, count);
      hide ImageByte, Intact;
      while p < epa
        invariant Intact() && p == lo + SECTSIZE * j && s == s0 + j && SECTSIZE * j <= Span(offset, count)
        invariant Loaded(before, memory[..], lo, SECTSIZE * j, image, s0 * SECTSIZE)
        decreases epa - p
      {
        ghost var mid := memory[..];
        NextSector(offset, count, j);
        Readsect(p, s);
        LoadedOn(before, mid, memory[..], lo, j, image, s0);
        p, s := p + SECTSIZE, s + 1;
        j := j + 1;
      }
    }
  }

  /** Bytes that readseg writes: whole sectors, from the boundary before offset. */
  function Span(offset: nat, count: nat): nat { (offset % SECTSIZE + count + SECTSIZE - 1) / SECTSIZE * SECTSIZE }

  lemma {:induction false} SpanFits(offset: nat, count: nat)
    ensures offset % SECTSIZE + count <= Span(offset, count) < offset % SECTSIZE + count + SECTSIZE
  {
  }

  lemma {:induction false} NextSector(offset: nat, count: nat, j: nat)
    requires SECTSIZE * j < offset % SECTSIZE + count && (offset + count) / SECTSIZE + 1 < SECTORS
    ensures SECTSIZE * (j + 1) <= Span(offset, count) && offset / SECTSIZE + 1 + j < SECTORS
  {
    assert offset == SECTSIZE * (offset / SECTSIZE) + offset % SECTSIZE;
    assert SECTSIZE * (offset / SECTSIZE + j) < offset + count;
  }

  lemma {:induction false} LoadedOn(before: seq<byte>, mid: seq<byte>, now: seq<byte>, lo: nat, j: nat,
                                    image: seq<byte>, s0: nat)
    requires Loaded(before, mid, lo, SECTSIZE * j, image, s0 * SECTSIZE)
    requires Loaded(mid, now, lo + SECTSIZE * j, SECTSIZE, image, (s0 + j) % SECTORS * SECTSIZE) && s0 + j < SECTORS
    ensures Loaded(before, now, lo, SECTSIZE * (j + 1), image, s0 * SECTSIZE)
  {
    hide ImageByte;
    assert (s0 + j) % SECTORS * SECTSIZE == s0 * SECTSIZE + SECTSIZE * j;
  }

  /** The n bytes at dst do not touch the two bytes of the instruction. */
  predicate Clear(dst: nat, n: nat, eip: nat) { dst + n <= eip || eip + 2 <= dst }

  /** Memory now holds the image's bytes from start on in the n bytes at dst, and is otherwise as before. */
  ghost predicate Loaded(before: seq<byte>, now: seq<byte>, dst: nat, n: nat, image: seq<byte>, start: nat) {
    && |now| == |before|
    && forall a: nat :: a < |now| ==>
        now[a] == if dst <= a < dst + n then ImageByte(image, start + (a - dst)) else before[a]
  }
}
