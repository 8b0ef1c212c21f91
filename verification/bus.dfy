/**
 * The PET 2001 memory bus: RAM below `ramsize`, the 14K ROM split around the I/O
 * window, video RAM and the I/O chips. The bus is an immutable record; `Read` and
 * `Write` say which store answers or which device a write is handed to.
 */
module Bus {
  import opened Common

  const VidramAddr: int := 0x8000
  const VidramSize: int := 0x0400
  const IoAddr: int := 0xE800
  const IoSize: int := 0x0800
  const RomAddr: int := 0xC000
  const RomSize: int := 0x3800
  const MaxRamSize: int := 0x8000

  /**
   * A JavaScript array of bytes: a cell that was never assigned, or was assigned
   * `undefined`, is absent from the map.
   */
  type Cells = map<int, byte>

  /** `a[k]`: the cell's byte, or None for `undefined`. */
  function Get(m: Cells, k: int): (r: Option<byte>)
    ensures r.Some? <==> k in m
    ensures r.Some? ==> r.value == m[k]
  {
    if k in m then Some(m[k]) else None
  }

  /** `a[k] = v` where `v` may be `undefined`. */
  function Put(m: Cells, k: int, v: Option<byte>): (r: Cells)
    ensures Get(r, k) == v
    ensures forall j :: j != k ==> Get(r, j) == Get(m, j)
  {
    match v
      case Some(b) => m[k := b]
      case None => m - {k}
  }

  /** The bus state: RAM and ROM arrays, the RAM size and the two interrupt lines. */
  datatype Hw = Hw(ram: Cells, rom: Cells, ramsize: nat, irq: nat, nmi: nat)

  /** The state the constructor leaves: empty arrays, 8K of RAM, no interrupt. */
  const PowerOn: Hw := Hw(map[], map[], 8192, 0, 0)

  /**
   * The answer to a read: a byte (None for an unassigned cell), or a read handed to
   * video RAM or to the I/O chips at an offset into their window.
   */
  datatype Reading = Value(v: Option<byte>) | VideoRead(offset: int) | IoRead(offset: int)

  /**
   * `read(addr)`: RAM below `ramsize` first, then the ROM below the I/O window, the ROM
   * above it, video RAM, the I/O window, and 0x55 for every other address. RAM shadows
   * every window, so a read is only handed on above `ramsize`, inside the window's bounds.
   */
  function Read(hw: Hw, addr: int): (r: Reading)
    ensures r.VideoRead? ==> hw.ramsize <= addr && 0 <= r.offset < VidramSize && addr == VidramAddr + r.offset
    ensures r.IoRead? ==> hw.ramsize <= addr && 0 <= r.offset < IoSize && addr == IoAddr + r.offset
  {
    if addr < hw.ramsize then Value(Get(hw.ram, addr))
    else if RomAddr <= addr < IoAddr then Value(Get(hw.rom, addr - RomAddr))
    else if addr >= IoAddr + IoSize then Value(Get(hw.rom, addr - RomAddr - IoSize))
    else if VidramAddr <= addr < VidramAddr + VidramSize then VideoRead(addr - VidramAddr)
    else if IoAddr <= addr < IoAddr + IoSize then IoRead(addr - IoAddr)
    else Value(Some(0x55))
  }

  /** The regions of the 64K address space, in ascending address order. */
  datatype Region = RamRegion | Unused | VideoRegion | LowRom | IoRegion | HighRom

  /**
   * The memory map as disjoint address ranges, for a RAM size of at most 32K: RAM, then
   * nothing up to video RAM, video RAM, nothing up to the ROM, the ROM below the I/O
   * window, the I/O window, and the ROM above it.
   */
  function RegionOf(ramsize: nat, addr: int): Region
    requires ramsize <= MaxRamSize && 0 <= addr < 0x10000
  {
    if addr < ramsize then RamRegion
    else if addr < 0x8000 then Unused
    else if addr < 0x8400 then VideoRegion
    else if addr < 0xC000 then Unused
    else if addr < 0xE800 then LowRom
    else if addr < 0xF000 then IoRegion
    else HighRom
  }

  /**
   * With at most 32K of RAM the precedence of `read` never matters: each address lies in
   * one region, which answers it. ROM cell `k` shows at 0xC000 + k below the I/O window
   * and at 0xC800 + k above it, so the 14K ROM fills 0xC000-0xE7FF and 0xF000-0xFFFF.
   */
  lemma ReadByRegion(hw: Hw, addr: int)
    requires hw.ramsize <= MaxRamSize && 0 <= addr < 0x10000
    ensures Read(hw, addr) == match RegionOf(hw.ramsize, addr)
      case RamRegion => Value(Get(hw.ram, addr))
      case Unused => Value(Some(0x55))
      case VideoRegion => VideoRead(addr - 0x8000)
      case LowRom => Value(Get(hw.rom, addr - 0xC000))
      case IoRegion => IoRead(addr - 0xE800)
      case HighRom => Value(Get(hw.rom, addr - 0xC800))
  {
  }

  /** RAM beyond 32K shadows video RAM and the ROM: whatever lies below `ramsize` is RAM. */
  lemma RamShadows(hw: Hw, addr: int)
    requires addr < hw.ramsize
    ensures Read(hw, addr) == Value(Get(hw.ram, addr))
  {
  }

  /** Where a write goes: stored in RAM, handed to video RAM or the I/O chips, or dropped. */
  datatype Effect = Stored | VideoWrite(offset: int, value: byte) | IoWrite(offset: int, value: byte) | Dropped

  datatype Written = Written(hw: Hw, effect: Effect)

  /**
   * `write(addr, d8)`: RAM below `ramsize`, else video RAM or the I/O window; writes to
   * the ROM and to unused addresses are dropped.
   */
  function Write(hw: Hw, addr: int, d: byte): (w: Written)
    ensures w.effect == Stored <==> addr < hw.ramsize
    ensures w.effect != Stored ==> w.hw == hw
  {
    if addr < hw.ramsize then Written(hw.(ram := hw.ram[addr := d]), Stored)
    else if VidramAddr <= addr < VidramAddr + VidramSize then Written(hw, VideoWrite(addr - VidramAddr, d))
    else if IoAddr <= addr < IoAddr + IoSize then Written(hw, IoWrite(addr - IoAddr, d))
    else Written(hw, Dropped)
  }

  /**
   * After a RAM write the cell reads back the byte, and every other address reads as
   * before: no other RAM cell, no ROM cell, no device answer changes.
   */
  lemma ReadAfterWrite(hw: Hw, addr: int, d: byte, other: int)
    requires addr < hw.ramsize && other != addr
    ensures Read(Write(hw, addr, d).hw, addr) == Value(Some(d))
    ensures Read(Write(hw, addr, d).hw, other) == Read(hw, other)
  {
  }

  /** Writes to the ROM regions (above `ramsize`) are dropped and leave every read unchanged. */
  lemma RomIsReadOnly(hw: Hw, addr: int, d: byte, other: int)
    requires hw.ramsize <= addr && RomAddr <= addr < 0x10000
    requires !(IoAddr <= addr < IoAddr + IoSize)
    ensures Write(hw, addr, d) == Written(hw, Dropped)
    ensures Read(Write(hw, addr, d).hw, other) == Read(hw, other)
  {
  }

  /** The byte `reset` leaves in RAM cell `k`: 0x44 in every cell. */
  function ResetPattern(k: int): byte
  {
    0x44
  }

  /** The 32K of RAM cells `reset` fills with 0x44, whatever `ramsize` is. */
  function ResetFill(): (m: Cells)
    ensures forall k :: k in m <==> 0 <= k < MaxRamSize
    ensures forall k :: k in m ==> m[k] == 0x44
  {
    map k | 0 <= k < MaxRamSize :: ResetPattern(k)
  }

  /**
   * `reset`: every one of the 0x8000 RAM cells becomes 0x44 and both interrupt lines
   * drop; `ramsize`, the ROM and any cell past 32K stay.
   */
  function Reset(hw: Hw): (r: Hw)
    ensures r.ramsize == hw.ramsize && r.rom == hw.rom && r.irq == 0 && r.nmi == 0
  {
    hw.(ram := hw.ram + ResetFill(), irq := 0, nmi := 0)
  }

  /** After a reset every RAM address below both `ramsize` and 32K reads 0x44. */
  lemma ResetReads(hw: Hw, addr: int)
    ensures 0 <= addr < MaxRamSize ==> Get(Reset(hw).ram, addr) == Some(0x44)
    ensures 0 <= addr < MaxRamSize && addr < hw.ramsize ==> Read(Reset(hw), addr) == Value(Some(0x44))
    ensures !(0 <= addr < MaxRamSize) ==> Get(Reset(hw).ram, addr) == Get(hw.ram, addr)
  {
  }

  /** `setRamsize`: only the size changes; RAM keeps its contents. */
  function SetRamsize(hw: Hw, size: nat): (r: Hw)
    ensures r.ramsize == size
  {
    hw.(ramsize := size)
  }

  /**
   * Growing or shrinking RAM keeps every cell: addresses below both sizes read as before,
   * and shrinking then growing back brings the old contents back.
   */
  lemma ResizeKeepsRam(hw: Hw, size: nat, addr: int)
    ensures SetRamsize(hw, size).ram == hw.ram
    ensures addr < size && addr < hw.ramsize ==> Read(SetRamsize(hw, size), addr) == Read(hw, addr)
    ensures SetRamsize(SetRamsize(hw, size), hw.ramsize) == hw
  {
  }

  /** `src[j]` of a JavaScript array: None (`undefined`) past its end. */
  function Elem(src: seq<Option<byte>>, j: int): (r: Option<byte>)
    ensures 0 <= j < |src| ==> r == src[j]
    ensures !(0 <= j < |src|) ==> r == None
  {
    if 0 <= j < |src| then src[j] else None
  }

  /**
   * The copy loops of `writeRom` and `writeRam`: for `i <= j < len`, cell `at + j`
   * receives `src[j]`; every other cell keeps its value.
   */
  function CopyIn(m: Cells, at: int, src: seq<Option<byte>>, i: nat, len: int): (r: Cells)
    ensures forall k :: Get(r, k) == if at + i <= k < at + len then Elem(src, k - at) else Get(m, k)
    decreases len - i
  {
    if i >= len then m else CopyIn(Put(m, at + i, Elem(src, i)), at, src, i + 1, len)
  }

  /**
   * The ROM index of byte 0 of an image written at `addr`: above the I/O base the 2K
   * I/O window is skipped. The base address alone decides, compared with `>`.
   */
  function RomBase(addr: int): int
  {
    if addr > IoAddr then addr - RomAddr - IoSize else addr - RomAddr
  }

  /** `writeRom(addr, romdata, len)`: the image's bytes into consecutive ROM cells. */
  function WriteRom(hw: Hw, addr: int, romdata: seq<Option<byte>>, len: int): (r: Hw)
    ensures r.ram == hw.ram && r.ramsize == hw.ramsize && r.irq == hw.irq && r.nmi == hw.nmi
  {
    hw.(rom := CopyIn(hw.rom, RomBase(addr), romdata, 0, len))
  }

  /**
   * An image written wholly inside one ROM region, above `ramsize`, reads back at the
   * addresses it was written to.
   */
  lemma RomReadsBack(hw: Hw, addr: int, romdata: seq<Option<byte>>, len: int, i: int)
    requires hw.ramsize <= addr
    requires (RomAddr <= addr && addr + len <= IoAddr) || (IoAddr + IoSize <= addr && addr + len <= 0x10000)
    requires 0 <= i < len
    ensures Read(WriteRom(hw, addr, romdata, len), addr + i) == Value(Elem(romdata, i))
  {
  }

  /**
   * A 14K ROM image written at 0xC000 fills 0xC000-0xE7FF with its first 10K and
   * 0xF000-0xFFFF with its last 4K; the I/O window between them still reaches the chips.
   */
  lemma FullRomImage(hw: Hw, romdata: seq<Option<byte>>, j: int)
    requires hw.ramsize <= RomAddr && |romdata| == RomSize
    ensures var r := WriteRom(hw, RomAddr, romdata, RomSize);
      && (0 <= j < 0x2800 ==> Read(r, 0xC000 + j) == Value(romdata[j]))
      && (0 <= j < 0x0800 ==> Read(r, 0xE800 + j) == IoRead(j))
      && (0 <= j < 0x1000 ==> Read(r, 0xF000 + j) == Value(romdata[0x2800 + j]))
  {
  }

  /**
   * An image written at exactly 0xE800 is not moved past the I/O window (the test is
   * `>`): it lands at ROM index 0x2800, so it reads back from 0xF000 and not from 0xE800.
   */
  lemma RomAtIoBase(hw: Hw, romdata: seq<Option<byte>>, len: int, i: int)
    requires hw.ramsize <= IoAddr && 0 <= i < len && i < 0x0800
    ensures Read(WriteRom(hw, IoAddr, romdata, len), IoAddr + i) == IoRead(i)
    ensures Read(WriteRom(hw, IoAddr, romdata, len), 0xF000 + i) == Value(Elem(romdata, i))
  {
  }

  /** `readRam(addr, data, len)`: the `len` RAM cells from `addr` on, in order. */
  function ReadRam(hw: Hw, addr: int, len: int): (r: seq<Option<byte>>)
    ensures |r| == if len > 0 then len else 0
    ensures forall i :: 0 <= i < |r| ==> r[i] == Get(hw.ram, addr + i)
  {
    seq(if len > 0 then len else 0, i => Get(hw.ram, addr + i))
  }

  /** `writeRam(addr, data, len)`: `data[i]` into RAM cell `addr + i` for `i < len`. */
  function WriteRam(hw: Hw, addr: int, data: seq<Option<byte>>, len: int): (r: Hw)
    ensures r.rom == hw.rom && r.ramsize == hw.ramsize && r.irq == hw.irq && r.nmi == hw.nmi
  {
    hw.(ram := CopyIn(hw.ram, addr, data, 0, len))
  }

  /**
   * Writing a block and reading it back gives the block; no cell outside it changes;
   * and writing back what was read changes nothing.
   */
  lemma RamCopiesRoundTrip(hw: Hw, addr: int, data: seq<Option<byte>>, k: int)
    ensures ReadRam(WriteRam(hw, addr, data, |data|), addr, |data|) == data
    ensures !(addr <= k < addr + |data|) ==> Get(WriteRam(hw, addr, data, |data|).ram, k) == Get(hw.ram, k)
    ensures WriteRam(hw, addr, ReadRam(hw, addr, |data|), |data|) == hw
  {
    var w := WriteRam(hw, addr, data, |data|);
    var back := ReadRam(w, addr, |data|);
    assert forall i :: 0 <= i < |data| ==> back[i] == data[i];
    var same := WriteRam(hw, addr, ReadRam(hw, addr, |data|), |data|);
    assert same.ram.Keys == hw.ram.Keys by {
      forall j ensures j in same.ram.Keys <==> j in hw.ram.Keys {
        assert Get(same.ram, j) == Get(hw.ram, j);
      }
    }
    assert same.ram == hw.ram by {
      forall j | j in hw.ram ensures same.ram[j] == hw.ram[j] {
        assert Get(same.ram, j) == Get(hw.ram, j);
      }
    }
  }
}
