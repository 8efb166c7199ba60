/** The SPI flash: the driver (firmware/common/w25q80bv.c), the requests
    (firmware/hackrf_usb/usb_api_spiflash.c) and the host tool (host/libhackrf/src/hackrf.c,
    host/hackrf-tools/src/hackrf_spiflash.c). */
module SpiFlash {

  const PAGE_LEN := 256
  const NUM_BYTES := 0x10_0000

  predicate InPage(addr: nat, k: nat) {
    k / PAGE_LEN == addr / PAGE_LEN
  }

  /** Byte i of a command falls in one place of the page. */
  lemma Wrapped(addr: nat, i: nat)
    requires i < PAGE_LEN && addr < NUM_BYTES
    ensures var at := addr / PAGE_LEN * PAGE_LEN + (addr + i) % PAGE_LEN;
            && at < NUM_BYTES
            && forall k: nat :: InPage(addr, k) && (k - addr) % PAGE_LEN == i <==> k == at
  {
  }

  /** The chip: erasing sets all bits, programming only clears them, and addresses wrap inside a page. */
  class Chip {
    const mem: array<bv8>

    ghost predicate Valid()
      reads this
    {
      mem.Length == NUM_BYTES
    }

    constructor ()
      ensures Valid() && fresh(mem)
    {
      mem := new bv8[NUM_BYTES];
    }

    method ChipErase()
      requires Valid()
      modifies mem
      ensures forall k :: 0 <= k < NUM_BYTES ==> mem[k] == 0xFF
    {
      for i := 0 to NUM_BYTES
        invariant forall k :: 0 <= k < i ==> mem[k] == 0xFF
      {
        mem[i] := 0xFF;
      }
    }

    /** The page program command. */
    method PageProgramCommand(addr: nat, data: seq<bv8>)
      requires Valid() && addr < NUM_BYTES && |data| <= PAGE_LEN
      modifies mem
      ensures forall k :: 0 <= k < NUM_BYTES ==>
                mem[k] == if InPage(addr, k) && (k - addr) % PAGE_LEN < |data|
                          then old(mem[k]) & data[(k - addr) % PAGE_LEN] else old(mem[k])
    {
      var page := addr / PAGE_LEN * PAGE_LEN;
      hide InPage;
      for i := 0 to |data|
        invariant forall k :: 0 <= k < NUM_BYTES ==>
                    mem[k] == if InPage(addr, k) && (k - addr) % PAGE_LEN < i
                              then old(mem[k]) & data[(k - addr) % PAGE_LEN] else old(mem[k])
      {
        var k := page + (addr + i) % PAGE_LEN;
        Wrapped(addr, i);
        mem[k] := mem[k] & data[i];
      }
    }
  }

  /** What programming a block leaves: bits cleared in the block, nothing else changed. */
  twostate predicate Programmed(chip: Chip, addr: nat, data: seq<bv8>)
    requires chip.Valid()
    reads chip, chip.mem
  {
    forall k :: 0 <= k < NUM_BYTES ==>
      chip.mem[k] == if addr <= k < addr + |data| then old(chip.mem[k]) & data[k - addr] else old(chip.mem[k])
  }

  lemma NoWrap(addr: nat, len: nat, k: nat)
    requires addr % PAGE_LEN + len <= PAGE_LEN
    ensures InPage(addr, k) && (k - addr) % PAGE_LEN < len <==> addr <= k < addr + len
    ensures addr <= k < addr + len ==> (k - addr) % PAGE_LEN == k - addr
  {
  }

  /** Up to a page; nothing is done across a page boundary or the end of the flash. */
  method PageProgram(chip: Chip, addr: nat, data: seq<bv8>) returns (done: bool)
    requires chip.Valid() && addr <= NUM_BYTES && |data| <= NUM_BYTES
    modifies chip.mem
    ensures done <==> addr % PAGE_LEN + |data| <= PAGE_LEN && addr + |data| <= NUM_BYTES
    ensures if done then Programmed(chip, addr, data) else unchanged(chip.mem)
  {
    if addr % 0x100 + |data| > PAGE_LEN {
      return false;
    }
    if addr > NUM_BYTES - |data| {
      return false;
    }
    if addr == NUM_BYTES {
      return true; // no bytes
    }
    forall k: nat
      ensures InPage(addr, k) && (k - addr) % PAGE_LEN < |data| <==> addr <= k < addr + |data|
      ensures addr <= k < addr + |data| ==> (k - addr) % PAGE_LEN == k - addr
    {
      NoWrap(addr, |data|, k);
    }
    hide InPage;
    chip.PageProgramCommand(addr, data);
    return true;
  }

  /** The first n bytes of a block are programmed. */
  ghost predicate SoFar(mem: seq<bv8>, was: seq<bv8>, addr: nat, data: seq<bv8>, n: nat)
    requires |mem| == |was| == NUM_BYTES && n <= |data|
  {
    forall k :: 0 <= k < NUM_BYTES ==> mem[k] == if addr <= k < addr + n then was[k] & data[k - addr] else was[k]
  }

  /** The next piece, inside one page: its page program is done. */
  method ProgramPiece(chip: Chip, addr: nat, piece: seq<bv8>, ghost was: seq<bv8>, ghost addr0: nat,
                      ghost data: seq<bv8>, ghost at: nat)
    requires chip.Valid() && |was| == NUM_BYTES && at + |piece| <= |data| && piece == data[at..at + |piece|]
    requires addr == addr0 + at && addr % PAGE_LEN + |piece| <= PAGE_LEN && addr + |piece| <= NUM_BYTES
    requires SoFar(chip.mem[..], was, addr0, data, at)
    modifies chip.mem
    ensures SoFar(chip.mem[..], was, addr0, data, at + |piece|)
  {
    var done := PageProgram(chip, addr, piece);
    assert done;
  }

  /** Any number of bytes: up to the page boundary, then whole pages, then the rest. */
  method Program(chip: Chip, addr0: nat, data: seq<bv8>)
    requires chip.Valid()
    modifies chip.mem
    ensures if addr0 + |data| <= NUM_BYTES then Programmed(chip, addr0, data) else unchanged(chip.mem)
  {
    if |data| > NUM_BYTES || addr0 > NUM_BYTES || addr0 + |data| > NUM_BYTES {
      return;
    }
    ghost var was := chip.mem[..];
    assert SoFar(chip.mem[..], was, addr0, data, 0);
    ProgramPieces(chip, addr0, data, was);
  }

  method ProgramPieces(chip: Chip, addr0: nat, data: seq<bv8>, ghost was: seq<bv8>)
    requires chip.Valid() && addr0 + |data| <= NUM_BYTES == |was| && SoFar(chip.mem[..], was, addr0, data, 0)
    modifies chip.mem
    ensures SoFar(chip.mem[..], was, addr0, data, |data|)
  {
    hide SoFar;
    var addr, at := addr0, 0;
    var firstBlockLen := PAGE_LEN - addr % PAGE_LEN;
    if |data| < firstBlockLen {
      firstBlockLen := |data|;
    }
    if firstBlockLen != 0 {
      ProgramPiece(chip, addr, data[..firstBlockLen], was, addr0, data, at);
      addr, at := addr + firstBlockLen, firstBlockLen;
    }
    while |data| - at >= PAGE_LEN
      invariant at <= |data| && addr == addr0 + at && (at < |data| ==> addr % PAGE_LEN == 0)
      invariant SoFar(chip.mem[..], was, addr0, data, at)
    {
      ProgramPiece(chip, addr, data[at..at + PAGE_LEN], was, addr0, data, at);
      addr, at := addr + PAGE_LEN, at + PAGE_LEN;
    }
    if at != |data| {
      ProgramPiece(chip, addr, data[at..], was, addr0, data, at);
    }
  }

  method Read(chip: Chip, addr: nat, len: nat, buffer: seq<bv8>) returns (data: seq<bv8>)
    requires chip.Valid() && len <= |buffer|
    ensures |data| == |buffer|
    ensures data == if addr + len <= NUM_BYTES then chip.mem[addr..addr + len] + buffer[len..] else buffer
  {
    if len > NUM_BYTES || addr > NUM_BYTES || addr + len > NUM_BYTES {
      return buffer;
    }
    return chip.mem[addr..addr + len] + buffer[len..];
  }

  /** The device: the chip and the page buffer. */
  class Device {
    const chip: Chip
    var spiflashBuffer: seq<bv8>

    ghost predicate Valid()
      reads this, chip
    {
      chip.Valid() && |spiflashBuffer| == PAGE_LEN
    }

    constructor ()
      ensures Valid() && fresh(chip) && fresh(chip.mem)
    {
      chip := new Chip();
      spiflashBuffer := seq(PAGE_LEN, _ => 0);
    }

    method Erase()
      requires Valid()
      modifies chip.mem
      ensures Valid() && forall k :: 0 <= k < NUM_BYTES ==> chip.mem[k] == 0xFF
    {
      chip.ChipErase();
    }

    /** Both stages of a write request. */
    method WriteRequest(value: nat, index: nat, data: seq<bv8>) returns (stall: bool)
      requires Valid() && value < 0x1_0000 && index < 0x1_0000
      modifies this, chip.mem
      ensures Valid()
      ensures stall <==> |data| > PAGE_LEN || value * 0x1_0000 + index + |data| > NUM_BYTES
      ensures if stall then unchanged(chip.mem) else Programmed(chip, value * 0x1_0000 + index, data)
    {
      var addr := value * 0x1_0000 + index;
      if |data| > PAGE_LEN || addr > NUM_BYTES || addr + |data| > NUM_BYTES {
        return true;
      }
      spiflashBuffer := data + spiflashBuffer[|data|..];
      assert spiflashBuffer[..|data|] == data;
      Program(chip, addr, spiflashBuffer[..|data|]);
      return false;
    }

    /** The setup stage of a read request sends the buffer. */
    method ReadRequest(value: nat, index: nat, length: nat) returns (stall: bool, data: seq<bv8>)
      requires Valid() && value < 0x1_0000 && index < 0x1_0000
      modifies `spiflashBuffer
      ensures Valid()
      ensures stall <==> length > PAGE_LEN || value * 0x1_0000 + index + length > NUM_BYTES
      ensures !stall ==> data == chip.mem[value * 0x1_0000 + index..value * 0x1_0000 + index + length]
    {
      var addr := value * 0x1_0000 + index;
      data := [];
      if length > PAGE_LEN || addr > NUM_BYTES || addr + length > NUM_BYTES {
        return true, [];
      }
      spiflashBuffer := Read(chip, addr, length, spiflashBuffer);
      return false, spiflashBuffer[..length];
    }
  }

  /** The host library: addresses beyond the flash are refused before they are cut to 16 bits twice. */
  method HostWrite(device: Device, address: nat, data: seq<bv8>) returns (ok: bool)
    requires device.Valid()
    modifies device, device.chip.mem
    ensures device.Valid()
    ensures ok <==> address < NUM_BYTES && |data| <= PAGE_LEN && address + |data| <= NUM_BYTES
    ensures if ok then Programmed(device.chip, address, data) else unchanged(device.chip.mem)
  {
    if address > 0x0F_FFFF {
      return false;
    }
    var stall := device.WriteRequest(address / 0x1_0000 % 0x1_0000, address % 0x1_0000, data);
    return !stall;
  }

  method HostRead(device: Device, address: nat, length: nat) returns (ok: bool, data: seq<bv8>)
    requires device.Valid()
    modifies device
    ensures device.Valid()
    ensures ok <==> address < NUM_BYTES && length <= PAGE_LEN && address + length <= NUM_BYTES
    ensures ok ==> data == device.chip.mem[address..address + length]
  {
    if address > 0x0F_FFFF {
      return false, [];
    }
    var stall;
    stall, data := device.ReadRequest(address / 0x1_0000 % 0x1_0000, address % 0x1_0000, length);
    return !stall, data;
  }

  /** The tool writes a file in pieces of 256 bytes after erasing: done iff it fits. */
  method WriteFile(device: Device, address0: nat, file: seq<bv8>) returns (ok: bool)
    requires device.Valid() && file != []
    modifies device, device.chip.mem
    ensures device.Valid()
    ensures ok <==> address0 + |file| <= NUM_BYTES
    ensures ok ==> forall k :: 0 <= k < NUM_BYTES ==>
              device.chip.mem[k] == if address0 <= k < address0 + |file| then file[k - address0] else 0xFF
  {
    device.Erase();
    var address, at := address0, 0;
    while at < |file|
      invariant at <= |file| && address == address0 + at && device.Valid()
      invariant at == |file| ==> address <= NUM_BYTES
      invariant forall k :: 0 <= k < NUM_BYTES ==>
                  device.chip.mem[k] == if address0 <= k < address then file[k - address0] else 0xFF
    {
      var xferLen := if |file| - at > 256 then 256 else |file| - at;
      ghost var was := device.chip.mem[..];
      var sent := HostWrite(device, address, file[at..at + xferLen]);
      if !sent {
        return false;
      }
      forall k | 0 <= k < NUM_BYTES
        ensures device.chip.mem[k] == if address0 <= k < address + xferLen then file[k - address0] else 0xFF
      {
        ErasedTakes(if address <= k < address + xferLen then file[k - address0] else 0);
      }
      address, at := address + xferLen, at + xferLen;
    }
    return true;
  }

  lemma ErasedTakes(b: bv8)
    ensures 0xFF & b == b
  {
  }

  /** The tool reads in pieces of 256 bytes. */
  method ReadFile(device: Device, address0: nat, length: nat) returns (ok: bool, file: seq<bv8>)
    requires device.Valid() && length > 0
    modifies device
    ensures device.Valid()
    ensures ok <==> address0 + length <= NUM_BYTES
    ensures ok ==> file == device.chip.mem[address0..address0 + length]
  {
    var address := address0;
    file := [];
    while |file| < length
      invariant |file| <= length && address == address0 + |file| && device.Valid()
      invariant |file| > 0 ==> address <= NUM_BYTES && file == device.chip.mem[address0..address]
    {
      var xferLen := if length - |file| > 256 then 256 else length - |file|;
      var got, data := HostRead(device, address, xferLen);
      if !got {
        return false, file;
      }
      file := file + data;
      address := address + xferLen;
    }
    return true, file;
  }

  /** What is written is read back, the rest of the flash is erased; a file that does not fit is refused. */
  method RoundTrip(device: Device, address: nat, file: seq<bv8>) returns (ok: bool, back: seq<bv8>)
    requires device.Valid() && file != []
    modifies device, device.chip.mem
    ensures ok <==> address + |file| <= NUM_BYTES
    ensures ok ==> back == file
    ensures ok ==> forall k :: 0 <= k < NUM_BYTES && !(address <= k < address + |file|) ==> device.chip.mem[k] == 0xFF
  {
    ok := WriteFile(device, address, file);
    back := [];
    if ok {
      ok, back := ReadFile(device, address, |file|);
    }
  }
}
