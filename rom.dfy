/** A ROM image (rom.py): read-only bytes mapped from `offset`, indexed
    relative to it.  Writes are ignored.  The image's first two bytes should be
    the 0x55 0xAA option-ROM signature; a missing signature is noticed but the
    image is used anyway.

    Loading the file is outside the model: an image is its byte sequence.
    The Python `GetAddressList` returns `((offset, len))`, which Python reads
    as one bare tuple rather than a list holding it; the model returns the
    one-segment list the memory bus iterates over. */
module Rom {

  datatype Rom = Rom(contents: seq<int>, offset: int)

  /** What the constructor ends with: the ROM and whether its image carries
      the 0x55 0xAA signature, or the IndexError of the signature test. */
  datatype Loaded = Loaded(rom: Rom, signed: bool) | HeaderIndexError

  /** The constructor.  The signature test reads byte 0 and, only when byte 0
      is 0x55, byte 1; an image too short for a byte it reads raises. */
  function Load(contents: seq<int>, offset: int): (r: Loaded)
    ensures r.HeaderIndexError? <==> |contents| == 0 || (|contents| == 1 && contents[0] == 0x55)
    ensures r.Loaded? ==> r.rom.contents == contents && r.rom.offset == offset
    ensures r.Loaded? ==> (r.signed <==> |contents| >= 2 && contents[0] == 0x55 && contents[1] == 0xaa)
  {
    if |contents| == 0 then HeaderIndexError
    else if contents[0] != 0x55 then Loaded(Rom(contents, offset), false)
    else if |contents| == 1 then HeaderIndexError
    else Loaded(Rom(contents, offset), contents[1] == 0xaa)
  }

  /** Inside the mapped range [offset, offset + |contents|). */
  predicate Maps(rom: Rom, address: int) {
    rom.offset <= address < rom.offset + |rom.contents|
  }

  function ReadByte(rom: Rom, address: int): (r: int)
    requires Maps(rom, address)
    ensures r == rom.contents[address - rom.offset]
  {
    rom.contents[address - rom.offset]
  }

  /** Writing to ROM leaves the image as it was. */
  function WriteByte(rom: Rom, address: int, v: int): (r: Rom)
    ensures r == rom
  {
    rom
  }

  function GetAddressList(rom: Rom): (r: seq<(int, int)>)
    ensures r == [(rom.offset, |rom.contents|)]
  {
    [(rom.offset, |rom.contents|)]
  }

  /** Each byte of the image is readable at offset + i, and no write changes
      what is read there. */
  lemma ReadsImage(rom: Rom, i: int, address: int, v: int)
    requires 0 <= i < |rom.contents|
    ensures Maps(rom, rom.offset + i)
    ensures ReadByte(WriteByte(rom, address, v), rom.offset + i) == rom.contents[i]
  {
  }

  function IO_Read(rom: Rom, port: int): (r: int)
    ensures r == 0xff
  {
    0xff
  }

  function IO_Write(rom: Rom, port: int, value: int): (r: bool)
    ensures !r
  {
    false
  }

  function GetIRQNumber(rom: Rom): (r: int)
    ensures r == -1
  {
    -1
  }

  function Ticks(rom: Rom): (r: bool)
    ensures !r
  {
    false
  }
}
