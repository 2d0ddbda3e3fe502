/** The monochrome display adapter (mda.py): 16 KiB of video memory seen
    through the 32 KiB window at 0xb0000 (so the window holds the memory
    twice), ports 0x3b0..0x3bf of which only the status port 0x3ba answers
    (its horizontal-sync bits toggle on every read), and the 80x25 text
    screen: every memory write inside the first 4000 bytes redraws one cell
    from a character byte and the attribute byte after it.

    The terminal output is left to the caller: a write returns the cell it
    redraws, as a DisplayCell value. */
module Mda {
  import opened Bits

  const WINDOW_BASE: int := 0xb0000
  const WINDOW_SIZE: int := 0x8000
  const RAM_SIZE: int := 0x4000
  const COLUMNS: int := 80
  const ROWS: int := 25
  /** Bytes of memory the text screen shows: two per cell. */
  const SCREEN_BYTES: int := 80 * 25 * 2

  /** The video-memory index a bus address selects: `(a - 0xb0000) & 0x3fff`. */
  function Offset(address: int): (o: int)
    ensures 0 <= o < RAM_SIZE
  {
    (address - WINDOW_BASE) % RAM_SIZE
  }

  /** The two halves of the window show the same memory. */
  lemma WindowMirrors(address: int)
    requires WINDOW_BASE <= address < WINDOW_BASE + RAM_SIZE
    ensures Offset(address + RAM_SIZE) == Offset(address) == address - WINDOW_BASE
  {
  }

  /** Addresses RAM_SIZE apart select the same byte. */
  lemma OffsetPeriodic(address: int)
    ensures Offset(address + RAM_SIZE) == Offset(address)
  {
    var o := address - WINDOW_BASE;
    assert o + RAM_SIZE == (o / RAM_SIZE + 1) * RAM_SIZE + o % RAM_SIZE;
  }

  /** A cell the terminal redraws: column, row, character and attribute. */
  datatype DisplayCell = DisplayCell(x: int, y: int, character: int, attributes: int)

  datatype Option<T> = None | Some(value: T)

  /** UpdateConsole as written: the character is taken at the written offset
      itself and the attribute right after it, whether the offset is a
      character (even) or an attribute (odd) position. */
  function CellAsWritten(ram: seq<int>, offset: int): (r: Option<DisplayCell>)
    requires |ram| == RAM_SIZE && 0 <= offset < RAM_SIZE
    ensures offset >= SCREEN_BYTES <==> r.None?
    ensures r.Some? ==> r.value.character == ram[offset] && r.value.attributes == ram[offset + 1]
  {
    if offset >= SCREEN_BYTES then None
    else Some(DisplayCell((offset % 160) / 2, offset / 160, ram[offset], ram[offset + 1]))
  }

  /** Writing an attribute byte (an odd offset) redraws the cell with the
      attribute as its character and the next cell's character as its
      attribute. */
  lemma AttributeWriteShowsWrongPair(ram: seq<int>)
    requires |ram| == RAM_SIZE && ram[0] == 0x41 && ram[1] == 0x07 && ram[2] == 0x42
    ensures CellAsWritten(ram, 1) == Some(DisplayCell(0, 0, 0x07, 0x42))
  {
  }

  /** UpdateConsole as intended: the cell of the written offset, from its
      character byte (the even offset) and its attribute byte. */
  function Cell(ram: seq<int>, offset: int): (r: Option<DisplayCell>)
    requires |ram| == RAM_SIZE && 0 <= offset < RAM_SIZE
    ensures offset >= SCREEN_BYTES <==> r.None?
    ensures offset % 2 == 0 ==> r == CellAsWritten(ram, offset)
  {
    if offset >= SCREEN_BYTES then None
    else
      var base := offset - offset % 2;
      Some(DisplayCell((offset % 160) / 2, offset / 160, ram[base], ram[base + 1]))
  }

  /** Whichever byte of a screen cell is written, the cell redrawn is the
      one at column x and row y, with that cell's character and attribute. */
  lemma CellIsThePair(ram: seq<int>, x: int, y: int, half: int)
    requires |ram| == RAM_SIZE && 0 <= x < COLUMNS && 0 <= y < ROWS && 0 <= half < 2
    ensures var o := y * 160 + 2 * x;
            Cell(ram, o + half) == Some(DisplayCell(x, y, ram[o], ram[o + 1]))
  {
    var o := y * 160 + 2 * x;
    assert (o + half) % 160 == 2 * x + half;
    assert (o + half) / 160 == y;
  }

  /** The palette EmulateTextDisplay uses: the adapter's colour number to
      the terminal's (bits 0 and 2 swap places). */
  const COLORMAP: seq<int> := [0, 4, 2, 6, 1, 5, 3, 7]

  /** The terminal colours an attribute selects: r.0, from bits 4-6, is sent
      as the terminal's background (SGR 40 + r.0), r.1, from bits 0-2, as its
      foreground (SGR 30 + r.1), and bit 3 selects bright.  The adapter too
      takes the background from bits 4-6; the source's local names `fg` and
      `bg` have the roles the other way round. */
  function Colours(attributes: int): (r: (int, int, bool))
    ensures 0 <= r.0 < 8 && 0 <= r.1 < 8
    ensures r.0 == COLORMAP[(attributes / 16) % 8] && r.1 == COLORMAP[attributes % 8]
    ensures r.2 <==> HasBit(attributes, 8)
  {
    (COLORMAP[(attributes / 16) % 8], COLORMAP[attributes % 8], HasBit(attributes, 8))
  }

  /** The palette is its own inverse, so no two colours collide. */
  lemma PaletteInvolution()
    ensures forall c :: 0 <= c < 8 ==> 0 <= COLORMAP[c] < 8 && COLORMAP[COLORMAP[c]] == c
  {
  }

  /** The adapter. */
  class MDA {
    const ram: array<int>
    var hsync: bool
    var clock: int

    constructor ()
      ensures fresh(ram) && ram.Length == RAM_SIZE && (forall i :: 0 <= i < RAM_SIZE ==> ram[i] == 0xff)
      ensures !hsync && clock == 0
    {
      ram := new int[RAM_SIZE](_ => 0xff);
      hsync := false;
      clock := 0;
    }

    function GetIRQNumber(): (r: int)
      ensures r < 0
    { -1 }

    function RegisterDevice(): (ports: seq<int>)
      ensures forall p :: p in ports <==> 0x3b0 <= p < 0x3c0
    {
      [0x3b0, 0x3b1, 0x3b2, 0x3b3, 0x3b4, 0x3b5, 0x3b6, 0x3b7,
       0x3b8, 0x3b9, 0x3ba, 0x3bb, 0x3bc, 0x3bd, 0x3be, 0x3bf]
    }

    function GetAddressList(): (r: seq<(int, int)>)
      ensures r == [(WINDOW_BASE, WINDOW_SIZE)]
    { [(WINDOW_BASE, WINDOW_SIZE)] }

    function Ticks(): (r: bool)
      ensures r
    { true }

    /** Port writes are ignored. */
    method IO_Write(port: int, value: int) returns (r: bool)
      ensures !r
    {
      r := false;
    }

    /** Port 0x3ba answers 9 and 0 in turn (the sync bits); other ports 0. */
    method IO_Read(port: int) returns (v: int)
      modifies this
      ensures port == 0x3ba ==> v == (if old(hsync) then 9 else 0) && hsync == !old(hsync)
      ensures port != 0x3ba ==> v == 0 && hsync == old(hsync)
      ensures clock == old(clock)
    {
      v := 0;
      if port == 0x3ba {
        v := if hsync then 9 else 0;
        hsync := !hsync;
      }
    }

    function ReadByte(address: int): (v: int)
      requires ram.Length == RAM_SIZE
      reads ram
      ensures v == ram[Offset(address)]
    {
      ram[Offset(address)]
    }

    /** Stores the byte and returns the cell the terminal redraws. */
    method WriteByte(address: int, value: int) returns (update: Option<DisplayCell>)
      requires ram.Length == RAM_SIZE
      modifies ram
      ensures ram[..] == old(ram[..])[Offset(address) := value]
      ensures update == Cell(ram[..], Offset(address))
      ensures ReadByte(address) == value && ReadByte(address + RAM_SIZE) == value
      ensures forall a :: Offset(a) != Offset(address) ==> ReadByte(a) == old(ReadByte(a))
    {
      var o := Offset(address);
      ram[o] := value;
      OffsetPeriodic(address);
      update := UpdateConsole(o);
    }

    method UpdateConsole(offset: int) returns (update: Option<DisplayCell>)
      requires ram.Length == RAM_SIZE && 0 <= offset < RAM_SIZE
      ensures update == Cell(ram[..], offset)
    {
      if offset >= SCREEN_BYTES {
        return None;
      }
      var y := offset / (COLUMNS * 2);
      var x := (offset % (COLUMNS * 2)) / 2;
      var base := offset - offset % 2;
      update := Some(DisplayCell(x, y, ram[base], ram[base + 1]));
    }

    method Tick(cycles: int, clk: int) returns (r: bool)
      modifies this
      ensures clock == clk && !r && hsync == old(hsync)
    {
      clock := clk;
      r := false;
    }
  }
}
