/** The RAM device (memory.py): a fixed-size array of bytes, all 255 at
    power-on, mapped on the memory bus as the single range [0, size).  It has
    no IO ports, no IRQ and is not ticked.

    `IO_Write` returns the intended False (the Python text spells it `false`,
    an undefined name). */
module Memory {

  class Memory {
    const m: array<int>

    constructor (size: nat)
      ensures fresh(m) && m.Length == size
      ensures forall a :: 0 <= a < size ==> m[a] == 255
    {
      m := new int[size](_ => 255);
    }

    function ReadByte(address: int): (r: int)
      reads m
      requires 0 <= address < m.Length
      ensures r == m[address]
    {
      m[address]
    }

    /** The byte at `address` becomes v; every other byte is kept, so a later
        ReadByte(address) answers v. */
    method WriteByte(address: int, v: int)
      requires 0 <= address < m.Length
      modifies m
      ensures m[..] == old(m[..])[address := v]
      ensures ReadByte(address) == v
    {
      m[address] := v;
    }

    /** The one segment (start, length) the bus maps for RAM. */
    function GetAddressList(): (r: seq<(int, int)>)
      ensures r == [(0, m.Length)]
    {
      [(0, m.Length)]
    }

    function IO_Read(port: int): (r: int)
      ensures r == 0xff
    {
      0xff
    }

    function IO_Write(port: int, value: int): (r: bool)
      ensures !r
    {
      false
    }

    function GetIRQNumber(): (r: int)
      ensures r == -1
    {
      -1
    }

    function Ticks(): (r: bool)
      ensures !r
    {
      false
    }
  }
}
