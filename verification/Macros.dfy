/** The macros that write boundary tags (src/mm/malloc.c:2291-2300, 3058-3073), as functions from memory to memory. */
module Macros {
  import opened Memory
  import opened Tiling

  const PINUSE_BIT := 1
  const CINUSE_BIT := 2
  const INUSE_BITS := 3

  function SetPinuse(mem: Mem, n: int): Mem { mem[n + HEAD := OrPin(Rd(mem, n + HEAD))] }

  function ClearPinuse(mem: Mem, n: int): Mem { mem[n + HEAD := ClearPin(Rd(mem, n + HEAD))] }

  /** set_inuse: keeps the preceding chunk's bit. */
  function SetInuse(mem: Mem, p: int, s: int): Mem {
    var pin := if PinOf(Rd(mem, p + HEAD)) then PINUSE_BIT else 0;
    SetPinuse(mem[p + HEAD := s + CINUSE_BIT + pin], p + s)
  }

  function SetInuseAndPinuse(mem: Mem, p: int, s: int): Mem {
    SetPinuse(mem[p + HEAD := s + PINUSE_BIT + CINUSE_BIT], p + s)
  }

  function SetSizeAndPinuseOfInuseChunk(mem: Mem, p: int, s: int): Mem {
    mem[p + HEAD := s + PINUSE_BIT + CINUSE_BIT]
  }

  function SetSizeAndPinuseOfFreeChunk(mem: Mem, p: int, s: int): Mem {
    mem[p + HEAD := s + PINUSE_BIT][p + s + PREV_FOOT := s]
  }

  function SetFreeWithPinuse(mem: Mem, p: int, s: int, n: int): Mem {
    SetSizeAndPinuseOfFreeChunk(ClearPinuse(mem, n), p, s)
  }

  function ChunkSize(mem: Mem, p: int): int { SizeOf(Rd(mem, p + HEAD)) }

  predicate Cinuse(mem: Mem, p: int) { CinOf(Rd(mem, p + HEAD)) }

  predicate Pinuse(mem: Mem, p: int) { PinOf(Rd(mem, p + HEAD)) }
}
