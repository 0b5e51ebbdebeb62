/** Four places where cmdparser.cpp, as written, reaches past the end of a
    buffer. Each is modelled here exactly as the code does it, with an input
    that shows the overrun; the rest of the model uses the corrected
    behaviour (Parser.CmdParser.MakeRoom, Commands.ExecWriteMem,
    Commands.DumpByte, and the stop on a negative byte count in
    Commands.Execute). */
module AsWritten {
  import opened Types
  import opened Bits
  import opened Commands

  // ---------------------------------------------------------------------
  // outf

  /** The output buffer's size after outf's growth check: one doubling,
      and only when fewer than 128 characters remain. */
  function OutfSize(cnt: nat, size: nat): (r: nat)
    ensures r == size || r == 2 * size
  {
    if cnt > size - 128 then 2 * size else size
  }

  /** Whether vsprintf's len characters and its terminator fit after the
      growth check. */
  predicate OutfFits(cnt: nat, size: nat, len: nat)
  {
    cnt + len < OutfSize(cnt, size)
  }

  /** What the check was built for: while the buffer holds at least 128
      characters and its contents, every text shorter than 128 fits. */
  lemma ShortTextsFit(cnt: nat, size: nat, len: nat)
    requires cnt < size && 128 <= size && len < 128
    ensures OutfFits(cnt, size, len)
  {
  }

  /** But a text of 4096 characters printed into a fresh 4096-character
      buffer is written past its end (memdump's "Can't open" message with
      a long file name is one such text). */
  lemma LongTextOverruns()
    ensures !OutfFits(0, 4096, 4096)
  {
  }

  /** A file name long enough to do it. */
  lemma CantOpenMessageOverruns(path: string)
    requires |path| >= 4082
    ensures !OutfFits(0, 4096, |"Can't open '" + path + "' file"|)
  {
  }

  // ---------------------------------------------------------------------
  // writeMem

  /** Whether writeMem stays inside the scratch buffer: the words are
      stored at offsets 0, 8, 16, ... and the transfer reads count bytes,
      neither checked against the size. */
  predicate WriteInBounds(size: nat, count: nat, value: Attr)
  {
    8 * |WordsOf(value)| <= size && count <= size
  }

  /** The checks the source leaves out are exactly what can fail: one
      word always fits the 4096-byte buffer, a larger count or a longer
      list does not. */
  lemma WriteOverruns(v: u64)
    ensures WriteInBounds(4096, 8, Int(v))
    ensures !WriteInBounds(4096, 8192, Int(v))
    ensures !WriteInBounds(4096, 8, List(seq(513, k => Int(v))))
  {
  }

  /** The corrected buffer is always large enough. */
  lemma CorrectedWriteFits(count: nat, value: Attr, scratch: seq<byte>)
    ensures WriteInBounds(|WriteScratch(count, value, scratch)|, count, value)
  {
  }

  // ---------------------------------------------------------------------
  // memDump

  /** Whether the hex loop, which reads dumpbuf[(i & ~0xf) | (0xf - (i & 0xf))]
      for every i below len, stays below len. */
  predicate DumpReadsInside(len: nat)
  {
    forall i :: 0 <= i < len ==> Inv(i) < len
  }

  /** Whole lines stay inside the bytes read. */
  lemma {:induction false} WholeLinesInside(len: nat)
    requires len % 16 == 0
    ensures DumpReadsInside(len)
  {
    forall i | 0 <= i < len
      ensures Inv(i) < len
    {
      InvProperties(i);
      var b := BlockStart(i);
      assert b % 16 == 0 && b <= i < len;
      assert b + 16 <= len by {
        Above(b / 16, len / 16);
      }
    }
  }

  lemma Above(p: nat, q: nat)
    requires 16 * p < 16 * q
    ensures 16 * p + 16 <= 16 * q
  {
  }

  /** A partial last line does not: with 4097 bytes (more than the 4096-byte
      scratch buffer, so dumpbuf is a new 4097-byte array) position 4096
      reads index 4111; with 1 byte, position 0 reads index 15 of the
      scratch buffer, a byte the read did not fill. */
  lemma PartialLineReadsPast()
    ensures Inv(4096) == 4111 && !DumpReadsInside(4097)
    ensures Inv(0) == 15 && !DumpReadsInside(1)
  {
    assert Inv(4096) == 4111;
    assert Inv(0) == 15;
  }

  // ---------------------------------------------------------------------
  // A byte count that the int cast makes negative

  /** readMem's end of the bytes read, in the code's uint64_t arithmetic:
      the negative int is sign-extended, so it subtracts. */
  function ReadEnd(addr: u64, bytesArg: u64): u64
  {
    (addr + ToInt32(bytesArg)) % U64_LIMIT
  }

  /** readMem's addr_end, in the same arithmetic. */
  function ReadWindowEnd(addr: u64, bytesArg: u64): u64
  {
    BlockStart((addr + ToInt32(bytesArg) + 15) % U64_LIMIT)
  }

  /** Whether readMem's loop, as written, prints tmpbuf_[Inv(i) - addr] at
      position i. */
  predicate PrintsByte(addr: u64, bytesArg: u64, i: nat)
  {
    BlockStart(addr) <= i < ReadWindowEnd(addr, bytesArg) && addr <= Inv(i) < ReadEnd(addr, bytesArg)
  }

  /** `read 0x1000 0x80000000`: the count casts to -2^31, the window then
      runs to 0xFFFFFFFF80001000, and position 0x2000 prints index 0x100F
      of the 4096-byte scratch buffer, which the tmpbuf_size_ check did not
      grow. */
  lemma NegativeCountReadsPast()
    ensures ToInt32(0x8000_0000) == -0x8000_0000
    ensures ReadWindowEnd(0x1000, 0x8000_0000) == 0xFFFF_FFFF_8000_1000
    ensures PrintsByte(0x1000, 0x8000_0000, 0x2000) && Inv(0x2000) - 0x1000 == 0x100F >= 4096
  {
    assert Inv(0x2000) == 0x200F;
  }

  /** memDump's binary branch hands fwrite the negative len as a size_t. */
  function DumpWriteSize(lenArg: u64): u64
  {
    ToInt32(lenArg) % U64_LIMIT
  }

  /** `memdump 0 0x80000000 f` asks fwrite for 2^64 - 2^31 bytes of a
      4096-byte buffer. */
  lemma NegativeDumpWritesPast()
    ensures DumpWriteSize(0x8000_0000) == 0xFFFF_FFFF_8000_0000 > 4096
  {
  }
}
