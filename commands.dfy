/** What one command line does, as functions: the dispatch table that maps
    an argument list to a command (processLine, cmdparser.cpp:82-250), and
    for each command the exact text it prints, the exact trace of actions
    it takes on the target and the scratch buffer it leaves behind. The
    class Parser.CmdParser runs the same commands step by step and is proved
    to produce exactly these outcomes. */
module Commands {
  import opened Types
  import opened Bits
  import opened Tokenizer
  import opened Target

  /** The collaborators and configuration the interpreter is given at start
      up: the DSU base address, the literal parser, the CSR symbol table, the
      file system's answer to opening a file for writing, the millisecond
      text of the MTIME line, the register-name table and the consoles. */
  datatype Config = Config(
    dsuBase: u64,
    parseLiteral: string -> Attr,
    socAddr: Attr -> u64,
    canOpen: string -> bool,
    formatMs: u64 -> string,
    regNames: seq<(string, u64)>,
    consoles: seq<nat>)

  /** regs fills a uint64_t regs[128] indexed by the table's indices. */
  predicate ValidConfig(cfg: Config)
  {
    |cfg.regNames| <= 128 && forall k :: 0 <= k < |cfg.regNames| ==> cfg.regNames[k].1 < 128
  }

  datatype Command =
    | NotAName
    | LoadElf(path: string)
    | Log(path: string)
    | MemDump(addr: u64, bytes: u64, path: string, hex: bool)
    | Regs
    | CsrRead(csr: Attr)
    | CsrWrite(csr: Attr, value: u64)
    | WriteMem(addr: u64, bytes: u64, payload: Attr)
    | ReadMem(addr: u64, bytes: u64)
    | Exit
    | Halt
    | Run(steps: Option<u64>)
    | Breakpoint(sub: string, addr: u64)
    | Print(lines: seq<string>)
    | Unknown

  /** The text a command prints, the actions it takes in order, and the
      scratch buffer (tmpbuf_) afterwards. */
  datatype Outcome = Outcome(text: string, events: seq<Event>, scratch: seq<byte>)

  function Concat(lines: seq<string>): string
  {
    if lines == [] then [] else Concat(lines[..|lines| - 1]) + lines[|lines| - 1]
  }

  // ---------------------------------------------------------------------
  // Fixed texts

  const WRONG_FORMAT: string := "Wrong command format\n"
  const HINT: string := "Use 'help' to print list of the supported commands\n"
  const WRONG_WRITE: string := "Wrong write format\n"

  const HELP: seq<string> := [
    "** List of supported commands: **\n",
    "      loadelf   - Load ELF-file\n",
    "      log       - Enable log-file\n",
    "      memdump   - Dump memory to file\n",
    "      csr       - Access to CSR registers\n",
    "      write     - Write memory\n",
    "      read      - Read memory\n",
    "** List of supported commands by simulator only: **\n",
    "      stop/break/s    - Stop simulation\n",
    "      run/go/c  - Run simulation for a specify number of steps\n",
    "      regs      - List of registers values\n",
    "      br        - Breakpoint operation\n",
    "\n"]

  const LOADELF_USAGE: seq<string> := [
    "Description:\n", "    Load ELF-file to SOC target memory.\n",
    "Example:\n", "    load /home/riscv/image.elf\n"]

  const LOG_USAGE: seq<string> := [
    "Description:\n", "    Write console output into specified file.\n",
    "Example:\n", "    log session.log\n", "    log /home/riscv/session.log\n"]

  const MEMDUMP_USAGE: seq<string> := [
    "Description:\n", "    Dump memory to file (default in Binary format).\n",
    "Usage:\n", "    memdump <addr> <bytes> [filepath] [bin|hex]\n",
    "Example:\n", "    memdump 0x0 8192 dump.bin\n",
    "    memdump 0x40000000 524288 dump.hex hex\n",
    "    memdump 0x10000000 128 \"c:/My Documents/dump.bin\"\n"]

  const REGS_USAGE: seq<string> := [
    "Description:\n", "    Print values of all CPU's registers.\n",
    "Usage:\n", "    regs\n", "    regs <cpuid>\n", "Example:\n", "    regs\n"]

  const CSR_USAGE: seq<string> := [
    "Description:\n", "    Access to CSRs registers of the CPU.\n",
    "Usage:\n", "    READ:  csr <addr|name>\n", "    WRITE: csr <addr|name> <value>\n",
    "Example:\n", "    csr MCPUID\n", "    csr 0x762 1\n"]

  const WRITE_USAGE: seq<string> := [
    "Description:\n", "    Write memory.\n",
    "Usage:\n", "    write <addr> <bytes> [value]\n",
    "Example:\n", "    write 0xfffff004 4 0x20160323\n",
    "    write 0x10040000 16 [0xaabbccdd00112233, 0xaabbccdd00112233]\n"]

  const READ_USAGE: seq<string> := [
    "Description:\n", "    32-bits aligned memory reading. Default bytes = 4 bytes.\n",
    "Usage:\n", "    read <addr> <bytes>\n",
    "Example:\n", "    read 0xfffff004 16\n", "    read 0xfffff004\n"]

  const HALT_USAGE: seq<string> := [
    "Description:\n", "    Stop simulation.\n",
    "Example:\n", "    halt\n", "    stop\n", "    s\n"]

  const RUN_USAGE: seq<string> := [
    "Description:\n", "    Run simulation for a specified number of steps.\n",
    "Usage:\n", "    run <N steps>\n",
    "Example:\n", "    run\n", "    go 1000\n", "    c 1\n"]

  const BR_USAGE: seq<string> := [
    "Description:\n", "    Add or remove memory breakpoint.\n",
    "Usage:\n", "    br add <addr>\n", "    br rm <addr>\n",
    "Example:\n", "    br add 0x10000000\n", "    br rm 0x10000000\n"]

  /** Every name the dispatcher recognises; "break", listed by help, is not
      one of them. */
  const KNOWN_NAMES: set<string> := {
    "help", "loadelf", "log", "memdump", "regs", "csr", "write", "read",
    "exit", "halt", "stop", "s", "run", "go", "c", "br"}

  // ---------------------------------------------------------------------
  // The dispatch table

  /** The command processLine runs for an argument list: the name picks the
      entry, then the argument count (and for run and br, a type) picks a
      handler or the entry's usage text. */
  function Dispatch(args: seq<Attr>): Command
    requires |args| >= 1
  {
    if !args[0].Str? then NotAName
    else
      var name, n := args[0].s, |args|;
      if name == "help" then Print(HELP)
      else if name == "loadelf" then
        if n == 2 then LoadElf(AsString(args[1])) else Print(LOADELF_USAGE)
      else if name == "log" then
        if n == 2 then Log(AsString(args[1])) else Print(LOG_USAGE)
      else if name == "memdump" then
        if n == 4 || n == 5 then
          MemDump(AsU64(args[1]), AsU64(args[2]), AsString(args[3]), n == 5 && AsString(args[4]) == "hex")
        else Print(MEMDUMP_USAGE)
      else if name == "regs" then
        if n == 1 then Regs else Print(REGS_USAGE)
      else if name == "csr" then
        if n == 2 then CsrRead(args[1])
        else if n == 3 then CsrWrite(args[1], AsU64(args[2]))
        else Print(CSR_USAGE)
      else if name == "write" then
        if n == 4 then WriteMem(AsU64(args[1]), AsU64(args[2]), args[3]) else Print(WRITE_USAGE)
      else if name == "read" then
        if n == 2 then ReadMem(AsU64(args[1]), 4)
        else if n == 3 then ReadMem(AsU64(args[1]), AsU64(args[2]))
        else Print(READ_USAGE)
      else if name == "exit" then Exit
      else if name == "halt" || name == "stop" || name == "s" then
        if n == 1 then Halt else Print(HALT_USAGE)
      else if name == "run" || name == "go" || name == "c" then
        if n == 1 then Run(None)
        else if n == 2 && args[1].Int? then Run(Some(args[1].v))
        else Print(RUN_USAGE)
      else if name == "br" then
        if n == 3 && args[1].Str? then Breakpoint(args[1].s, AsU64(args[2])) else Print(BR_USAGE)
      else Unknown
  }

  // ---------------------------------------------------------------------
  // Loading and logging

  /** loadElf: the loader runs while MRESET is held at 1. */
  function LoadElfEvents(cfg: Config, path: string): seq<Event>
  {
    var addr := cfg.socAddr(Str("MRESET"));
    [TapWrite(addr, 8, Le8(1)), LoadFile(path), TapWrite(addr, 8, Le8(0))]
  }

  /** log: every console starts logging to the file, in console order. */
  function LogEvents(cfg: Config, path: string): seq<Event>
  {
    seq(|cfg.consoles|, k requires 0 <= k < |cfg.consoles| => EnableLog(cfg.consoles[k], path))
  }

  // ---------------------------------------------------------------------
  // Run control

  function HaltWord(): u64 { EncodeRunControl(RunControl(true, false, 0)) }
  function StepWord(): u64 { EncodeRunControl(RunControl(false, true, 0)) }
  function FreeRunWord(): u64 { EncodeRunControl(RunControl(false, false, 0)) }

  function RunControlEvents(cfg: Config, cmd: Command): seq<Event>
    requires cmd.Halt? || cmd.Run? || cmd.Breakpoint?
  {
    var base := cfg.dsuBase;
    match cmd
    case Halt => [TapWrite(base, 8, Le8(HaltWord()))]
    case Run(None) => [TapWrite(base, 8, Le8(FreeRunWord()))]
    case Run(Some(n)) => [TapWrite(AddU64(base, 8), 8, Le8(n)), TapWrite(base, 8, Le8(StepWord()))]
    case Breakpoint(sub, a) =>
      if sub == "add" then [TapWrite(AddU64(base, 16), 8, Le8(a))]
      else if sub == "rm" then [TapWrite(AddU64(base, 24), 8, Le8(a))]
      else []
  }

  // ---------------------------------------------------------------------
  // CSR access

  /** The uint64_t whose image the 8 bytes are. */
  function Word(s: seq<byte>): u64
    requires |s| == 8
  {
    Pow8();
    FromLe(s)
  }

  /** Word and Le8 are inverse: every 8-byte image is the image of its word,
      and every word is read back from its image. */
  lemma WordInvertsLe8(s: seq<byte>, v: u64)
    requires |s| == 8
    ensures Le8(Word(s)) == s
    ensures Word(Le8(v)) == v
  {
    Pow8();
    LeBytesOfFromLe(s);
    Le8IsLeBytes(FromLe(s));
    Le8RoundTrip(v);
  }

  function UnknownCsr(a: Attr): string
  {
    "Unknown CSR '" + AsString(a) + "'\n"
  }

  /** The extra line printed after the raw value for the two named CSRs. */
  function CsrDetail(cfg: Config, a: Attr, csr: u64): string
  {
    if !a.Str? then []
    else if a.s == "MCPUID" then "    Base: " + McpuidBase(csr) + ExtLetters(csr, 26) + "\n"
    else if a.s == "MTIME" then "    Clock: " + DecSigned64(csr) + "; ms: " + cfg.formatMs(csr) + "\n"
    else []
  }

  /** The raw value line: the register's index, (addr >> 4) & 0xfff, in three
      hex digits, and the value in sixteen. */
  function CsrValueLine(addr: u64, csr: u64): string
  {
    "CSR[" + Hex((addr / 16) % 0x1000, 3) + "] => " + Hex16(csr) + "\n"
  }

  function CsrReadText(cfg: Config, a: Attr, addr: u64, csr: u64): string
  {
    CsrValueLine(addr, csr) + CsrDetail(cfg, a, csr)
  }

  // ---------------------------------------------------------------------
  // Memory read: the 16-byte aligned, lane-reversed window

  /** The u64 end of the window: (addr + bytes + 15) & ~0xF. */
  function WindowEnd(addr: u64, count: nat): (e: u64)
    requires count < 0x8000_0000
  {
    BlockStart((addr + count + 15) % U64_LIMIT)
  }

  /** The text of one window position: the byte whose address is the
      position's reversal, or ".." when that address is outside the read. */
  function Cell(addr: u64, data: seq<byte>, i: nat): string
    requires |data| < 0x8000_0000
  {
    var inv := Inv(i);
    var hi := (addr + |data|) % U64_LIMIT;
    if addr <= inv && inv < hi then " " + Hex2(data[inv - addr]) else " .."
  }

  function Header(i: u64): string
  {
    "[" + Hex16(i) + "]: "
  }

  /** What readMem prints for one position: a header at a block start, the
      position's cell, and a newline at a block end. The header and cell
      texts are parameters so that the layout can be reasoned about apart
      from the digits. */
  function Piece(head: u64 -> string, cell: nat -> string, i: u64): string
  {
    (if i % 16 == 0 then head(i) else []) + cell(i) + (if i % 16 == 15 then "\n" else [])
  }

  /** The text for the positions lo .. hi-1. */
  function WindowText(head: u64 -> string, cell: nat -> string, lo: u64, hi: u64): string
    decreases hi
  {
    if hi <= lo then [] else WindowText(head, cell, lo, hi - 1) + Piece(head, cell, hi - 1)
  }

  /** The cells of a read of data at addr. */
  function Cells(addr: u64, data: seq<byte>): nat -> string
    requires |data| < 0x8000_0000
  {
    (i: nat) => Cell(addr, data, i)
  }

  function ReadMemText(addr: u64, data: seq<byte>): string
    requires |data| < 0x8000_0000
  {
    WindowText(Header, Cells(addr, data), BlockStart(addr), WindowEnd(addr, |data|))
  }

  // ---------------------------------------------------------------------
  // Memory write: the scratch buffer filled with one word or a list of words

  function Zeros(n: nat): (r: seq<byte>)
    ensures |r| == n && forall k :: 0 <= k < n ==> r[k] == 0
  {
    seq(n, k => 0)
  }

  /** The scratch bytes a write needs: the transfer, and the words stored. */
  function WriteNeed(count: nat, value: Attr): nat
  {
    var words := if value.List? then 8 * |value.items| else 8;
    if count > words then count else words
  }

  /** The scratch buffer with the given 64-bit words stored from offset 0. */
  function FillWords(buf: seq<byte>, words: seq<u64>): (r: seq<byte>)
    requires 8 * |words| <= |buf|
    ensures |r| == |buf|
  {
    seq(|buf|, p requires 0 <= p < |buf| => if p < 8 * |words| then Le8(words[p / 8])[p % 8] else buf[p])
  }

  function WordsOf(value: Attr): seq<u64>
  {
    if value.Int? then [value.v]
    else if value.List? then seq(|value.items|, k requires 0 <= k < |value.items| => AsU64(value.items[k]))
    else []
  }

  // ---------------------------------------------------------------------
  // Memory dump to a file

  /** The byte the dump shows at position p of the buffer; see the finding
      on memDump in README: bytes past the read show as zero. */
  function DumpByte(data: seq<byte>, p: nat): byte
  {
    if p < |data| then data[p] else 0
  }

  /** The hex characters for dump positions lo .. hi-1, lane reversed. */
  function DumpChars(data: seq<byte>, lo: nat, hi: nat): string
    decreases hi
  {
    if hi <= lo then [] else DumpChars(data, lo, hi - 1) + Hex2(DumpByte(data, Inv(hi - 1)))
  }

  /** The fwrite calls of a hex dump: one per full 16-byte line, then the
      trailing partial line if any. */
  function HexDumpEvents(path: string, data: seq<byte>): seq<Event>
  {
    DumpLines(path, data, |data| / 16) + DumpTail(path, data)
  }

  /** The fwrite calls of the first n full lines of a hex dump. */
  function DumpLines(path: string, data: seq<byte>, n: nat): (r: seq<Event>)
    ensures |r| == n
  {
    if n == 0 then [] else DumpLines(path, data, n - 1) + [FileWriteText(path, DumpChars(data, 16 * (n - 1), 16 * n) + "\n")]
  }

  /** The fwrite of the trailing partial line, if any. */
  function DumpTail(path: string, data: seq<byte>): seq<Event>
  {
    if |data| % 16 != 0 then [FileWriteText(path, DumpChars(data, 16 * (|data| / 16), |data|))] else []
  }

  // ---------------------------------------------------------------------
  // Register listing

  datatype RegCell = Filler | Slot(caption: string, reg: string, suffix: string)

  const FILLER_TEXT: string := "                        "

  /** The outf calls of regs, in order: three columns, one row per line. */
  const REGS_LAYOUT: seq<RegCell> := [
    Slot("ra: ", "ra", "    \n"),
    Filler, Slot("s0:  ", "s0", "   "), Slot("a0:  ", "a0", "   \n"),
    Slot("sp: ", "sp", "    "), Slot("s1:  ", "s1", "   "), Slot("a1:  ", "a1", "   \n"),
    Slot("gp: ", "gp", "    "), Slot("s2:  ", "s2", "   "), Slot("a2:  ", "a2", "   \n"),
    Slot("tp: ", "tp", "    "), Slot("s3:  ", "s3", "   "), Slot("a3:  ", "a3", "   \n"),
    Filler, Slot("s4:  ", "s4", "   "), Slot("a4:  ", "a4", "   \n"),
    Slot("t0: ", "t0", "    "), Slot("s5:  ", "s5", "   "), Slot("a5:  ", "a5", "   \n"),
    Slot("t1: ", "t1", "    "), Slot("s6:  ", "s6", "   "), Slot("a6:  ", "a6", "   \n"),
    Slot("t2: ", "t2", "    "), Slot("s7:  ", "s7", "   "), Slot("a7:  ", "a7", "   \n"),
    Slot("t3: ", "t3", "    "), Slot("s8:  ", "s8", "   \n"),
    Slot("t4: ", "t4", "    "), Slot("s9:  ", "s9", "   \n"),
    Slot("t5: ", "t5", "    "), Slot("s10: ", "s10", "   "), Slot("pc:  ", "pc", "  \n"),
    Slot("t6: ", "t6", "    "), Slot("s11: ", "s11", "   "), Slot("npc: ", "npc", "   \n")]

  /** getRegIDx: the index of the first table entry with the name, or 0. */
  function RegIndex(names: seq<(string, u64)>, name: string): u64
  {
    if names == [] then 0
    else if names[0].0 == name then names[0].1
    else RegIndex(names[1..], name)
  }

  /** The address of register-file slot i: DSU base + 64*8 + 8*i. */
  function SlotAddr(cfg: Config, i: nat): u64
    requires i < 128
  {
    AddU64(AddU64(cfg.dsuBase, 512), 8 * i)
  }

  /** The TAP reads of regs: slots 1 .. |regNames|-1 (slot 0 is never read). */
  function RegsEvents(cfg: Config): seq<Event>
    requires ValidConfig(cfg)
  {
    var n := |cfg.regNames|;
    if n <= 1 then [] else seq(n - 1, k requires 0 <= k < n - 1 => TapRead(SlotAddr(cfg, k + 1), 8))
  }

  /** The local regs[128] array after the reads. */
  function RegValues(cfg: Config, mem: map<u64, byte>): (vals: seq<u64>)
    requires ValidConfig(cfg)
    ensures |vals| == 128
  {
    seq(128, i requires 0 <= i < 128 =>
      if 1 <= i < |cfg.regNames| then Word(Fetch(mem, SlotAddr(cfg, i), 8)) else 0)
  }

  function CellText(cfg: Config, vals: seq<u64>, c: RegCell): string
    requires ValidConfig(cfg) && |vals| == 128
  {
    match c
    case Filler => FILLER_TEXT
    case Slot(caption, reg, suffix) => caption + Hex16(vals[RegIndexBounded(cfg, reg)]) + suffix
  }

  function RegIndexBounded(cfg: Config, name: string): (r: nat)
    requires ValidConfig(cfg)
    ensures r < 128 && r == RegIndex(cfg.regNames, name)
  {
    RegIndexInTable(cfg.regNames, name);
    RegIndex(cfg.regNames, name)
  }

  lemma {:induction false} RegIndexInTable(names: seq<(string, u64)>, name: string)
    requires forall k :: 0 <= k < |names| ==> names[k].1 < 128
    ensures RegIndex(names, name) < 128
  {
    if names != [] && names[0].0 != name {
      RegIndexInTable(names[1..], name);
    }
  }

  /** The text of the cells of a layout, in order. */
  function RegsText(cfg: Config, vals: seq<u64>, layout: seq<RegCell>): string
    requires ValidConfig(cfg) && |vals| == 128
  {
    if layout == [] then []
    else RegsText(cfg, vals, layout[..|layout| - 1]) + CellText(cfg, vals, layout[|layout| - 1])
  }

  // ---------------------------------------------------------------------
  // The outcome of each command

  function Say(text: string, scratch: seq<byte>): Outcome
  {
    Outcome(text, [], scratch)
  }

  /** regs: the register file's reads, and the layout filled with the values
      read. */
  function ExecRegs(cfg: Config, mem: map<u64, byte>, scratch: seq<byte>): Outcome
    requires ValidConfig(cfg)
  {
    Outcome(RegsText(cfg, RegValues(cfg, mem), REGS_LAYOUT), RegsEvents(cfg), scratch)
  }

  /** readCSR: an all-ones address is an unknown name; otherwise one 8-byte
      read, the value line, and the MCPUID or MTIME detail line. */
  function ExecCsrRead(cfg: Config, a: Attr, mem: map<u64, byte>, scratch: seq<byte>): Outcome
  {
    var addr := cfg.socAddr(a);
    if addr == ALL_ONES then Say(UnknownCsr(a), scratch)
    else
      var csr := Word(Fetch(mem, addr, 8));
      Outcome(CsrReadText(cfg, a, addr, csr), [TapRead(addr, 8)], scratch)
  }

  /** writeCSR: an all-ones address is an unknown name; otherwise one 8-byte
      write of the value. */
  function ExecCsrWrite(cfg: Config, a: Attr, v: u64, scratch: seq<byte>): Outcome
  {
    var addr := cfg.socAddr(a);
    if addr == ALL_ONES then Say(UnknownCsr(a), scratch)
    else Outcome([], [TapWrite(addr, 8, Le8(v))], scratch)
  }

  /** readMem: the scratch buffer grows to the count when the count exceeds
      it, the bytes are read into it, and the window is printed. */
  function ExecReadMem(mem: map<u64, byte>, addr: u64, bytesArg: u64, scratch: seq<byte>): Outcome
  {
    var count := ToInt32(bytesArg);
    if count < 0 then Say([], scratch)
    else
      var buf := if count > |scratch| then Zeros(count) else scratch;
      var data := Fetch(mem, addr, count);
      Outcome(ReadMemText(addr, data), [TapRead(addr, count)], data + buf[count..])
  }

  /** writeMem: the value is stored into the scratch buffer (grown when it
      is too small, see the finding on writeMem in README) and the first
      count bytes are written. */
  function ExecWriteMem(addr: u64, bytesArg: u64, value: Attr, scratch: seq<byte>): Outcome
  {
    var count := ToInt32(bytesArg);
    if !value.Int? && !value.List? then Say(WRONG_WRITE, scratch)
    else if count < 0 then Say([], scratch)
    else
      var filled := WriteScratch(count, value, scratch);
      Outcome([], [TapWrite(addr, count, filled[..count])], filled)
  }

  /** The scratch buffer after writeMem's stores: grown to the bytes the
      write needs when it is too small, then the words stored from 0. */
  function WriteScratch(count: nat, value: Attr, scratch: seq<byte>): (r: seq<byte>)
    ensures |r| >= count && |r| >= 8 * |WordsOf(value)|
  {
    var need := WriteNeed(count, value);
    var buf := if need > |scratch| then Zeros(need) else scratch;
    FillWords(buf, WordsOf(value))
  }

  /** memDump: nothing happens unless the file opens; opening it for
      writing creates or empties it, then the bytes are read into the
      scratch buffer when they fit it (into a buffer of their own otherwise),
      written out raw or as hex lines, and the file is closed. */
  function ExecMemDump(cfg: Config, mem: map<u64, byte>, addr: u64, lenArg: u64, path: string, hex: bool, scratch: seq<byte>): Outcome
  {
    var len := ToInt32(lenArg);
    if !cfg.canOpen(path) then Say("Can't open '" + path + "' file", scratch)
    else if len < 0 then Outcome([], [FileOpen(path), FileClose(path)], scratch)
    else
      var data := Fetch(mem, addr, len);
      var writes := if hex then HexDumpEvents(path, data) else [FileWriteBytes(path, data)];
      Outcome([], [FileOpen(path), TapRead(addr, len)] + writes + [FileClose(path)],
              if len <= |scratch| then data + scratch[len..] else scratch)
  }

  /** What a command prints and does against memory mem, starting from the
      scratch buffer scratch. A byte count that the source's int cast makes
      negative stops the command with no effect in this model. */
  function Execute(cfg: Config, cmd: Command, mem: map<u64, byte>, scratch: seq<byte>): Outcome
    requires ValidConfig(cfg)
  {
    match cmd
    case NotAName => Say(WRONG_FORMAT, scratch)
    case Unknown => Say(HINT, scratch)
    case Print(lines) => Say(Concat(lines), scratch)
    case Exit => Outcome([], [BreakSimulation], scratch)
    case LoadElf(path) => Outcome([], LoadElfEvents(cfg, path), scratch)
    case Log(path) => Outcome([], LogEvents(cfg, path), scratch)
    case Halt => Outcome([], RunControlEvents(cfg, cmd), scratch)
    case Run(_) => Outcome([], RunControlEvents(cfg, cmd), scratch)
    case Breakpoint(_, _) => Outcome([], RunControlEvents(cfg, cmd), scratch)
    case CsrRead(a) => ExecCsrRead(cfg, a, mem, scratch)
    case CsrWrite(a, v) => ExecCsrWrite(cfg, a, v, scratch)
    case ReadMem(addr, bytesArg) => ExecReadMem(mem, addr, bytesArg, scratch)
    case WriteMem(addr, bytesArg, value) => ExecWriteMem(addr, bytesArg, value, scratch)
    case MemDump(addr, lenArg, path, hex) => ExecMemDump(cfg, mem, addr, lenArg, path, hex, scratch)
    case Regs => ExecRegs(cfg, mem, scratch)
  }

  /** The outcome of processLine for a whole line: nothing for an empty
      line, otherwise the dispatched command's. */
  function Respond(cfg: Config, line: string, mem: map<u64, byte>, scratch: seq<byte>): Outcome
    requires ValidConfig(cfg)
  {
    if line == [] then Say([], scratch)
    else
      TokensNonEmpty(line);
      Execute(cfg, Dispatch(Args(line, cfg.parseLiteral)), mem, scratch)
  }

  /** The outcome of udpateCommand: the line's response, after which the
      whole output is handed to every console, in console order. */
  function Update(cfg: Config, line: string, mem: map<u64, byte>, scratch: seq<byte>): Outcome
    requires ValidConfig(cfg)
  {
    var o := Respond(cfg, line, mem, scratch);
    Outcome(o.text, o.events + Deliveries(cfg, o.text), o.scratch)
  }

  function Deliveries(cfg: Config, text: string): seq<Event>
  {
    seq(|cfg.consoles|, k requires 0 <= k < |cfg.consoles| => Deliver(cfg.consoles[k], text))
  }
}
