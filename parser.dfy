/** CmdParserService itself: the command buffer the console's line is
    copied into and split in place, the scratch buffer shared by the memory
    commands, and the growing output buffer every handler prints into.
    Each method follows its counterpart in cmdparser.cpp statement by
    statement and is proved to have exactly the effect the Commands module
    specifies. */
module Parser {
  import opened Types
  import opened Bits
  import opened Tokenizer
  import opened Target
  import opened Commands
  import AsWritten

  /** The size both buffers are given by the constructor. */
  const INITIAL_SIZE: nat := 4096
  /** outf doubles its buffer once fewer than this many characters remain. */
  const HEADROOM: nat := 128

  class CmdParser {
    const cfg: Config
    const world: World
    /** cmdbuf_: the line being processed, NUL-terminated. */
    var cmdbuf: array<char>
    /** tmpbuf_ and tmpbuf_size_: the scratch buffer of the memory commands
        (readMem allocates one byte more than the size it records). */
    var tmpbuf: array<byte>
    var tmpSize: nat
    /** outbuf_ and outbuf_cnt_: the text printed so far, NUL-terminated. */
    var outbuf: array<char>
    var outCnt: nat

    predicate Valid()
      reads this
    {
      ValidConfig(cfg) && outCnt < outbuf.Length && HEADROOM <= outbuf.Length && tmpSize <= tmpbuf.Length && cmdbuf != outbuf
    }

    /** The text printed since processLine last reset the output. */
    function Output(): string
      reads this, outbuf
      requires outCnt <= outbuf.Length
    {
      outbuf[..outCnt]
    }

    /** The scratch buffer's contents, up to its recorded size. */
    function Scratch(): seq<byte>
      reads this, tmpbuf
      requires tmpSize <= tmpbuf.Length
    {
      tmpbuf[..tmpSize]
    }

    /** What a handler has done, measured from the output, trace and memory
        it started with: it printed o's text, took o's actions, left memory
        as o's writes make it, and left o's scratch buffer. */
    ghost predicate Shows(out0: string, ev0: seq<Event>, mem0: map<u64, byte>, o: Outcome)
      reads this, outbuf, tmpbuf, world
      requires Valid()
    {
      Output() == out0 + o.text && Traced(ev0, mem0, o.events) && Scratch() == o.scratch
    }

    /** The world has taken the actions evs since its trace was ev0 and its
        memory mem0. */
    ghost predicate Traced(ev0: seq<Event>, mem0: map<u64, byte>, evs: seq<Event>)
      reads world
    {
      world.events == ev0 + evs && world.mem == ApplyWrites(mem0, evs)
    }

    /** The constructor: a command buffer of the given size and both other
        buffers at 4096 bytes. */
    constructor (cfg: Config, world: World, cmdSize: nat)
      requires ValidConfig(cfg) && cmdSize >= 1
      ensures Valid() && fresh(cmdbuf) && fresh(tmpbuf) && fresh(outbuf)
      ensures this.cfg == cfg && this.world == world
      ensures cmdbuf.Length == cmdSize && tmpSize == INITIAL_SIZE && outbuf.Length == INITIAL_SIZE
      ensures Output() == []
    {
      this.cfg := cfg;
      this.world := world;
      cmdbuf := new char[cmdSize];
      tmpbuf := new byte[INITIAL_SIZE];
      tmpSize := INITIAL_SIZE;
      outbuf := new char[INITIAL_SIZE];
      outCnt := 0;
    }

    // -------------------------------------------------------------------
    // udpateCommand and processLine

    /** udpateCommand: the line is copied into the command buffer with its
        terminator, processed, and the output handed to every console. */
    method UpdateCommand(line: string)
      requires Valid() && '\0' !in line && |line| < cmdbuf.Length
      modifies this, outbuf, tmpbuf, world, cmdbuf
      ensures Valid() && Shows([], old(world.events), old(world.mem), Update(cfg, line, old(world.mem), old(Scratch())))
      ensures outbuf == old(outbuf) || fresh(outbuf)
      ensures tmpbuf == old(tmpbuf) || fresh(tmpbuf)
      ensures cmdbuf == old(cmdbuf)
    {
      ghost var ev0, mem0, scratch0 := world.events, world.mem, Scratch();
      CopyLine(line);
      assert cmdbuf[..|line|] == line;
      ProcessLine(|line|);
      ghost var o := Respond(cfg, line, mem0, scratch0);
      Broadcast(ev0, mem0, o.events);
      assert Output() == o.text;
    }

    /** The memcpy of udpateCommand, terminator included. */
    method CopyLine(line: string)
      requires |line| < cmdbuf.Length
      modifies cmdbuf
      ensures cmdbuf[..|line|] == line && cmdbuf[|line|] == '\0'
    {
      forall k | 0 <= k < |line| {
        cmdbuf[k] := line[k];
      }
      cmdbuf[|line|] := '\0';
    }

    /** writeBuffer on every console, in order, with the whole output. */
    method Broadcast(ghost ev0: seq<Event>, ghost mem0: map<u64, byte>, ghost evs: seq<Event>)
      requires Valid() && Traced(ev0, mem0, evs)
      modifies world
      ensures Traced(ev0, mem0, evs + Deliveries(cfg, Output()))
    {
      ghost var all := Deliveries(cfg, Output());
      assert evs + all[..0] == evs;
      for i := 0 to |cfg.consoles|
        invariant Traced(ev0, mem0, evs + all[..i])
      {
        Act(Deliver(cfg.consoles[i], outbuf[..outCnt]), ev0, mem0, evs + all[..i]);
        assert evs + all[..i] + [all[i]] == evs + all[..i + 1];
      }
      assert all[..|cfg.consoles|] == all;
    }

    /** processLine: the output is reset; a non-empty line is split into
        arguments, and the command they select runs. */
    method ProcessLine(ghost n: nat)
      requires Valid() && n < cmdbuf.Length && cmdbuf[n] == '\0' && '\0' !in cmdbuf[..n]
      modifies this, outbuf, tmpbuf, world, cmdbuf
      ensures Valid() && Shows([], old(world.events), old(world.mem), Respond(cfg, old(cmdbuf[..n]), old(world.mem), old(Scratch())))
      ensures outbuf == old(outbuf) || fresh(outbuf)
      ensures tmpbuf == old(tmpbuf) || fresh(tmpbuf)
      ensures cmdbuf == old(cmdbuf)
    {
      ghost var line := cmdbuf[..n];
      outCnt := 0;
      outbuf[0] := '\0';
      Start();
      if cmdbuf[0] == '\0' {
        assert line == [];
        return;
      }
      assert line[0] == cmdbuf[0];
      assert cmdbuf[0..n] == line;
      var args := SplitLine(0, n);
      TokensNonEmpty(line);
      Perform(Dispatch(args));
    }

    /** The branch of processLine a command selects, and its handler. */
    method Perform(cmd: Command)
      requires Valid()
      modifies this, outbuf, tmpbuf, world
      ensures Valid() && Shows(old(Output()), old(world.events), old(world.mem), Execute(cfg, cmd, old(world.mem), old(Scratch())))
      ensures outbuf == old(outbuf) || fresh(outbuf)
      ensures tmpbuf == old(tmpbuf) || fresh(tmpbuf)
      ensures cmdbuf == old(cmdbuf)
    {
      Start();
      match cmd
      case NotAName => Outf(WRONG_FORMAT);
      case Unknown => Outf(HINT);
      case Print(lines) => OutfAll(lines);
      case CsrRead(a) => ReadCsr(a);
      case CsrWrite(a, v) => WriteCsr(a, v);
      case ReadMem(addr, b) => ReadMem(addr, b);
      case WriteMem(addr, b, value) => WriteMem(addr, b, value);
      case MemDump(addr, len, path, hex) => MemDump(addr, len, path, hex);
      case Regs => Regs();
      case _ => Control(cmd);
    }

    /** The branches that only act on the simulation: they print nothing
        and leave the scratch buffer alone. */
    method Control(cmd: Command)
      requires Valid() && (cmd.Exit? || cmd.LoadElf? || cmd.Log? || cmd.Halt? || cmd.Run? || cmd.Breakpoint?)
      modifies world
      ensures Shows(old(Output()), old(world.events), old(world.mem), Execute(cfg, cmd, old(world.mem), old(Scratch())))
    {
      assert Output() == Output() + [];
      match cmd
      case Exit => Exit();
      case LoadElf(path) => LoadElf(path);
      case Log(path) => EnableLogs(path);
      case Halt => Halt();
      case Run(steps) => Run(steps);
      case Breakpoint(sub, value) => Br(sub, value);
    }

    // -------------------------------------------------------------------
    // outf

    /** Doubles the output buffer, keeping its contents. */
    method Grow()
      requires Valid()
      modifies this
      ensures Valid() && fresh(outbuf) && outbuf.Length == 2 * old(outbuf.Length)
      ensures outCnt == old(outCnt) && Output() == old(Output())
      ensures cmdbuf == old(cmdbuf) && tmpbuf == old(tmpbuf) && tmpSize == old(tmpSize)
    {
      var t := new char[2 * outbuf.Length];
      forall i | 0 <= i < outbuf.Length {
        t[i] := outbuf[i];
      }
      outbuf := t;
    }

    /** outf: appends text to the output, growing the buffer first. */
    method Outf(text: string)
      requires Valid()
      modifies this, outbuf
      ensures Valid() && outbuf[outCnt] == '\0'
      ensures Output() == old(Output()) + text
      ensures outbuf == old(outbuf) || fresh(outbuf)
      ensures DoubledFrom(old(outbuf.Length), outbuf.Length)
      ensures old(outCnt) <= old(outbuf.Length) - HEADROOM && old(outCnt) + |text| < old(outbuf.Length) ==> outbuf == old(outbuf)
      ensures |text| < HEADROOM ==> outbuf.Length == AsWritten.OutfSize(old(outCnt), old(outbuf.Length))
      ensures cmdbuf == old(cmdbuf) && tmpbuf == old(tmpbuf) && tmpSize == old(tmpSize)
    {
      ghost var doublings := MakeRoom(|text|);
      Put(text);
      assert outbuf.Length == old(outbuf.Length) * Pow(2, doublings);
    }

    /** The growth step of outf. The source doubles once when fewer than 128
        characters remain, which a longer text overruns (see Findings in
        README); this version keeps doubling until len characters and a
        terminator fit. */
    method MakeRoom(len: nat) returns (ghost doublings: nat)
      requires Valid()
      modifies this
      ensures Valid() && outCnt + len < outbuf.Length
      ensures outCnt == old(outCnt) && Output() == old(Output())
      ensures outbuf == old(outbuf) || fresh(outbuf)
      ensures outbuf.Length == old(outbuf.Length) * Pow(2, doublings)
      ensures old(outCnt) <= old(outbuf.Length) - HEADROOM && old(outCnt) + len < old(outbuf.Length) ==> outbuf == old(outbuf)
      ensures len < HEADROOM ==> outbuf.Length == AsWritten.OutfSize(old(outCnt), old(outbuf.Length))
      ensures cmdbuf == old(cmdbuf) && tmpbuf == old(tmpbuf) && tmpSize == old(tmpSize)
    {
      ghost var size := outbuf.Length;
      doublings := 0;
      if outCnt > outbuf.Length - HEADROOM {
        Grow();
        doublings := 1;
      }
      ghost var checked := outbuf.Length;
      assert checked == AsWritten.OutfSize(outCnt, size);
      while outCnt + len >= outbuf.Length
        invariant Valid() && outCnt == old(outCnt) && Output() == old(Output())
        invariant outbuf == old(outbuf) || fresh(outbuf)
        invariant outbuf.Length == size * Pow(2, doublings)
        invariant outCnt <= size - HEADROOM && outCnt + len < size ==> outbuf == old(outbuf)
        invariant len < HEADROOM ==> outbuf.Length == checked
        invariant cmdbuf == old(cmdbuf) && tmpbuf == old(tmpbuf) && tmpSize == old(tmpSize)
        decreases outCnt + len - outbuf.Length
      {
        Grow();
        doublings := doublings + 1;
      }
    }

    /** The vsprintf of outf: the text and its terminator at the end of the
        output. */
    method Put(text: string)
      requires Valid() && outCnt + |text| < outbuf.Length
      modifies this, outbuf
      ensures Valid() && outbuf == old(outbuf) && outbuf[outCnt] == '\0'
      ensures Output() == old(Output()) + text
      ensures cmdbuf == old(cmdbuf) && tmpbuf == old(tmpbuf) && tmpSize == old(tmpSize)
    {
      var k := 0;
      while k < |text|
        invariant 0 <= k <= |text| && outCnt == old(outCnt) && outbuf == old(outbuf)
        invariant cmdbuf == old(cmdbuf) && tmpbuf == old(tmpbuf) && tmpSize == old(tmpSize)
        invariant outbuf[..outCnt + k] == old(Output()) + text[..k]
      {
        outbuf[outCnt + k] := text[k];
        k := k + 1;
      }
      outbuf[outCnt + |text|] := '\0';
      outCnt := outCnt + |text|;
    }

    /** A run of outf calls, one per line. */
    method OutfAll(lines: seq<string>)
      requires Valid()
      modifies this, outbuf
      ensures Valid() && Output() == old(Output()) + Concat(lines)
      ensures outbuf == old(outbuf) || fresh(outbuf)
      ensures cmdbuf == old(cmdbuf) && tmpbuf == old(tmpbuf) && tmpSize == old(tmpSize)
    {
      for i := 0 to |lines|
        invariant Valid() && Output() == old(Output()) + Concat(lines[..i])
        invariant outbuf == old(outbuf) || fresh(outbuf)
        invariant cmdbuf == old(cmdbuf) && tmpbuf == old(tmpbuf) && tmpSize == old(tmpSize)
      {
        Outf(lines[i]);
        assert lines[..i + 1][..i] == lines[..i];
      }
      assert lines[..|lines|] == lines;
    }

    // -------------------------------------------------------------------
    // Handlers that talk to the target

    /** readCSR: the register's symbolic address, one 8-byte read, the value
        line, then for MCPUID the base ISA and one letter per extension bit
        (never 'I'), or for MTIME the clock in decimal and milliseconds. */
    method ReadCsr(a: Attr)
      requires Valid()
      modifies this, outbuf, world
      ensures Valid() && Shows(old(Output()), old(world.events), old(world.mem), ExecCsrRead(cfg, a, old(world.mem), old(Scratch())))
      ensures outbuf == old(outbuf) || fresh(outbuf)
      ensures cmdbuf == old(cmdbuf) && tmpbuf == old(tmpbuf)
    {
      var addr := cfg.socAddr(a);
      if addr == ALL_ONES {
        Outf(UnknownCsr(a));
        return;
      }
      ValueLine(a, addr);
    }

    /** readCSR once the name is known: the read, the value line and the
        detail line. */
    method ValueLine(a: Attr, addr: u64)
      requires Valid() && addr == cfg.socAddr(a) && addr != ALL_ONES
      modifies this, outbuf, world
      ensures Valid() && Shows(old(Output()), old(world.events), old(world.mem), ExecCsrRead(cfg, a, old(world.mem), old(Scratch())))
      ensures outbuf == old(outbuf) || fresh(outbuf)
      ensures cmdbuf == old(cmdbuf) && tmpbuf == old(tmpbuf)
    {
      var bytes := world.Read(addr, 8);
      ApplyWritesSnoc(old(world.mem), [], TapRead(addr, 8));
      var csr := Word(bytes);
      ghost var out0 := Output();
      Outf(CsrValueLine(addr, csr));
      ghost var out1 := Output();
      Detail(a, csr);
      Then(out0, CsrValueLine(addr, csr), out1, CsrDetail(cfg, a, csr), Output());
    }

    /** The MCPUID or MTIME line that follows the raw value. */
    method Detail(a: Attr, csr: u64)
      requires Valid()
      modifies this, outbuf
      ensures Valid() && Output() == old(Output()) + CsrDetail(cfg, a, csr)
      ensures outbuf == old(outbuf) || fresh(outbuf)
      ensures cmdbuf == old(cmdbuf) && tmpbuf == old(tmpbuf) && tmpSize == old(tmpSize)
    {
      if !a.Str? {
        return;
      }
      if a.s == "MCPUID" {
        ghost var out0 := Output();
        Outf("    Base: " + McpuidBase(csr));
        ghost var out1 := Output();
        Extensions(csr);
        ghost var out2 := Output();
        Outf("\n");
        Chain(out0, "    Base: " + McpuidBase(csr), out1, ExtLetters(csr, 26), out2, "\n", Output());
      } else if a.s == "MTIME" {
        Outf("    Clock: " + DecSigned64(csr) + "; ms: " + cfg.formatMs(csr) + "\n");
      }
    }

    /** One letter per set extension bit from 'A' to 'Z', 'I' skipped. */
    method Extensions(csr: u64)
      requires Valid()
      modifies this, outbuf
      ensures Valid() && Output() == old(Output()) + ExtLetters(csr, 26)
      ensures outbuf == old(outbuf) || fresh(outbuf)
      ensures cmdbuf == old(cmdbuf) && tmpbuf == old(tmpbuf) && tmpSize == old(tmpSize)
    {
      for i := 0 to 26
        invariant Valid() && Output() == old(Output()) + ExtLetters(csr, i)
        invariant outbuf == old(outbuf) || fresh(outbuf)
        invariant cmdbuf == old(cmdbuf) && tmpbuf == old(tmpbuf) && tmpSize == old(tmpSize)
      {
        if Bit(csr, i) {
          var letter := (65 + i) as char;
          if letter == 'I' {
            continue;
          }
          Outf([letter]);
        }
      }
    }

    /** writeCSR: one 8-byte write of the value at the register's address. */
    method WriteCsr(a: Attr, v: u64)
      requires Valid()
      modifies this, outbuf, world
      ensures Valid() && Shows(old(Output()), old(world.events), old(world.mem), ExecCsrWrite(cfg, a, v, old(Scratch())))
      ensures outbuf == old(outbuf) || fresh(outbuf)
      ensures cmdbuf == old(cmdbuf) && tmpbuf == old(tmpbuf)
    {
      var addr := cfg.socAddr(a);
      if addr == ALL_ONES {
        Outf(UnknownCsr(a));
        return;
      }
      ApplyWritesSnoc(world.mem, [], TapWrite(addr, 8, Le8(v)));
      world.Write(addr, Le8(v));
    }

    /** loadElf: the loader runs with MRESET held at 1, then MRESET is
        released. */
    method LoadElf(path: string)
      requires Valid()
      modifies world
      ensures Traced(old(world.events), old(world.mem), LoadElfEvents(cfg, path))
    {
      ghost var ev0, mem0 := world.events, world.mem;
      var addr := cfg.socAddr(Str("MRESET"));
      var mreset: u64 := 1;
      ghost var hold := TapWrite(addr, 8, Le8(mreset));
      Start();
      TapOut(addr, Le8(mreset), ev0, mem0, []);
      assert [] + [hold] == [hold];
      Act(LoadFile(path), ev0, mem0, [hold]);
      mreset := 0;
      TapOut(addr, Le8(mreset), ev0, mem0, [hold, LoadFile(path)]);
      assert [hold, LoadFile(path)] + [TapWrite(addr, 8, Le8(mreset))] == LoadElfEvents(cfg, path);
    }

    // -------------------------------------------------------------------
    // The target, one action at a time

    /** itap_->read, as one more action of a trace. */
    method TapIn(addr: u64, len: nat, ghost ev0: seq<Event>, ghost mem0: map<u64, byte>, ghost evs: seq<Event>)
      returns (data: seq<byte>)
      requires Traced(ev0, mem0, evs)
      modifies world
      ensures Traced(ev0, mem0, evs + [TapRead(addr, len)])
      ensures data == Fetch(ApplyWrites(mem0, evs), addr, len)
    {
      data := world.Read(addr, len);
      ApplyWritesSnoc(mem0, evs, TapRead(addr, len));
    }

    /** itap_->write, as one more action of a trace. */
    method TapOut(addr: u64, data: seq<byte>, ghost ev0: seq<Event>, ghost mem0: map<u64, byte>, ghost evs: seq<Event>)
      requires Traced(ev0, mem0, evs)
      modifies world
      ensures Traced(ev0, mem0, evs + [TapWrite(addr, |data|, data)])
    {
      world.Write(addr, data);
      ApplyWritesSnoc(mem0, evs, TapWrite(addr, |data|, data));
    }

    /** Any other action, as one more action of a trace. */
    method Act(e: Event, ghost ev0: seq<Event>, ghost mem0: map<u64, byte>, ghost evs: seq<Event>)
      requires Traced(ev0, mem0, evs) && !e.TapWrite?
      modifies world
      ensures Traced(ev0, mem0, evs + [e])
    {
      world.Record(e);
      ApplyWritesSnoc(mem0, evs, e);
    }

    // -------------------------------------------------------------------
    // Run control, logging and exit

    /** halt: the run-control word with only the halt bit set, at the DSU
        base. */
    method Halt()
      requires Valid()
      modifies world
      ensures Traced(old(world.events), old(world.mem), RunControlEvents(cfg, Command.Halt))
    {
      var addr := cfg.dsuBase;
      var ctrl := RunControl(true, false, 0);
      Start();
      TapOut(addr, Le8(EncodeRunControl(ctrl)), world.events, world.mem, []);
      assert [] + [TapWrite(addr, 8, Le8(HaltWord()))] == RunControlEvents(cfg, Command.Halt);
    }

    /** run: without a count, the all-zero word (free run); with one, the
        count at DSU base + 8, then the word with only the stepping bit. */
    method Run(steps: Option<u64>)
      requires Valid()
      modifies world
      ensures Traced(old(world.events), old(world.mem), RunControlEvents(cfg, Command.Run(steps)))
    {
      var addr := cfg.dsuBase;
      ghost var ev0, mem0 := world.events, world.mem;
      Start();
      match steps {
        case None =>
          var ctrl := RunControl(false, false, 0);
          TapOut(addr, Le8(EncodeRunControl(ctrl)), ev0, mem0, []);
          assert [] + [TapWrite(addr, 8, Le8(FreeRunWord()))] == RunControlEvents(cfg, Command.Run(steps));
        case Some(n) =>
          ghost var count := TapWrite(AddU64(addr, 8), 8, Le8(n));
          TapOut(AddU64(addr, 8), Le8(n), ev0, mem0, []);
          assert [] + [count] == [count];
          var ctrl := RunControl(false, true, 0);
          TapOut(addr, Le8(EncodeRunControl(ctrl)), ev0, mem0, [count]);
          assert [count] + [TapWrite(addr, 8, Le8(StepWord()))] == RunControlEvents(cfg, Command.Run(steps));
      }
    }

    /** br: "add" writes the address to DSU base + 16, "rm" to DSU base + 24;
        any other word does nothing. */
    method Br(sub: string, value: u64)
      requires Valid()
      modifies world
      ensures Traced(old(world.events), old(world.mem), RunControlEvents(cfg, Breakpoint(sub, value)))
    {
      Start();
      if sub == "add" {
        var dsuOff := AddU64(cfg.dsuBase, 16);
        TapOut(dsuOff, Le8(value), world.events, world.mem, []);
        assert [] + [TapWrite(dsuOff, 8, Le8(value))] == RunControlEvents(cfg, Breakpoint(sub, value));
      } else if sub == "rm" {
        var dsuOff := AddU64(cfg.dsuBase, 24);
        TapOut(dsuOff, Le8(value), world.events, world.mem, []);
        assert [] + [TapWrite(dsuOff, 8, Le8(value))] == RunControlEvents(cfg, Breakpoint(sub, value));
      }
    }

    /** log: every console is told to log into the file, in order. */
    method EnableLogs(path: string)
      requires Valid()
      modifies world
      ensures Traced(old(world.events), old(world.mem), LogEvents(cfg, path))
    {
      ghost var ev0, mem0 := world.events, world.mem;
      Start();
      for i := 0 to |cfg.consoles|
        invariant Traced(ev0, mem0, LogEvents(cfg, path)[..i])
      {
        Act(EnableLog(cfg.consoles[i], path), ev0, mem0, LogEvents(cfg, path)[..i]);
        assert LogEvents(cfg, path)[..i + 1] == LogEvents(cfg, path)[..i] + [EnableLog(cfg.consoles[i], path)];
      }
      assert LogEvents(cfg, path)[..|cfg.consoles|] == LogEvents(cfg, path);
    }

    /** exit: RISCV_break_simulation. */
    method Exit()
      requires Valid()
      modifies world
      ensures Traced(old(world.events), old(world.mem), [BreakSimulation])
    {
      Start();
      Act(BreakSimulation, world.events, world.mem, []);
      assert [] + [BreakSimulation] == [BreakSimulation];
    }

    /** No action yet: the trace starts here. */
    lemma Start()
      ensures Traced(world.events, world.mem, [])
    {
      assert world.events + [] == world.events;
    }

    // -------------------------------------------------------------------
    // readMem

    /** readMem: the scratch buffer is replaced by one of count + 1 bytes
        when the count exceeds its size, the bytes are read into it, and
        the 16-byte aligned window around them is printed lane-reversed. */
    method ReadMem(addr: u64, bytesArg: u64)
      requires Valid()
      modifies this, outbuf, tmpbuf, world
      ensures Valid() && Shows(old(Output()), old(world.events), old(world.mem), ExecReadMem(old(world.mem), addr, bytesArg, old(Scratch())))
      ensures outbuf == old(outbuf) || fresh(outbuf)
      ensures tmpbuf == old(tmpbuf) || fresh(tmpbuf)
      ensures cmdbuf == old(cmdbuf)
    {
      ghost var ev0, mem0, scratch0 := world.events, world.mem, Scratch();
      Start();
      var bytes := ToInt32(bytesArg);
      if bytes < 0 {
        return;
      }
      if bytes > tmpSize {
        tmpSize := bytes;
        tmpbuf := new byte[tmpSize + 1];
      }
      ghost var buf := Scratch();
      assert buf == if bytes > |scratch0| then buf else scratch0;
      var start := BlockStart(addr);
      var end := WindowEnd(addr, bytes);
      var data := TapIn(addr, bytes, ev0, mem0, []);
      assert [] + [TapRead(addr, bytes)] == [TapRead(addr, bytes)];
      Fill(data);
      PrintWindow(addr, bytes, start, end, data);
    }

    /** itap_->read into the scratch buffer: its first |data| bytes. */
    method Fill(data: seq<byte>)
      requires Valid() && |data| <= tmpSize
      modifies tmpbuf
      ensures Scratch() == data + old(Scratch())[|data|..]
    {
      forall k | 0 <= k < |data| {
        tmpbuf[k] := data[k];
      }
      assert Scratch() == data + old(Scratch())[|data|..];
    }

    /** The printing loop of readMem over the window start .. end-1, from
        the first count bytes of the scratch buffer. */
    method PrintWindow(addr: u64, count: nat, start: u64, end: u64, ghost data: seq<byte>)
      requires Valid() && count <= tmpSize && data == tmpbuf[..count] && count < 0x8000_0000
      modifies this, outbuf
      ensures Valid() && Output() == old(Output()) + Window(addr, data, start, end)
      ensures outbuf == old(outbuf) || fresh(outbuf)
      ensures cmdbuf == old(cmdbuf) && tmpbuf == old(tmpbuf) && tmpSize == old(tmpSize)
    {
      ghost var out0 := Output();
      ghost var text: string := [];
      assert out0 + [] == out0;
      var i := start;
      while i < end
        invariant start <= i && (i <= end || i == start)
        invariant Valid() && Output() == out0 + text
        invariant text == Window(addr, data, start, i)
        invariant outbuf == old(outbuf) || fresh(outbuf)
        invariant cmdbuf == old(cmdbuf) && tmpbuf == old(tmpbuf) && tmpSize == old(tmpSize)
      {
        text := NextPosition(addr, count, start, i, data, out0, text);
        i := i + 1;
      }
      if i != end {
        assert Window(addr, data, start, end) == [];
      }
    }

    /** One turn of the readMem loop: the window text so far grows by
        position i. */
    method NextPosition(addr: u64, count: nat, start: u64, i: u64, ghost data: seq<byte>, ghost out0: string, ghost text: string)
      returns (ghost text': string)
      requires Valid() && count <= tmpSize && data == tmpbuf[..count] && count < 0x8000_0000
      requires start <= i < ALL_ONES && Output() == out0 + text && text == Window(addr, data, start, i)
      modifies this, outbuf
      ensures Valid() && Output() == out0 + text' && text' == Window(addr, data, start, i + 1)
      ensures outbuf == old(outbuf) || fresh(outbuf)
      ensures cmdbuf == old(cmdbuf) && tmpbuf == old(tmpbuf) && tmpSize == old(tmpSize)
    {
      PrintPosition(addr, count, i, data);
      WindowStep(addr, data, start, i);
      Then(out0, text, old(Output()), PositionText(addr, data, i), Output());
      text' := text + PositionText(addr, data, i);
    }

    /** One position of the readMem window: the header at a block start,
        the byte at the reversed address or "..", the newline at a block
        end. */
    method PrintPosition(addr: u64, count: nat, i: u64, ghost data: seq<byte>)
      requires Valid() && count <= tmpSize && data == tmpbuf[..count] && count < 0x8000_0000
      modifies this, outbuf
      ensures Valid() && Output() == old(Output()) + PositionText(addr, data, i)
      ensures outbuf == old(outbuf) || fresh(outbuf)
      ensures cmdbuf == old(cmdbuf) && tmpbuf == old(tmpbuf) && tmpSize == old(tmpSize)
    {
      ghost var out0 := Output();
      OutfIf(i % 16 == 0, "[" + Hex16(i) + "]: ");
      ghost var out1 := Output();
      PrintByte(addr, count, i, data);
      ghost var out2 := Output();
      OutfIf(i % 16 == 15, "\n");
      Chain(out0, if i % 16 == 0 then Header(i) else [], out1, Cell(addr, data, i), out2,
        if i % 16 == 15 then "\n" else [], Output());
    }

    /** The cell of one window position. */
    method PrintByte(addr: u64, count: nat, i: u64, ghost data: seq<byte>)
      requires Valid() && count <= tmpSize && data == tmpbuf[..count] && count < 0x8000_0000
      modifies this, outbuf
      ensures Valid() && Output() == old(Output()) + Cell(addr, data, i)
      ensures outbuf == old(outbuf) || fresh(outbuf)
      ensures cmdbuf == old(cmdbuf) && tmpbuf == old(tmpbuf) && tmpSize == old(tmpSize)
    {
      var inv := Inv(i);
      if addr <= inv && inv < (addr + count) % U64_LIMIT {
        Outf(" " + Hex2(tmpbuf[inv - addr]));
      } else {
        Outf(" ..");
      }
    }

    /** An outf that only happens when cond holds. */
    method OutfIf(cond: bool, text: string)
      requires Valid()
      modifies this, outbuf
      ensures Valid() && Output() == old(Output()) + (if cond then text else [])
      ensures outbuf == old(outbuf) || fresh(outbuf)
      ensures cmdbuf == old(cmdbuf) && tmpbuf == old(tmpbuf) && tmpSize == old(tmpSize)
    {
      if cond {
        Outf(text);
      } else {
        assert Output() == Output() + [];
      }
    }

    // -------------------------------------------------------------------
    // writeMem

    /** writeMem: the value (one word, or a list of words) is stored from
        the start of the scratch buffer, and the first count bytes of the
        buffer are written. Unlike the source, the buffer is first replaced
        by a zeroed one when the words or the count do not fit it (see
        Findings in README). */
    method WriteMem(addr: u64, bytesArg: u64, value: Attr)
      requires Valid()
      modifies this, outbuf, tmpbuf, world
      ensures Valid() && Shows(old(Output()), old(world.events), old(world.mem), ExecWriteMem(addr, bytesArg, value, old(Scratch())))
      ensures outbuf == old(outbuf) || fresh(outbuf)
      ensures tmpbuf == old(tmpbuf) || fresh(tmpbuf)
      ensures cmdbuf == old(cmdbuf)
    {
      ghost var ev0, mem0 := world.events, world.mem;
      Start();
      if !value.Int? && !value.List? {
        Outf(WRONG_WRITE);
        return;
      }
      var bytes := ToInt32(bytesArg);
      if bytes < 0 {
        return;
      }
      WriteWords(addr, bytes, value);
    }

    /** writeMem once the value and the count are known good. */
    method WriteWords(addr: u64, count: nat, value: Attr)
      requires Valid()
      modifies this, tmpbuf, world
      ensures Valid() && Output() == old(Output()) && outbuf == old(outbuf) && cmdbuf == old(cmdbuf)
      ensures tmpbuf == old(tmpbuf) || fresh(tmpbuf)
      ensures Scratch() == WriteScratch(count, value, old(Scratch()))
      ensures Traced(old(world.events), old(world.mem), [TapWrite(addr, count, Scratch()[..count])])
    {
      ghost var ev0, mem0 := world.events, world.mem;
      Start();
      var need := WriteNeed(count, value);
      if need > tmpSize {
        tmpbuf := new byte[need](_ => 0);
        tmpSize := need;
        assert Scratch() == Zeros(need);
      }
      StoreWords(value);
      var data := tmpbuf[..count];
      assert data == Scratch()[..count];
      TapOut(addr, data, ev0, mem0, []);
      assert [] + [TapWrite(addr, |data|, data)] == [TapWrite(addr, count, Scratch()[..count])];
    }

    /** The stores of writeMem: the integer at word 0, or list item i at
        word i. */
    method StoreWords(value: Attr)
      requires Valid() && 8 * |WordsOf(value)| <= tmpSize
      modifies tmpbuf
      ensures Scratch() == FillWords(old(Scratch()), WordsOf(value))
    {
      ghost var buf := Scratch();
      if value.Int? {
        StoreWord(0, value.v);
        FillStep(buf, [], value.v);
      } else if value.List? {
        ghost var words := WordsOf(value);
        assert FillWords(buf, words[..0]) == buf;
        for i := 0 to |value.items|
          invariant Scratch() == FillWords(buf, words[..i])
        {
          var val := AsU64(value.items[i]);
          FillStep(buf, words[..i], val);
          StoreWord(i, val);
          assert words[..i + 1] == words[..i] + [val];
        }
        assert words[..|value.items|] == words;
      } else {
        assert FillWords(buf, []) == buf;
      }
    }

    /** reinterpret_cast<uint64_t *>(tmpbuf_)[i] = val: the eight bytes of
        the word, least significant first, at offset 8i. */
    method StoreWord(i: nat, val: u64)
      requires Valid() && 8 * i + 8 <= tmpSize
      modifies tmpbuf
      ensures Scratch() == old(Scratch())[..8 * i] + Le8(val) + old(Scratch())[8 * i + 8..]
    {
      var b := Le8(val);
      forall k | 0 <= k < 8 {
        tmpbuf[8 * i + k] := b[k];
      }
    }

    // -------------------------------------------------------------------
    // memDump

    /** memDump: nothing but a message when the file does not open;
        otherwise the bytes are read (into the scratch buffer when they fit
        it, into a buffer of their own otherwise) and written to the file,
        raw or as hex lines. */
    method MemDump(addr: u64, lenArg: u64, path: string, hex: bool)
      requires Valid()
      modifies this, outbuf, tmpbuf, world
      ensures Valid() && Shows(old(Output()), old(world.events), old(world.mem), ExecMemDump(cfg, old(world.mem), addr, lenArg, path, hex, old(Scratch())))
      ensures outbuf == old(outbuf) || fresh(outbuf)
      ensures tmpbuf == old(tmpbuf) && cmdbuf == old(cmdbuf)
    {
      ghost var ev0, mem0 := world.events, world.mem;
      Start();
      if !cfg.canOpen(path) {
        Outf("Can't open '" + path + "' file");
        return;
      }
      Act(FileOpen(path), ev0, mem0, []);
      ghost var atOpen := [FileOpen(path)];
      assert [] + atOpen == atOpen;
      var len := ToInt32(lenArg);
      if len < 0 {
        Act(FileClose(path), ev0, mem0, atOpen);
        return;
      }
      ApplyWritesWithoutWrites(mem0, atOpen);
      var data := TapIn(addr, len, ev0, mem0, atOpen);
      ghost var atRead := atOpen + [TapRead(addr, len)];
      assert atRead == [FileOpen(path), TapRead(addr, len)];
      var dumpbuf: array<byte>;
      if len > tmpSize {
        dumpbuf := new byte[len](k requires 0 <= k < len => data[k]);
      } else {
        Fill(data);
        dumpbuf := tmpbuf;
      }
      assert dumpbuf[..len] == data;
      ghost var writes := if hex then HexDumpEvents(path, data) else [FileWriteBytes(path, data)];
      if hex {
        HexDump(path, dumpbuf, len, data, ev0, mem0, atRead);
      } else {
        Act(FileWriteBytes(path, dumpbuf[..len]), ev0, mem0, atRead);
      }
      Act(FileClose(path), ev0, mem0, atRead + writes);
    }

    /** The hex branch of memDump: two hex digits per position, each block
        of 16 lane reversed, one fwrite per full line and one for the
        trailing partial line. */
    method HexDump(path: string, dumpbuf: array<byte>, len: nat, ghost data: seq<byte>, ghost ev0: seq<Event>, ghost mem0: map<u64, byte>, ghost evs: seq<Event>)
      requires len <= dumpbuf.Length && dumpbuf[..len] == data && Traced(ev0, mem0, evs)
      modifies world
      ensures Traced(ev0, mem0, evs + HexDumpEvents(path, data))
    {
      var line := DumpLoop(path, dumpbuf, len, data, ev0, mem0, evs);
      HexDumpDone(path, data, line, evs);
      if len % 16 != 0 {
        Act(FileWriteText(path, line), ev0, mem0, evs + Written(path, data, len));
      }
    }

    /** The loop of the hex branch over positions 0 .. len-1. */
    method DumpLoop(path: string, dumpbuf: array<byte>, len: nat, ghost data: seq<byte>, ghost ev0: seq<Event>, ghost mem0: map<u64, byte>, ghost evs: seq<Event>)
      returns (line: string)
      requires len <= dumpbuf.Length && dumpbuf[..len] == data && Traced(ev0, mem0, evs)
      modifies world
      ensures Traced(ev0, mem0, evs + Written(path, data, len)) && line == Pending(data, len)
    {
      line := [];
      var i := 0;
      assert evs + Written(path, data, 0) == evs;
      while i < len
        invariant i <= len
        invariant Traced(ev0, mem0, evs + Written(path, data, i))
        invariant line == Pending(data, i)
      {
        line := DumpPosition(path, dumpbuf, len, i, line, data, ev0, mem0, evs);
        i := i + 1;
      }
    }

    /** One position of the hex dump. */
    method DumpPosition(path: string, dumpbuf: array<byte>, len: nat, i: nat, line: string, ghost data: seq<byte>, ghost ev0: seq<Event>, ghost mem0: map<u64, byte>, ghost evs: seq<Event>)
      returns (line': string)
      requires i < len <= dumpbuf.Length && dumpbuf[..len] == data
      requires Traced(ev0, mem0, evs + Written(path, data, i))
      requires line == Pending(data, i)
      modifies world
      ensures Traced(ev0, mem0, evs + Written(path, data, i + 1))
      ensures line' == Pending(data, i + 1)
    {
      var inv := Inv(i);
      var b: byte := if inv < len then dumpbuf[inv] else 0;
      assert b == DumpByte(data, inv);
      line' := line + Hex2(b);
      DumpStep(path, data, i);
      if i % 16 == 15 {
        line' := line' + "\n";
        ghost var before := evs + Written(path, data, i);
        Act(FileWriteText(path, line'), ev0, mem0, before);
        assert before + [FileWriteText(path, line')] == evs + Written(path, data, i + 1);
        line' := [];
      }
    }

    // -------------------------------------------------------------------
    // regs

    /** getRegIDx: the index of the first table entry with the name, 0 when
        there is none. */
    method GetRegIdx(name: string) returns (idx: u64)
      ensures idx == RegIndex(cfg.regNames, name)
    {
      var names := cfg.regNames;
      for i := 0 to |names|
        invariant RegIndex(names[i..], name) == RegIndex(names, name)
      {
        if names[i].0 == name {
          return names[i].1;
        }
        assert names[i..][1..] == names[i + 1..];
      }
      assert names[|names|..] == [];
      return 0;
    }

    /** regs: the register file is read slot by slot into a local array,
        then printed in the three-column layout. */
    method Regs()
      requires Valid()
      modifies this, outbuf, world
      ensures Valid() && Shows(old(Output()), old(world.events), old(world.mem), ExecRegs(cfg, old(world.mem), old(Scratch())))
      ensures outbuf == old(outbuf) || fresh(outbuf)
      ensures cmdbuf == old(cmdbuf) && tmpbuf == old(tmpbuf)
    {
      var regs := ReadRegs();
      PrintRegs(regs, REGS_LAYOUT);
    }

    /** The reads of regs: slots 1 .. |regNames|-1 of the register file, each
        into its own element of a zeroed uint64_t regs[128]. */
    method ReadRegs() returns (regs: array<u64>)
      requires Valid()
      modifies world
      ensures fresh(regs) && regs[..] == RegValues(cfg, old(world.mem))
      ensures Traced(old(world.events), old(world.mem), RegsEvents(cfg))
    {
      regs := new u64[128](_ => 0);
      ghost var ev0, mem0 := world.events, world.mem;
      var n := |cfg.regNames|;
      Start();
      assert regs[..] == RegsSoFar(cfg, mem0, 1);
      var i := 1;
      while i < n
        invariant 1 <= i && (i <= n || i == 1)
        invariant Traced(ev0, mem0, SlotReads(cfg, i))
        invariant regs[..] == RegsSoFar(cfg, mem0, i)
      {
        ReadStep(cfg, mem0, i);
        ApplyWritesWithoutWrites(mem0, SlotReads(cfg, i));
        var bytes := TapIn(SlotAddr(cfg, i), 8, ev0, mem0, SlotReads(cfg, i));
        regs[i] := Word(bytes);
        i := i + 1;
      }
      ReadsDone(cfg, mem0, i);
    }

    /** The outf calls of regs, cell by cell of the layout. */
    method PrintRegs(regs: array<u64>, layout: seq<RegCell>)
      requires Valid() && regs.Length == 128
      modifies this, outbuf
      ensures Valid() && Output() == old(Output()) + RegsText(cfg, regs[..], layout)
      ensures outbuf == old(outbuf) || fresh(outbuf)
      ensures cmdbuf == old(cmdbuf) && tmpbuf == old(tmpbuf) && tmpSize == old(tmpSize)
    {
      ghost var vals := regs[..];
      for c := 0 to |layout|
        invariant Valid() && Output() == old(Output()) + RegsText(cfg, vals, layout[..c])
        invariant outbuf == old(outbuf) || fresh(outbuf)
        invariant cmdbuf == old(cmdbuf) && tmpbuf == old(tmpbuf) && tmpSize == old(tmpSize)
      {
        ghost var before := Output();
        PrintCell(regs, layout[c]);
        assert layout[..c + 1][..c] == layout[..c];
        Then(old(Output()), RegsText(cfg, vals, layout[..c]), before, CellText(cfg, vals, layout[c]), Output());
      }
      assert layout[..|layout|] == layout;
    }

    /** One outf of regs: the filler, or a caption, a register in sixteen hex
        digits and a suffix. */
    method PrintCell(regs: array<u64>, cell: RegCell)
      requires Valid() && regs.Length == 128
      modifies this, outbuf
      ensures Valid() && Output() == old(Output()) + CellText(cfg, regs[..], cell)
      ensures outbuf == old(outbuf) || fresh(outbuf)
      ensures cmdbuf == old(cmdbuf) && tmpbuf == old(tmpbuf) && tmpSize == old(tmpSize)
    {
      match cell
      case Filler =>
        Outf(FILLER_TEXT);
      case Slot(caption, reg, suffix) =>
        var idx := GetRegIdx(reg);
        RegIndexInTable(cfg.regNames, reg);
        Outf(caption + Hex16(regs[idx]) + suffix);
    }

    // -------------------------------------------------------------------
    // splitLine

    /** The argument the C string at position from becomes: from_config
        for a literal-looking token, make_string otherwise. */
    method Item(from: nat, ghost stop: nat) returns (item: Attr)
      requires from <= stop < cmdbuf.Length && cmdbuf[stop] == '\0' && '\0' !in cmdbuf[from..stop]
      ensures item == Classify(cmdbuf[from..stop], cfg.parseLiteral)
    {
      var k := from;
      while cmdbuf[k] != '\0'
        invariant from <= k <= stop && '\0' !in cmdbuf[from..k]
        decreases stop - k
      {
        k := k + 1;
      }
      var tok := cmdbuf[from..k];
      if LooksLiteral(tok) {
        item := cfg.parseLiteral(tok);
      } else {
        item := Str(tok);
      }
    }

    /** Overwrites the unquoted space at end, and the spaces right after it,
        with NULs; returns the position of the last one. The line's text
        before the run and after it stays as it was. */
    method BlankRun(end: nat, ghost from: nat, ghost n: nat, ghost line: string) returns (stop: nat)
      requires from <= end < n < cmdbuf.Length && cmdbuf[n] == '\0'
      requires cmdbuf[from..n] == line && line[end - from] == ' '
      modifies cmdbuf
      ensures end <= stop < n && cmdbuf[end] == '\0' && cmdbuf[stop] == '\0' && cmdbuf[n] == '\0'
      ensures cmdbuf[from..end] == line[..end - from] && cmdbuf[stop + 1..n] == line[stop + 1 - from..]
      ensures forall k :: end - from <= k <= stop - from ==> line[k] == ' '
      ensures stop + 1 == n || line[stop + 1 - from] != ' '
    {
      stop := end;
      cmdbuf[stop] := '\0';
      while cmdbuf[stop + 1] == ' '
        invariant end <= stop < n && cmdbuf[end] == '\0' && cmdbuf[stop] == '\0' && cmdbuf[n] == '\0'
        invariant cmdbuf[from..end] == line[..end - from] && cmdbuf[stop + 1..n] == line[stop + 1 - from..]
        invariant forall k :: end - from <= k <= stop - from ==> line[k] == ' '
        decreases n - stop
      {
        assert line[stop + 1 - from] == cmdbuf[stop + 1];
        stop := stop + 1;
        cmdbuf[stop] := '\0';
      }
      assert stop + 1 < n ==> line[stop + 1 - from] == cmdbuf[stop + 1];
    }

    /** splitLine: cuts the NUL-terminated line at from into arguments in
        place, overwriting each delimiting run of unquoted spaces with NULs,
        and returns the arguments it appends, which are exactly those of the
        line's text. */
    method SplitLine(from: nat, ghost n: nat) returns (args: seq<Attr>)
      requires from <= n < cmdbuf.Length && cmdbuf[n] == '\0' && '\0' !in cmdbuf[from..n]
      modifies cmdbuf
      ensures args == Args(old(cmdbuf[from..n]), cfg.parseLiteral)
      decreases n - from, 0
    {
      ghost var line := cmdbuf[from..n];
      var end := from;
      var last := false;
      var inside := false;
      var marker := ' ';
      args := [];
      while cmdbuf[from] != '\0'
        invariant from <= end <= n && !last && args == []
        invariant cmdbuf[from..n] == line && cmdbuf[n] == '\0'
        invariant Scan(line, 0, START) == Scan(line, end - from, Quote(inside, marker))
        decreases n - end
      {
        ghost var q := Quote(inside, marker);
        ghost var e := end - from;
        ghost var tokEnd := end;
        assert end < n ==> cmdbuf[end] == line[e];
        if cmdbuf[end] == '\0' {
          assert end == n by { NoNulBefore(line, e); }
          last := true;
        } else if cmdbuf[end] == ' ' && !inside {
          end := BlankRun(end, from, n, line);
        } else if !inside && (cmdbuf[end] == '"' || cmdbuf[end] == '\'') {
          inside := true;
          marker := cmdbuf[end];
        } else if inside && marker == cmdbuf[end] {
          inside := false;
        }

        if cmdbuf[end] == '\0' {
          args := Emit(from, end, last, tokEnd, n, line);
          break;
        }
        end := end + 1;
      }
    }

    /** The tail of splitLine's loop body once *end is NUL: the token that
        starts at from becomes an argument and, unless the line ended, the
        call recurses on the text after the blanked run. */
    method Emit(from: nat, end: nat, last: bool, ghost tokEnd: nat, ghost n: nat, ghost line: string)
      returns (args: seq<Attr>)
      requires from <= tokEnd <= end <= n < cmdbuf.Length && cmdbuf[n] == '\0'
      requires |line| == n - from && '\0' !in line && line != []
      requires cmdbuf[tokEnd] == '\0' && cmdbuf[from..tokEnd] == line[..tokEnd - from]
      requires last ==> tokEnd == n && Scan(line, 0, START) == |line|
      requires !last ==> end < n && Scan(line, 0, START) == tokEnd - from
      requires !last ==> cmdbuf[end + 1..n] == line[end + 1 - from..]
      requires !last ==> forall k :: tokEnd - from <= k <= end - from ==> line[k] == ' '
      requires !last ==> end + 1 == n || line[end + 1 - from] != ' '
      modifies cmdbuf
      ensures args == Args(line, cfg.parseLiteral)
      decreases n - end - 1, 1
    {
      ghost var e := tokEnd - from;
      assert cmdbuf[from..tokEnd] == line[..e];
      NulFreeParts(line, e);
      var item := Item(from, tokEnd);
      if !last {
        NulFreeParts(line, end + 1 - from);
        var rest := SplitLine(end + 1, n);
        args := [item] + rest;
        SplitAfterScan(line, e, end - tokEnd, cfg.parseLiteral, item, rest);
      } else {
        args := [item];
        SingleAfterScan(line, cfg.parseLiteral, item);
      }
    }
  }

  /** The reads of regs for slots 1 .. i-1. */
  ghost function SlotReads(cfg: Config, i: nat): seq<Event>
    requires i <= 128
  {
    if i <= 1 then [] else seq(i - 1, k requires 0 <= k < i - 1 => TapRead(SlotAddr(cfg, k + 1), 8))
  }

  /** regs[128] once slots 1 .. i-1 are read. */
  ghost function RegsSoFar(cfg: Config, mem: map<u64, byte>, i: nat): (vals: seq<u64>)
    requires i <= 128
  {
    seq(128, j requires 0 <= j < 128 => if 1 <= j < i then Word(Fetch(mem, SlotAddr(cfg, j), 8)) else 0)
  }

  /** One more slot read. */
  lemma ReadStep(cfg: Config, mem: map<u64, byte>, i: nat)
    requires 1 <= i < 128
    ensures SlotReads(cfg, i + 1) == SlotReads(cfg, i) + [TapRead(SlotAddr(cfg, i), 8)]
    ensures RegsSoFar(cfg, mem, i + 1) == RegsSoFar(cfg, mem, i)[i := Word(Fetch(mem, SlotAddr(cfg, i), 8))]
    ensures forall k :: 0 <= k < |SlotReads(cfg, i)| ==> !SlotReads(cfg, i)[k].TapWrite?
  {
  }

  /** The loop of regs ends having read every slot but slot 0. */
  lemma ReadsDone(cfg: Config, mem: map<u64, byte>, i: nat)
    requires ValidConfig(cfg) && 1 <= i && (i == |cfg.regNames| || (i == 1 && |cfg.regNames| <= 1))
    ensures SlotReads(cfg, i) == RegsEvents(cfg)
    ensures RegsSoFar(cfg, mem, i) == RegValues(cfg, mem)
  {
  }

  /** What readMem prints for position i of the window of a read of data
      at addr. */
  function PositionText(addr: u64, data: seq<byte>, i: u64): string
    requires |data| < 0x8000_0000
  {
    (if i % 16 == 0 then Header(i) else []) + Cell(addr, data, i) + (if i % 16 == 15 then "\n" else [])
  }

  /** The readMem window text for positions lo .. hi-1 of a read of data
      at addr. */
  function Window(addr: u64, data: seq<byte>, lo: u64, hi: u64): string
    requires |data| < 0x8000_0000
  {
    WindowText(Header, Cells(addr, data), lo, hi)
  }

  /** The window text grows by one position at a time. */
  lemma WindowStep(addr: u64, data: seq<byte>, start: u64, i: u64)
    requires |data| < 0x8000_0000 && start <= i < ALL_ONES
    ensures Window(addr, data, start, i + 1) == Window(addr, data, start, i) + PositionText(addr, data, i)
  {
  }

  /** Storing one more word after the first |ws|. */
  lemma FillStep(buf: seq<byte>, ws: seq<u64>, w: u64)
    requires 8 * (|ws| + 1) <= |buf|
    ensures FillWords(buf, ws + [w]) == FillWords(buf, ws)[..8 * |ws|] + Le8(w) + FillWords(buf, ws)[8 * |ws| + 8..]
  {
    var f, g := FillWords(buf, ws), FillWords(buf, ws + [w]);
    var n := 8 * |ws|;
    forall p | 0 <= p < |buf|
      ensures g[p] == (f[..n] + Le8(w) + f[n + 8..])[p]
    {
      if p < n {
        assert (ws + [w])[p / 8] == ws[p / 8];
      } else if p < n + 8 {
        assert p / 8 == |ws| && p % 8 == p - n;
      }
    }
  }

  /** The dump is its full lines, then the partial line left over. */
  lemma HexDumpDone(path: string, data: seq<byte>, line: string, evs: seq<Event>)
    requires line == Pending(data, |data|)
    ensures |data| % 16 != 0 ==> evs + HexDumpEvents(path, data) == evs + Written(path, data, |data|) + [FileWriteText(path, line)]
    ensures |data| % 16 == 0 ==> evs + HexDumpEvents(path, data) == evs + Written(path, data, |data|)
  {
  }

  /** The hex digits of the current line before position i. */
  ghost function Pending(data: seq<byte>, i: nat): string
  {
    DumpChars(data, BlockStart(i), i)
  }

  /** The fwrite calls issued before position i. */
  ghost function Written(path: string, data: seq<byte>, i: nat): seq<Event>
  {
    DumpLines(path, data, i / 16)
  }

  /** Position i adds its two digits to the line, and ends the line
      exactly when it is the last of a block. */
  lemma DumpStep(path: string, data: seq<byte>, i: nat)
    ensures i % 16 != 15 ==> Pending(data, i + 1) == Pending(data, i) + Hex2(DumpByte(data, Inv(i))) && Written(path, data, i + 1) == Written(path, data, i)
    ensures i % 16 == 15 ==> Pending(data, i + 1) == []
    ensures i % 16 == 15 ==>
      Written(path, data, i + 1) == Written(path, data, i) + [FileWriteText(path, Pending(data, i) + Hex2(DumpByte(data, Inv(i))) + "\n")]
  {
    var n := i / 16;
    assert BlockStart(i) == 16 * n;
    if i % 16 == 15 {
      assert (i + 1) / 16 == n + 1 && 16 * (n + 1) == i + 1;
      assert BlockStart(i + 1) == i + 1;
    } else {
      assert BlockStart(i + 1) == BlockStart(i);
    }
  }

  /** Two texts printed one after the other. */
  lemma Then(out0: string, t1: string, out1: string, t2: string, out2: string)
    requires out1 == out0 + t1 && out2 == out1 + t2
    ensures out2 == out0 + (t1 + t2)
  {
  }

  /** Three texts printed one after the other. */
  lemma Chain(out0: string, t1: string, out1: string, t2: string, out2: string, t3: string, out3: string)
    requires out1 == out0 + t1 && out2 == out1 + t2 && out3 == out2 + t3
    ensures out3 == out0 + (t1 + t2 + t3)
  {
  }

  /** n is size times a power of two: the only sizes doubling reaches. */
  ghost predicate DoubledFrom(size: nat, n: nat)
  {
    exists k: nat :: n == size * Pow(2, k)
  }

  /** Below the line's end the line has no NUL, so a NUL at offset e of the
      buffer is the terminator. */
  lemma NoNulBefore(line: string, e: nat)
    requires e <= |line| && '\0' !in line
    ensures e < |line| ==> line[e] != '\0'
  {
  }

  /** The parts of a text without NUL have none. */
  lemma NulFreeParts(s: string, i: nat)
    requires i <= |s| && '\0' !in s
    ensures '\0' !in s[..i] && '\0' !in s[i..]
  {
  }

  /** The arguments of a line whose scan stops at e, before a run of r+1
      spaces: the first token's argument, then those of the rest. */
  lemma SplitAfterScan(line: string, e: nat, r: nat, parse: string -> Attr, item: Attr, rest: seq<Attr>)
    requires e + r < |line| && Scan(line, 0, START) == e
    requires forall k :: e <= k <= e + r ==> line[k] == ' '
    requires e + r + 1 == |line| || line[e + r + 1] != ' '
    requires item == Classify(line[..e], parse) && rest == Args(line[e + r + 1..], parse)
    ensures [item] + rest == Args(line, parse)
  {
    ScanIsTokenLen(line, 0, START);
    assert line[0..] == line;
    SplitAtSpace(line, e, r, parse, item, rest);
  }

  /** The arguments of a non-empty line whose scan runs to its end. */
  lemma SingleAfterScan(line: string, parse: string -> Attr, item: Attr)
    requires line != [] && Scan(line, 0, START) == |line| && item == Classify(line[..|line|], parse)
    ensures [item] == Args(line, parse)
  {
    ScanIsTokenLen(line, 0, START);
    assert line[0..] == line;
    assert line[..|line|] == line;
    ArgsSingle(line, parse);
  }

  /** The scan stopped at an unquoted space at offset e, followed by r more
      spaces: the line's arguments are the token's, then those of the rest
      after the run. */
  lemma SplitAtSpace(line: string, e: nat, r: nat, parse: string -> Attr, item: Attr, rest: seq<Attr>)
    requires e + r < |line| && TokenLen(line, START) == e
    requires forall k :: e <= k <= e + r ==> line[k] == ' '
    requires e + r + 1 == |line| || line[e + r + 1] != ' '
    requires item == Classify(line[..e], parse) && rest == Args(line[e + r + 1..], parse)
    ensures [item] + rest == Args(line, parse)
  {
    TrimSkip(line[e + 1..], r);
    assert line[e + 1..][r..] == line[e + r + 1..];
    ArgsCons(line, parse);
  }

  /** The position where a scan of s begun at offset i in state q stops:
      the first unquoted space, or the end of s. */
  function Scan(s: string, i: nat, q: Quote): (stop: nat)
    requires i <= |s|
    ensures i <= stop <= |s|
    decreases |s| - i
  {
    if i == |s| then i
    else if s[i] == ' ' && !q.inside then i
    else Scan(s, i + 1, Step(q, s[i]))
  }

  /** The scan by position agrees with TokenLen on the rest of the line. */
  lemma {:induction false} ScanIsTokenLen(s: string, i: nat, q: Quote)
    requires i <= |s|
    ensures Scan(s, i, q) == i + TokenLen(s[i..], q)
    decreases |s| - i
  {
    if i < |s| && !(s[i] == ' ' && !q.inside) {
      ScanIsTokenLen(s, i + 1, Step(q, s[i]));
      assert s[i..][1..] == s[i + 1..];
    }
  }

}
