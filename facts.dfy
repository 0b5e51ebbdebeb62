/** Properties of the command interpreter, stated over Commands: how the
    dispatcher treats names and argument counts, the exact control-block
    writes of halt, run and br, the shape of the readMem window, what
    writeMem stores, and how memDump lays out a hex dump. */
module CommandFacts {
  import opened Types
  import opened Bits
  import opened Tokenizer
  import opened Target
  import opened Commands

  // ---------------------------------------------------------------------
  // Dispatch

  /** A name that is not a String is a format error, and exactly the
      Strings outside the recognised names get the hint. */
  lemma DispatchNames(args: seq<Attr>)
    requires |args| >= 1
    ensures !args[0].Str? <==> Dispatch(args) == NotAName
    ensures args[0].Str? && args[0].s !in KNOWN_NAMES <==> Dispatch(args) == Unknown
  {
  }

  /** read with no byte count is read with 4 bytes. */
  lemma ReadDefaultsToFour(a: Attr)
    ensures Dispatch([Str("read"), a]) == Dispatch([Str("read"), a, Int(4)]) == ReadMem(AsU64(a), 4)
  {
  }

  /** Fixed text is printed only for a recognised name other than exit:
      help's command list, or a command's usage. */
  lemma PrintOnlyFromKnownName(args: seq<Attr>)
    requires |args| >= 1 && Dispatch(args).Print?
    ensures args[0].Str? && args[0].s in KNOWN_NAMES && args[0].s != "exit"
  {
    DispatchNames(args);
  }

  /** help lists the commands whatever follows it. */
  lemma HelpIgnoresArguments(rest: seq<Attr>)
    ensures Dispatch([Str("help")] + rest) == Print(HELP)
  {
  }

  /** A fixed text is printed, and nothing else happens. */
  lemma PrintTouchesNothing(cfg: Config, lines: seq<string>, mem: map<u64, byte>, scratch: seq<byte>)
    requires ValidConfig(cfg)
    ensures Execute(cfg, Print(lines), mem, scratch) == Outcome(Concat(lines), [], scratch)
  {
  }

  /** The argument counts each usage-checked command accepts, by name:
      help takes any count and exit is not checked. */
  const ARITY: map<string, set<nat>> := map[
    "loadelf" := {2}, "log" := {2}, "memdump" := {4, 5}, "regs" := {1},
    "csr" := {2, 3}, "write" := {4}, "read" := {2, 3},
    "halt" := {1}, "stop" := {1}, "s" := {1},
    "run" := {1, 2}, "go" := {1, 2}, "c" := {1, 2}, "br" := {3}]

  /** The usage text each usage-checked command prints when refused. */
  const USAGE: map<string, seq<string>> := map[
    "loadelf" := LOADELF_USAGE, "log" := LOG_USAGE, "memdump" := MEMDUMP_USAGE,
    "regs" := REGS_USAGE, "csr" := CSR_USAGE, "write" := WRITE_USAGE, "read" := READ_USAGE,
    "halt" := HALT_USAGE, "stop" := HALT_USAGE, "s" := HALT_USAGE,
    "run" := RUN_USAGE, "go" := RUN_USAGE, "c" := RUN_USAGE, "br" := BR_USAGE]

  /** Whether a command line passes its command's usage check: an accepted
      count, an integer step count for run, a String sub-command for br. */
  predicate Accepted(args: seq<Attr>)
    requires |args| >= 1 && args[0].Str? && args[0].s in ARITY
  {
    var name, n := args[0].s, |args|;
    && n in ARITY[name]
    && (name in {"run", "go", "c"} && n == 2 ==> args[1].Int?)
    && (name == "br" ==> args[1].Str?)
  }

  /** The table names exactly the recognised commands other than help and
      exit. */
  lemma TableCoversNames()
    ensures ARITY.Keys == USAGE.Keys == KNOWN_NAMES - {"help", "exit"}
  {
  }

  /** A usage-checked command prints something exactly when its line fails
      the check, and then it prints that command's usage and nothing else. */
  lemma WrongCountPrintsUsage(args: seq<Attr>)
    requires |args| >= 1 && args[0].Str? && args[0].s in ARITY
    ensures Dispatch(args).Print? <==> !Accepted(args)
    ensures !Accepted(args) ==> Dispatch(args) == Print(USAGE[args[0].s])
  {
    var name := args[0].s;
    if name in {"loadelf", "log", "memdump", "regs"} {
      FileCommandUsage(args);
    } else if name in {"csr", "write", "read"} {
      MemoryCommandUsage(args);
    } else {
      ControlCommandUsage(args);
    }
  }

  lemma FileCommandUsage(args: seq<Attr>)
    requires |args| >= 1 && args[0].Str? && args[0].s in {"loadelf", "log", "memdump", "regs"}
    ensures Dispatch(args).Print? <==> !Accepted(args)
    ensures !Accepted(args) ==> Dispatch(args) == Print(USAGE[args[0].s])
  {
  }

  lemma MemoryCommandUsage(args: seq<Attr>)
    requires |args| >= 1 && args[0].Str? && args[0].s in {"csr", "write", "read"}
    ensures Dispatch(args).Print? <==> !Accepted(args)
    ensures !Accepted(args) ==> Dispatch(args) == Print(USAGE[args[0].s])
  {
  }

  lemma ControlCommandUsage(args: seq<Attr>)
    requires |args| >= 1 && args[0].Str? && args[0].s in {"halt", "stop", "s", "run", "go", "c", "br"}
    ensures Dispatch(args).Print? <==> !Accepted(args)
    ensures !Accepted(args) ==> Dispatch(args) == Print(USAGE[args[0].s])
  {
  }

  /** The line's first token names the command: when it does not look like
      a literal it is taken as a String as written, and it is rejected with
      the hint exactly when it is not a recognised name. */
  lemma PlainNameDispatch(line: string, parse: string -> Attr)
    requires line != [] && !LooksLiteral(Tokens(line)[0])
    ensures |Args(line, parse)| >= 1 && Args(line, parse)[0] == Str(Tokens(line)[0])
    ensures Dispatch(Args(line, parse)) == Unknown <==> Tokens(line)[0] !in KNOWN_NAMES
  {
    TokensNonEmpty(line);
    DispatchNames(Args(line, parse));
  }

  /** The name "break" that help advertises is not accepted. */
  lemma BreakIsNotACommand(cfg: Config, mem: map<u64, byte>, scratch: seq<byte>)
    requires ValidConfig(cfg)
    ensures Execute(cfg, Dispatch([Str("break")]), mem, scratch) == Outcome(HINT, [], scratch)
  {
    assert "break" !in KNOWN_NAMES;
    UnknownNamePrintsHint(cfg, [Str("break")], mem, scratch);
  }

  /** An unrecognised name prints only the hint. */
  lemma UnknownNamePrintsHint(cfg: Config, args: seq<Attr>, mem: map<u64, byte>, scratch: seq<byte>)
    requires ValidConfig(cfg) && |args| >= 1 && args[0].Str? && args[0].s !in KNOWN_NAMES
    ensures Execute(cfg, Dispatch(args), mem, scratch) == Outcome(HINT, [], scratch)
  {
    DispatchNames(args);
  }

  /** An empty line prints nothing and does nothing. */
  lemma EmptyLineIsSilent(cfg: Config, mem: map<u64, byte>, scratch: seq<byte>)
    requires ValidConfig(cfg)
    ensures Respond(cfg, [], mem, scratch) == Outcome([], [], scratch)
  {
  }

  /** A line whose first argument is not a String prints only "Wrong
      command format". */
  lemma NonStringNameIsRejected(cfg: Config, line: string, mem: map<u64, byte>, scratch: seq<byte>)
    requires ValidConfig(cfg) && line != []
    requires |Args(line, cfg.parseLiteral)| >= 1 && !Args(line, cfg.parseLiteral)[0].Str?
    ensures Respond(cfg, line, mem, scratch) == Outcome(WRONG_FORMAT, [], scratch)
  {
    var args := Args(line, cfg.parseLiteral);
    DispatchNames(args);
  }

  /** A line starting with a space has the empty String as its name and
      prints only the hint. */
  lemma LeadingSpacePrintsHint(cfg: Config, line: string, mem: map<u64, byte>, scratch: seq<byte>)
    requires ValidConfig(cfg) && line != [] && line[0] == ' '
    ensures Respond(cfg, line, mem, scratch) == Outcome(HINT, [], scratch)
  {
    LeadingSpaceIsUnknown(line, cfg.parseLiteral);
  }

  lemma LeadingSpaceIsUnknown(line: string, parse: string -> Attr)
    requires line != [] && line[0] == ' '
    ensures |Args(line, parse)| >= 1 && Dispatch(Args(line, parse)) == Unknown
  {
    var args := Args(line, parse);
    TokensNonEmpty(line);
    LeadingSpaceGivesEmptyToken(line, parse);
    assert args[0] == Str([]);
    assert [] !in KNOWN_NAMES;
    DispatchNames(args);
  }

  // ---------------------------------------------------------------------
  // Run control

  lemma ControlWords()
    ensures HaltWord() == 1 && FreeRunWord() == 0 && StepWord() == 2
  {
    var h, f, s := HaltWord(), FreeRunWord(), StepWord();
    assert h % 2 == 1 && (h / 2) % 2 == 0 && (h / 4) % 4 == 0 && (h / 16) % 0x1_0000 == 0 && h < 0x10_0000;
    ControlWordValue(h);
    ControlWordValue(f);
    ControlWordValue(s);
  }

  /** A control word with core 0 is its two low bits. */
  lemma ControlWordValue(v: u64)
    requires (v / 4) % 4 == 0 && (v / 16) % 0x1_0000 == 0 && v < 0x10_0000
    ensures v == v % 2 + 2 * ((v / 2) % 2)
  {
    assert v / 16 == 0;
    assert v < 16;
  }

  /** halt writes 1 (halt bit only) to the control word at the DSU base. */
  lemma HaltWritesOne(cfg: Config)
    ensures RunControlEvents(cfg, Halt) == [TapWrite(cfg.dsuBase, 8, Le8(1))]
  {
    ControlWords();
  }

  /** run writes 0 to the control word; run n first writes n to the step
      counter at base+8, then 2 (stepping only) to the control word. */
  lemma RunWrites(cfg: Config, n: u64)
    ensures RunControlEvents(cfg, Run(None)) == [TapWrite(cfg.dsuBase, 8, Le8(0))]
    ensures RunControlEvents(cfg, Run(Some(n)))
         == [TapWrite(AddU64(cfg.dsuBase, 8), 8, Le8(n)), TapWrite(cfg.dsuBase, 8, Le8(2))]
  {
    ControlWords();
  }

  /** br add leaves the address in the control block's add-breakpoint
      word at base+16 and br rm in the remove word at base+24, as an
      8-byte little-endian integer read back; any other sub-command writes
      nothing. */
  lemma BreakpointTakesEffect(cfg: Config, mem: map<u64, byte>, sub: string, a: u64)
    ensures var m := ApplyWrites(mem, RunControlEvents(cfg, Breakpoint(sub, a)));
      && (sub == "add" ==> FromLe(Fetch(m, AddU64(cfg.dsuBase, 16), 8)) == a)
      && (sub == "rm" ==> FromLe(Fetch(m, AddU64(cfg.dsuBase, 24), 8)) == a)
      && (sub != "add" && sub != "rm" ==> RunControlEvents(cfg, Breakpoint(sub, a)) == [])
  {
    if sub == "add" || sub == "rm" {
      var addr := AddU64(cfg.dsuBase, if sub == "add" then 16 else 24);
      var e := TapWrite(addr, 8, Le8(a));
      assert RunControlEvents(cfg, Breakpoint(sub, a)) == [e];
      assert ApplyWrites(mem, [e]) == Store(mem, addr, Le8(a)) by {
        assert [e][1..] == [];
        assert ApplyWrites(mem, [e]) == ApplyWrites(Store(mem, addr, Le8(a)), []);
      }
      FetchAfterStore(mem, addr, Le8(a));
      Le8RoundTrip(a);
    }
  }

  /** loadelf holds the core in reset around the loader: MRESET is written 1,
      the file is loaded, then MRESET is written 0. */
  lemma LoadElfBracketsReset(cfg: Config, path: string, mem: map<u64, byte>, scratch: seq<byte>)
    requires ValidConfig(cfg)
    ensures var o := Execute(cfg, LoadElf(path), mem, scratch);
      var r := cfg.socAddr(Str("MRESET"));
      && |o.events| == 3 && o.events[1] == LoadFile(path)
      && o.events[0].TapWrite? && o.events[0].addr == r && FromLe(o.events[0].data) == 1
      && o.events[2].TapWrite? && o.events[2].addr == r && FromLe(o.events[2].data) == 0
  {
    Le8RoundTrip(1);
    Le8RoundTrip(0);
  }

  // ---------------------------------------------------------------------
  // CSR access

  /** An address of all ones means the name is unknown: both csr forms
      print "Unknown CSR" and leave the TAP alone. */
  lemma UnknownCsrTouchesNothing(cfg: Config, a: Attr, v: u64, mem: map<u64, byte>, scratch: seq<byte>)
    requires cfg.socAddr(a) == ALL_ONES
    ensures ExecCsrRead(cfg, a, mem, scratch) == Outcome(UnknownCsr(a), [], scratch)
    ensures ExecCsrWrite(cfg, a, v, scratch) == Outcome(UnknownCsr(a), [], scratch)
  {
  }

  /** A known CSR is read as one 8-byte TAP read; the printed value, read
      back as hex, is the little-endian word at the CSR's address, and the
      printed number in brackets is address bits 15:4. */
  lemma CsrReadShowsValue(cfg: Config, a: Attr, mem: map<u64, byte>, scratch: seq<byte>)
    requires cfg.socAddr(a) != ALL_ONES
    ensures var addr := cfg.socAddr(a);
      var o := ExecCsrRead(cfg, a, mem, scratch);
      && o.events == [TapRead(addr, 8)]
      && CsrLineShows(o.text, (addr / 16) % 0x1000, FromLe(Fetch(mem, addr, 8)))
  {
    var addr := cfg.socAddr(a);
    var csr := Word(Fetch(mem, addr, 8));
    assert ExecCsrRead(cfg, a, mem, scratch).text == CsrReadText(cfg, a, addr, csr);
    CsrTextLayout(cfg, a, addr, csr);
  }

  /** The text starts "CSR[xxx] => ", then 16 hex digits and a newline,
      where the 3 digits xxx read as index and the 16 as value. */
  ghost predicate CsrLineShows(t: string, index: nat, value: nat)
  {
    && |t| >= 29 && t[..4] == "CSR[" && t[7..12] == "] => " && t[28] == '\n'
    && IsHexText(t[4..7]) && HexValue(t[4..7]) == index
    && IsHexText(t[12..28]) && HexValue(t[12..28]) == value
  }

  predicate IsHexText(s: string)
  {
    forall k :: 0 <= k < |s| ==> IsHexDigit(s[k])
  }

  lemma CsrTextLayout(cfg: Config, a: Attr, addr: u64, csr: u64)
    ensures CsrLineShows(CsrReadText(cfg, a, addr, csr), (addr / 16) % 0x1000, csr)
  {
    var idx := (addr / 16) % 0x1000;
    var h3, h16 := Hex(idx, 3), Hex16(csr);
    assert HexValue(h3) == idx by {
      Hex3Value(idx);
    }
    LineLayout(h3, h16, CsrDetail(cfg, a, csr), idx, csr);
  }

  lemma Hex3Value(idx: nat)
    requires idx < 0x1000
    ensures HexValue(Hex(idx, 3)) == idx
  {
    HexRoundTrip(idx, 3);
    assert Pow(16, 3) == 0x1000;
  }

  lemma LineLayout(h3: string, h16: string, d: string, idx: nat, value: nat)
    requires |h3| == 3 && |h16| == 16 && IsHexText(h3) && IsHexText(h16)
    requires HexValue(h3) == idx && HexValue(h16) == value
    ensures CsrLineShows("CSR[" + h3 + "] => " + h16 + "\n" + d, idx, value)
  {
    Fields("CSR[", h3, "] => ", h16, "\n", d);
  }

  /** The pieces of a concatenation, recovered by slicing. */
  lemma Fields(p: string, x: string, q: string, y: string, n: string, r: string)
    requires |n| == 1
    ensures var t := p + x + q + y + n + r;
      && |t| == |p| + |x| + |q| + |y| + 1 + |r|
      && t[..|p|] == p && t[|p|..|p| + |x|] == x
      && t[|p| + |x|..|p| + |x| + |q|] == q
      && t[|p| + |x| + |q|..|p| + |x| + |q| + |y|] == y
      && t[|p| + |x| + |q| + |y|] == n[0]
  {
  }

  /** csr MCPUID prints the base ISA named by bits 63:62 followed by the
      letters A..Z of the set extension bits 0..25 in ascending order,
      without I. */
  lemma McpuidLine(cfg: Config, mem: map<u64, byte>, scratch: seq<byte>)
    requires ValidConfig(cfg) && cfg.socAddr(Str("MCPUID")) != ALL_ONES
    ensures var csr := Word(Fetch(mem, cfg.socAddr(Str("MCPUID")), 8));
      var letters := ExtLetters(csr, 26);
      && CsrDetail(cfg, Str("MCPUID"), csr) == "    Base: " + MCPUID_BASE[csr / 0x4000_0000_0000_0000] + letters + "\n"
      && (forall c :: c in letters <==> 'A' <= c <= 'Z' && c != 'I' && Bit(csr, c as int - 65))
      && (forall j, k :: 0 <= j < k < |letters| ==> letters[j] < letters[k])
  {
    var csr := Word(Fetch(mem, cfg.socAddr(Str("MCPUID")), 8));
    ExtLettersSpec(csr, 26);
  }

  // ---------------------------------------------------------------------
  // readMem

  /** The window runs from the block of addr to the block end after the last
      byte read: both ends 16-aligned, so its length is a whole number of
      16-byte lines. */
  lemma WindowCoversRead(addr: u64, count: nat)
    requires count < 0x8000_0000 && addr + count + 15 < U64_LIMIT
    ensures var s, e := BlockStart(addr), WindowEnd(addr, count);
      && s % 16 == 0 && e % 16 == 0 && (e - s) % 16 == 0
      && s <= addr && addr + count <= e && e < addr + count + 16
  {
  }

  lemma BlockStartMono(x: nat, y: nat)
    requires x <= y
    ensures BlockStart(x) <= BlockStart(y)
  {
    assert BlockStart(x) == 16 * (x / 16);
    assert BlockStart(y) == 16 * (y / 16);
    assert x / 16 <= y / 16;
  }

  /** A read whose window runs past the top of the address space prints
      nothing: addr_end wraps below addr_start, so the loop never runs,
      although the bytes are still read (`read 0xfffffffffffffff0 4`). */
  lemma WrappedWindowPrintsNothing(mem: map<u64, byte>, addr: u64, bytesArg: u64, scratch: seq<byte>)
    requires 0 <= ToInt32(bytesArg) && addr + ToInt32(bytesArg) + 15 >= U64_LIMIT
    ensures var o := ExecReadMem(mem, addr, bytesArg, scratch);
      o.text == [] && o.events == [TapRead(addr, ToInt32(bytesArg))]
  {
    var count := ToInt32(bytesArg);
    assert WindowEnd(addr, count) < BlockStart(addr);
  }

  /** A byte count that the int cast makes negative stops read and write
      with no output and no effect, and memdump, once its file is open, with
      only the opening (which leaves the file empty) and the closing of the
      file: the model's correction of the overruns in
      AsWritten.NegativeCountReadsPast and AsWritten.NegativeDumpWritesPast. */
  lemma NegativeCountStops(cfg: Config, mem: map<u64, byte>, addr: u64, bytesArg: u64, value: Attr,
                           path: string, hex: bool, scratch: seq<byte>)
    requires ToInt32(bytesArg) < 0
    ensures ExecReadMem(mem, addr, bytesArg, scratch) == Outcome([], [], scratch)
    ensures value.Int? || value.List? ==> ExecWriteMem(addr, bytesArg, value, scratch) == Outcome([], [], scratch)
    ensures cfg.canOpen(path) ==> ExecMemDump(cfg, mem, addr, bytesArg, path, hex, scratch)
                                  == Outcome([], [FileOpen(path), FileClose(path)], scratch)
  {
  }

  /** Every byte read is shown in the window: byte k sits at the
      lane-reversed position of addr+k, which lies inside the window. */
  lemma EveryByteShown(addr: u64, data: seq<byte>, k: nat)
    requires |data| < 0x8000_0000 && addr + |data| + 15 < U64_LIMIT && k < |data|
    ensures var p := Inv(addr + k);
      && BlockStart(addr) <= p < WindowEnd(addr, |data|)
      && Cell(addr, data, p) == " " + Hex2(data[k])
  {
    var x := addr + k;
    var p := Inv(x);
    assert BlockStart(addr) <= p < WindowEnd(addr, |data|) by {
      InvInWindow(addr, |data|, x);
    }
    assert Inv(p) == addr + k by {
      InvProperties(x);
    }
    CellShows(addr, data, p, k);
  }

  /** The reversal of an address read lies inside the window. */
  lemma InvInWindow(addr: u64, count: nat, x: nat)
    requires count < 0x8000_0000 && addr + count + 15 < U64_LIMIT && addr <= x < addr + count
    ensures BlockStart(addr) <= Inv(x) < WindowEnd(addr, count)
  {
    InvProperties(x);
    InWindow(addr, count, x);
    var p := Inv(x);
    assert BlockStart(p) <= p < BlockStart(p) + 16;
  }

  /** The position whose reversal is addr+k shows byte k. */
  lemma CellShows(addr: u64, data: seq<byte>, p: nat, k: nat)
    requires |data| < 0x8000_0000 && addr + |data| < U64_LIMIT && k < |data| && Inv(p) == addr + k
    ensures Cell(addr, data, p) == " " + Hex2(data[k])
  {
    assert (addr + |data|) % U64_LIMIT == addr + |data|;
  }

  /** The block of any address read lies inside the window. */
  lemma InWindow(addr: u64, count: nat, x: nat)
    requires count < 0x8000_0000 && addr + count + 15 < U64_LIMIT && addr <= x < addr + count
    ensures BlockStart(addr) <= BlockStart(x) && BlockStart(x) + 16 <= WindowEnd(addr, count)
  {
    BlockStartMono(addr, x);
    var b := BlockStart(x) + 16;
    assert BlockStart(x + 16) == b by {
      BlockStartUnique(x + 16, b);
    }
    BlockStartMono(x + 16, addr + count + 15);
    assert (addr + count + 15) % U64_LIMIT == addr + count + 15;
  }

  lemma BlockStartUnique(i: nat, b: nat)
    requires b <= i < b + 16 && b % 16 == 0
    ensures BlockStart(i) == b
  {
    ModUnique(i, 16, b / 16, i - b);
  }

  /** A cell shows ".." exactly when the reversed address is outside the read;
      otherwise it shows the byte at that address. */
  lemma CellShowsDotsIffOutside(addr: u64, data: seq<byte>, i: nat)
    requires |data| < 0x8000_0000 && addr + |data| < U64_LIMIT
    ensures Cell(addr, data, i) == " .." <==> !(addr <= Inv(i) < addr + |data|)
    ensures addr <= Inv(i) < addr + |data| ==> Cell(addr, data, i) == " " + Hex2(data[Inv(i) - addr])
  {
    if addr <= Inv(i) < addr + |data| {
      var h := Hex2(data[Inv(i) - addr]);
      assert (" " + h)[1] == h[0];
      assert IsHexDigit(h[0]) && !IsHexDigit('.');
    }
  }

  /** One line of the window: the header, sixteen cells, a newline. */
  function Row(head: u64 -> string, cell: nat -> string, b: u64): string
  {
    head(b) + RowCells(cell, b, 16) + "\n"
  }

  function RowCells(cell: nat -> string, b: nat, j: nat): string
  {
    if j == 0 then [] else RowCells(cell, b, j - 1) + cell(b + j - 1)
  }

  function Rows(head: u64 -> string, cell: nat -> string, lo: u64, k: nat): string
    requires lo + 16 * k < U64_LIMIT
  {
    if k == 0 then [] else Rows(head, cell, lo, k - 1) + Row(head, cell, lo + 16 * (k - 1))
  }

  /** The pieces of the j positions from b. */
  function Pieces(head: u64 -> string, cell: nat -> string, b: u64, j: nat): string
    requires b + j <= U64_LIMIT
  {
    if j == 0 then [] else Pieces(head, cell, b, j - 1) + Piece(head, cell, b + j - 1)
  }

  /** The window up to b + j is the window up to b, then the pieces from b. */
  lemma {:induction false} WindowSplit(head: u64 -> string, cell: nat -> string, lo: u64, b: u64, j: nat)
    requires lo <= b && b + j < U64_LIMIT
    ensures WindowText(head, cell, lo, b + j) == WindowText(head, cell, lo, b) + Pieces(head, cell, b, j)
  {
    if j > 0 {
      WindowSplit(head, cell, lo, b, j - 1);
      var w, p := WindowText(head, cell, lo, b), Pieces(head, cell, b, j - 1);
      assert WindowText(head, cell, lo, b + j) == WindowText(head, cell, lo, b + (j - 1)) + Piece(head, cell, b + j - 1);
      Assoc(w, p, Piece(head, cell, b + j - 1));
    } else {
      assert WindowText(head, cell, lo, b) + [] == WindowText(head, cell, lo, b);
    }
  }

  lemma Assoc(x: string, y: string, z: string)
    ensures (x + y) + z == x + (y + z)
  {
  }

  /** Inside a block, the first j positions are the header and j cells. */
  lemma {:induction false} PiecesInBlock(head: u64 -> string, cell: nat -> string, b: u64, j: nat)
    requires b % 16 == 0 && 1 <= j < 16 && b + 16 < U64_LIMIT
    ensures Pieces(head, cell, b, j) == head(b) + RowCells(cell, b, j)
  {
    if j == 1 {
      PieceAtBlockStart(head, cell, b);
      assert Pieces(head, cell, b, 1) == [] + Piece(head, cell, b);
      assert RowCells(cell, b, 1) == [] + cell(b);
    } else {
      PiecesInBlock(head, cell, b, j - 1);
      PieceInsideBlock(head, cell, b, j - 1);
      var h, rc, c := head(b), RowCells(cell, b, j - 1), cell(b + j - 1);
      assert Piece(head, cell, b + j - 1) == c + [];
      Assoc(h, rc, c);
    }
  }

  /** The sixteen positions of a block are one line. */
  lemma FullRow(head: u64 -> string, cell: nat -> string, b: u64)
    requires b % 16 == 0 && b + 16 < U64_LIMIT
    ensures Pieces(head, cell, b, 16) == Row(head, cell, b)
  {
    var h, rc, c := head(b), RowCells(cell, b, 15), cell(b + 15);
    var p15, p := Pieces(head, cell, b, 15), Piece(head, cell, b + 15);
    assert Pieces(head, cell, b, 16) == p15 + p;
    assert p15 == h + rc by {
      PiecesInBlock(head, cell, b, 15);
    }
    assert p == [] + c + "\n" by {
      PieceInsideBlock(head, cell, b, 15);
    }
    assert RowCells(cell, b, 16) == rc + c;
    Glue(Pieces(head, cell, b, 16), p15, p, h, rc, c, "\n", RowCells(cell, b, 16));
  }

  lemma Glue(total: string, prefix: string, piece: string, h: string, rc: string, c: string, nl: string, rcj: string)
    requires total == prefix + piece && prefix == h + rc && piece == [] + c + nl && rcj == rc + c
    ensures total == h + rcj + nl
  {
  }

  /** The first position of a block carries the line header. */
  lemma PieceAtBlockStart(head: u64 -> string, cell: nat -> string, b: u64)
    requires b % 16 == 0
    ensures Piece(head, cell, b) == head(b) + cell(b) + []
  {
  }

  /** Any later position carries only its cell, and the last one the
      newline. */
  lemma PieceInsideBlock(head: u64 -> string, cell: nat -> string, b: u64, t: nat)
    requires b % 16 == 0 && 1 <= t < 16 && b + t < U64_LIMIT
    ensures Piece(head, cell, b + t) == [] + cell(b + t) + (if t == 15 then "\n" else [])
  {
    LaneOf(b, t);
  }

  /** Lane t of a 16-aligned block start. */
  lemma LaneOf(b: nat, t: nat)
    requires b % 16 == 0 && t < 16
    ensures (b + t) % 16 == t
  {
    ModUnique(b + t, 16, b / 16, t);
  }

  /** The window text is its lines in order, each with one header and one
      newline. */
  lemma {:induction false} WindowIsRows(head: u64 -> string, cell: nat -> string, lo: u64, k: nat)
    requires lo % 16 == 0 && lo + 16 * k < U64_LIMIT
    ensures WindowText(head, cell, lo, lo + 16 * k) == Rows(head, cell, lo, k)
  {
    if k > 0 {
      WindowIsRows(head, cell, lo, k - 1);
      RowsStep(head, cell, lo, k);
    }
  }

  lemma RowsStep(head: u64 -> string, cell: nat -> string, lo: u64, k: nat)
    requires lo % 16 == 0 && 0 < k && lo + 16 * k < U64_LIMIT
    requires WindowText(head, cell, lo, lo + 16 * (k - 1)) == Rows(head, cell, lo, k - 1)
    ensures WindowText(head, cell, lo, lo + 16 * k) == Rows(head, cell, lo, k)
  {
    var b: u64 := lo + 16 * (k - 1);
    var e: u64 := b + 16;
    assert e == lo + 16 * k;
    var w, p, r := WindowText(head, cell, lo, b), Pieces(head, cell, b, 16), Row(head, cell, b);
    assert WindowText(head, cell, lo, e) == w + p by {
      WindowSplit(head, cell, lo, b, 16);
    }
    assert p == r by {
      Aligned(lo, k - 1);
      FullRow(head, cell, b);
    }
    assert Rows(head, cell, lo, k) == Rows(head, cell, lo, k - 1) + r;
  }

  lemma Aligned(lo: nat, k: nat)
    requires lo % 16 == 0
    ensures (lo + 16 * k) % 16 == 0
  {
    ModUnique(lo + 16 * k, 16, lo / 16 + k, 0);
  }

  /** The whole readMem text: (end - start) / 16 lines. */
  lemma ReadMemIsRows(addr: u64, data: seq<byte>)
    requires |data| < 0x8000_0000 && addr + |data| + 15 < U64_LIMIT
    ensures ReadMemText(addr, data) == Rows(Header, Cells(addr, data), BlockStart(addr), RowCount(addr, |data|))
  {
    var s, e := BlockStart(addr), WindowEnd(addr, |data|);
    WindowRowCount(addr, |data|, s, e);
    WindowRows(Header, Cells(addr, data), s, e);
    assert RowCount(addr, |data|) == (e - s) / 16;
  }

  /** The number of 16-byte rows in the window of a read. */
  function RowCount(addr: u64, count: nat): nat
    requires count < 0x8000_0000 && addr + count + 15 < U64_LIMIT
  {
    (WindowEnd(addr, count) - BlockStart(addr)) / 16
  }

  lemma WindowRows(head: u64 -> string, cell: nat -> string, s: u64, e: u64)
    requires s % 16 == 0 && s <= e && s + 16 * ((e - s) / 16) == e
    ensures WindowText(head, cell, s, e) == Rows(head, cell, s, (e - s) / 16)
  {
    WindowIsRowsTo(head, cell, s, e, (e - s) / 16);
  }

  /** The window is a whole number of rows. */
  lemma WindowRowCount(addr: u64, count: nat, s: nat, e: nat)
    requires count < 0x8000_0000 && addr + count + 15 < U64_LIMIT
    requires s == BlockStart(addr) && e == WindowEnd(addr, count)
    ensures s % 16 == 0 && s <= e && s + 16 * ((e - s) / 16) == e
  {
    WindowCoversRead(addr, count);
    WholeBlocks(e - s);
  }

  lemma WindowIsRowsTo(head: u64 -> string, cell: nat -> string, lo: u64, hi: u64, k: nat)
    requires lo % 16 == 0 && hi == lo + 16 * k
    ensures WindowText(head, cell, lo, hi) == Rows(head, cell, lo, k)
  {
    WindowIsRows(head, cell, lo, k);
  }

  lemma WholeBlocks(d: nat)
    requires d % 16 == 0
    ensures 16 * (d / 16) == d
  {
  }

  /** The scratch buffer after read: the bytes read, then whatever it held
      past them; it grows, to exactly the count, only when the count exceeds
      its size. */
  lemma ReadMemScratch(addr: u64, b: u64, mem: map<u64, byte>, scratch: seq<byte>)
    requires ToInt32(b) >= 0
    ensures var count := ToInt32(b);
      var o := ExecReadMem(mem, addr, b, scratch);
      && o.events == [TapRead(addr, count)]
      && |o.scratch| == (if count > |scratch| then count else |scratch|)
      && o.scratch[..count] == Fetch(mem, addr, count)
      && o.scratch[count..] == (if count > |scratch| then [] else scratch[count..])
  {
    var count := ToInt32(b);
    var data := Fetch(mem, addr, count);
    var buf := if count > |scratch| then Zeros(count) else scratch;
    assert (data + buf[count..])[..count] == data;
    assert (data + buf[count..])[count..] == buf[count..];
  }

  // ---------------------------------------------------------------------
  // writeMem

  /** write stores an integer as the first 8 scratch bytes, little-endian,
      and a list as consecutive 8-byte words in list order, then makes one
      TAP write of the requested length. */
  lemma WriteMemFills(addr: u64, b: u64, value: Attr, scratch: seq<byte>, k: nat)
    requires (value.Int? || value.List?) && ToInt32(b) >= 0
    ensures var count := ToInt32(b);
      var o := ExecWriteMem(addr, b, value, scratch);
      && |o.scratch| >= count
      && o.text == []
      && o.events == [TapWrite(addr, count, o.scratch[..count])]
      && (value.Int? ==> o.scratch[..8] == Le8(value.v))
      && (value.List? && k < |value.items| ==> o.scratch[8 * k..8 * k + 8] == Le8(AsU64(value.items[k])))
  {
    var count := ToInt32(b);
    var words := WordsOf(value);
    var need := WriteNeed(count, value);
    var buf := if need > |scratch| then Zeros(need) else scratch;
    var filled := FillWords(buf, words);
    if value.Int? {
      assert filled[..8] == Le8(value.v);
    }
    if value.List? && k < |value.items| {
      assert words[k] == AsU64(value.items[k]);
      forall p | 0 <= p < 8 ensures filled[8 * k + p] == Le8(words[k])[p] {
        assert (8 * k + p) / 8 == k && (8 * k + p) % 8 == p;
      }
    }
  }

  /** A value that is neither an integer nor a list is refused without a TAP
      write. */
  lemma WriteMemRejectsOtherShapes(addr: u64, b: u64, value: Attr, scratch: seq<byte>)
    requires !value.Int? && !value.List?
    ensures ExecWriteMem(addr, b, value, scratch) == Outcome(WRONG_WRITE, [], scratch)
  {
  }

  /** Writing an 8-byte integer and reading 8 bytes back at the same address
      returns the integer. */
  lemma WriteThenRead(addr: u64, v: u64, mem: map<u64, byte>, scratch: seq<byte>)
    ensures var w := ExecWriteMem(addr, 8, Int(v), scratch);
      var r := ExecReadMem(ApplyWrites(mem, w.events), addr, 8, w.scratch);
      r.scratch[..8] == Le8(v)
  {
    var w := ExecWriteMem(addr, 8, Int(v), scratch);
    WriteMemFills(addr, 8, Int(v), scratch, 0);
    var e := TapWrite(addr, 8, Le8(v));
    assert w.events == [e];
    var m := ApplyWrites(mem, w.events);
    assert m == Store(mem, addr, Le8(v)) by {
      assert [e][1..] == [];
      assert ApplyWrites(mem, [e]) == ApplyWrites(Store(mem, addr, Le8(v)), []);
    }
    FetchAfterStore(mem, addr, Le8(v));
    ReadMemScratch(addr, 8, m, w.scratch);
  }

  // ---------------------------------------------------------------------
  // memDump

  /** A file that cannot be opened stops memdump before any TAP read. */
  lemma DumpNeedsOpenFile(cfg: Config, addr: u64, b: u64, path: string, hex: bool, mem: map<u64, byte>, scratch: seq<byte>)
    requires !cfg.canOpen(path)
    ensures ExecMemDump(cfg, mem, addr, b, path, hex, scratch) == Outcome("Can't open '" + path + "' file", [], scratch)
  {
  }

  /** Once its file opens, memdump's first action is opening it (which
      creates or empties it, whatever the byte count) and its last is
      closing it. */
  lemma DumpOpensThenCloses(cfg: Config, addr: u64, b: u64, path: string, hex: bool, mem: map<u64, byte>, scratch: seq<byte>)
    requires cfg.canOpen(path)
    ensures var evs := ExecMemDump(cfg, mem, addr, b, path, hex, scratch).events;
      |evs| >= 2 && evs[0] == FileOpen(path) && evs[|evs| - 1] == FileClose(path)
  {
  }

  /** The hex of a block of bytes, last byte first. */
  function ReversedHex(bs: seq<byte>): (s: string)
    ensures |s| == 2 * |bs|
  {
    if bs == [] then [] else ReversedHex(bs[1..]) + Hex2(bs[0])
  }

  lemma {:induction false} DumpCharsReversed(data: seq<byte>, b: nat, j: nat)
    requires b % 16 == 0 && j <= 16 && b + 16 <= |data|
    ensures DumpChars(data, b, b + j) == ReversedHex(data[b + 16 - j..b + 16])
  {
    if j > 0 {
      DumpCharsReversed(data, b, j - 1);
      DumpCharsGrow(data, b, j);
    } else {
      assert data[b + 16..b + 16] == [];
    }
  }

  /** One more position of the block: the next byte back, on the right. */
  lemma DumpCharsGrow(data: seq<byte>, b: nat, j: nat)
    requires b % 16 == 0 && 0 < j <= 16 && b + 16 <= |data|
    requires DumpChars(data, b, b + j - 1) == ReversedHex(data[b + 17 - j..b + 16])
    ensures DumpChars(data, b, b + j) == ReversedHex(data[b + 16 - j..b + 16])
  {
    var lo, hi := b + 16 - j, b + 16;
    assert DumpByte(data, Inv(b + j - 1)) == data[lo] by {
      InvInBlock(b, j - 1);
    }
    DumpCharsStep(data, b, b + j);
    ReversedHexSlice(data, lo, hi);
  }

  lemma DumpCharsStep(data: seq<byte>, lo: nat, hi: nat)
    requires lo < hi
    ensures DumpChars(data, lo, hi) == DumpChars(data, lo, hi - 1) + Hex2(DumpByte(data, Inv(hi - 1)))
  {
  }

  lemma ReversedHexSlice(data: seq<byte>, lo: nat, hi: nat)
    requires lo < hi <= |data|
    ensures ReversedHex(data[lo..hi]) == ReversedHex(data[lo + 1..hi]) + Hex2(data[lo])
  {
    assert data[lo..hi][1..] == data[lo + 1..hi];
  }

  /** Position t of a block is shown from position 15-t. */
  lemma InvInBlock(b: nat, t: nat)
    requires b % 16 == 0 && t < 16
    ensures Inv(b + t) == b + 15 - t
  {
    LaneOf(b, t);
    BlockStartUnique(b + t, b);
  }

  /** In hex mode every full 16-byte block becomes one line: its bytes in
      reverse order as 32 hex digits and a newline. */
  lemma HexDumpFullLine(path: string, data: seq<byte>, q: nat)
    requires q < |data| / 16
    ensures |HexDumpEvents(path, data)| == |data| / 16 + (if |data| % 16 == 0 then 0 else 1)
    ensures HexDumpEvents(path, data)[q] == FileWriteText(path, ReversedHex(data[16 * q..16 * q + 16]) + "\n")
  {
    HexDumpAt(path, data, q);
    BlockReversed(data, q);
  }

  /** Block q of the data, lane reversed, is its bytes last first. */
  lemma BlockReversed(data: seq<byte>, q: nat)
    requires 16 * q + 16 <= |data|
    ensures DumpChars(data, 16 * q, 16 * q + 16) == ReversedHex(data[16 * q..16 * q + 16])
  {
    var b := 16 * q;
    var e := b + 16;
    assert b % 16 == 0;
    DumpCharsReversed(data, b, 16);
    assert e - 16 == b;
    assert data[e - 16..e] == data[b..e];
  }

  lemma HexDumpAt(path: string, data: seq<byte>, q: nat)
    requires q < |data| / 16
    ensures |HexDumpEvents(path, data)| == |data| / 16 + (if |data| % 16 == 0 then 0 else 1)
    ensures HexDumpEvents(path, data)[q] == FileWriteText(path, DumpChars(data, 16 * q, 16 * q + 16) + "\n")
    ensures 16 * q + 16 <= |data|
  {
    var full := |data| / 16;
    var lines, tail := DumpLines(path, data, full), DumpTail(path, data);
    assert (lines + tail)[q] == lines[q];
    DumpLinesAt(path, data, full, q);
  }

  lemma {:induction false} DumpLinesAt(path: string, data: seq<byte>, n: nat, q: nat)
    requires q < n
    ensures DumpLines(path, data, n)[q] == FileWriteText(path, DumpChars(data, 16 * q, 16 * q + 16) + "\n")
  {
    var prev := DumpLines(path, data, n - 1);
    var last := FileWriteText(path, DumpChars(data, 16 * (n - 1), 16 * n) + "\n");
    assert DumpLines(path, data, n) == prev + [last];
    if q < n - 1 {
      DumpLinesAt(path, data, n - 1, q);
      assert (prev + [last])[q] == prev[q];
    }
  }

  /** Bytes 0, 1, ..., 15 dump as the line 0f0e...0100. */
  lemma HexDumpOfCounting(path: string)
    ensures HexDumpEvents(path, Counting(0, 16)) == [FileWriteText(path, "0f0e0d0c0b0a09080706050403020100" + "\n")]
  {
    var data := Counting(0, 16);
    var ev := HexDumpEvents(path, data);
    var line := ReversedHex(data[0..16]) + "\n";
    HexDumpFullLine(path, data, 0);
    assert |ev| == 1 && ev[0] == FileWriteText(path, line);
    assert ev == [FileWriteText(path, line)];
    assert data[0..16] == data;
    ReversedCounting(0, 16);
    CountDownAll();
  }

  lemma CountDownAll()
    ensures CountDown(0, 16) == "0f0e0d0c0b0a09080706050403020100"
  {
    assert HexDigit(15) == 'f';
    assert CountDown(15, 1) == "0f";
    assert HexDigit(14) == 'e';
    assert CountDown(14, 2) == "0f0e";
    assert HexDigit(13) == 'd';
    assert CountDown(13, 3) == "0f0e0d";
    assert HexDigit(12) == 'c';
    assert CountDown(12, 4) == "0f0e0d0c";
    assert HexDigit(11) == 'b';
    assert CountDown(11, 5) == "0f0e0d0c0b";
    assert HexDigit(10) == 'a';
    assert CountDown(10, 6) == "0f0e0d0c0b0a";
    assert HexDigit(9) == '9';
    assert CountDown(9, 7) == "0f0e0d0c0b0a09";
    assert HexDigit(8) == '8';
    assert CountDown(8, 8) == "0f0e0d0c0b0a0908";
    assert HexDigit(7) == '7';
    assert CountDown(7, 9) == "0f0e0d0c0b0a090807";
    assert HexDigit(6) == '6';
    assert CountDown(6, 10) == "0f0e0d0c0b0a09080706";
    assert HexDigit(5) == '5';
    assert CountDown(5, 11) == "0f0e0d0c0b0a0908070605";
    assert HexDigit(4) == '4';
    assert CountDown(4, 12) == "0f0e0d0c0b0a090807060504";
    assert HexDigit(3) == '3';
    assert CountDown(3, 13) == "0f0e0d0c0b0a09080706050403";
    assert HexDigit(2) == '2';
    assert CountDown(2, 14) == "0f0e0d0c0b0a0908070605040302";
    assert HexDigit(1) == '1';
    assert CountDown(1, 15) == "0f0e0d0c0b0a090807060504030201";
    assert HexDigit(0) == '0';
    assert CountDown(0, 16) == "0f0e0d0c0b0a09080706050403020100";
  }

  /** The n bytes a, a+1, ..., a+n-1. */
  function Counting(a: nat, n: nat): (r: seq<byte>)
    requires a + n <= 16
    ensures |r| == n
  {
    seq(n, i requires 0 <= i < n => (a + i) as byte)
  }

  /** Their hex, last byte first. */
  function CountDown(a: nat, n: nat): string
    requires a + n <= 16
    decreases n
  {
    if n == 0 then [] else CountDown(a + 1, n - 1) + ['0', HexDigit(a)]
  }

  lemma {:induction false} ReversedCounting(a: nat, n: nat)
    requires a + n <= 16
    ensures ReversedHex(Counting(a, n)) == CountDown(a, n)
    decreases n
  {
    if n > 0 {
      var bs := Counting(a, n);
      assert bs[1..] == Counting(a + 1, n - 1);
      ReversedCounting(a + 1, n - 1);
      SmallHex2(a);
    }
  }

  lemma SmallHex2(a: nat)
    requires a < 16
    ensures Hex2(a as byte) == ['0', HexDigit(a)]
  {
    assert Hex(a, 2) == Hex(0, 1) + [HexDigit(a)];
    assert Hex(0, 1) == ['0'];
  }

  // ---------------------------------------------------------------------
  // regs: getRegIDx

  /** The first entry carrying the name decides the index, whatever later
      entries say. */
  lemma {:induction false} RegIndexFirstMatch(names: seq<(string, u64)>, name: string, i: nat)
    requires i < |names| && names[i].0 == name
    requires forall j :: 0 <= j < i ==> names[j].0 != name
    ensures RegIndex(names, name) == names[i].1
  {
    if i > 0 {
      RegIndexFirstMatch(names[1..], name, i - 1);
    }
  }

  /** A name the table does not hold selects index 0. */
  lemma {:induction false} RegIndexMissing(names: seq<(string, u64)>, name: string)
    requires forall j :: 0 <= j < |names| ==> names[j].0 != name
    ensures RegIndex(names, name) == 0
  {
    if names != [] {
      RegIndexMissing(names[1..], name);
    }
  }
}
