/** Everything the command interpreter talks to, as one mock: the TAP's
    64-bit address space (a map from address to byte, absent bytes reading
    as zero) and the ordered trace of every action taken on the outside
    world — TAP reads and writes, the ELF loader, console log files, dump
    files (opened for writing, which creates or empties them, written, closed), simulation stop, and delivery of output text to consoles. */
module Target {
  import opened Types

  datatype Event =
    | TapRead(addr: u64, len: nat)
    | TapWrite(addr: u64, len: nat, data: seq<byte>)
    | LoadFile(path: string)
    | EnableLog(console: nat, path: string)
    | FileOpen(path: string)
    | FileWriteBytes(path: string, data: seq<byte>)
    | FileWriteText(path: string, text: string)
    | FileClose(path: string)
    | BreakSimulation
    | Deliver(console: nat, text: string)

  /** The address of the k-th byte after addr (the address bus wraps). */
  function At(addr: u64, k: nat): u64
  {
    (addr + k) % U64_LIMIT
  }

  /** The len bytes a TAP read at addr returns. */
  function Fetch(mem: map<u64, byte>, addr: u64, len: nat): (r: seq<byte>)
    ensures |r| == len
  {
    seq(len, k requires 0 <= k < len => if At(addr, k) in mem then mem[At(addr, k)] else 0)
  }

  /** The memory after a TAP write of data at addr. */
  function Store(mem: map<u64, byte>, addr: u64, data: seq<byte>): map<u64, byte>
    decreases |data|
  {
    if data == [] then mem else Store(mem[addr := data[0]], At(addr, 1), data[1..])
  }

  /** The memory after every TAP write of a trace, in order. */
  function ApplyWrites(mem: map<u64, byte>, events: seq<Event>): map<u64, byte>
    decreases |events|
  {
    if events == [] then mem
    else
      var m := if events[0].TapWrite? then Store(mem, events[0].addr, events[0].data) else mem;
      ApplyWrites(m, events[1..])
  }

  /** One more action at the end of a trace: only a TAP write changes the
      memory, by storing its bytes. */
  lemma {:induction false} ApplyWritesSnoc(mem: map<u64, byte>, events: seq<Event>, e: Event)
    ensures ApplyWrites(mem, events + [e])
      == if e.TapWrite? then Store(ApplyWrites(mem, events), e.addr, e.data) else ApplyWrites(mem, events)
    decreases |events|
  {
    if events == [] {
      assert events + [e] == [e];
      assert [e][1..] == [];
    } else {
      var m := if events[0].TapWrite? then Store(mem, events[0].addr, events[0].data) else mem;
      assert (events + [e])[1..] == events[1..] + [e];
      ApplyWritesSnoc(m, events[1..], e);
    }
  }

  /** A trace without TAP writes leaves the memory as it was. */
  lemma {:induction false} ApplyWritesWithoutWrites(mem: map<u64, byte>, events: seq<Event>)
    requires forall k :: 0 <= k < |events| ==> !events[k].TapWrite?
    ensures ApplyWrites(mem, events) == mem
    decreases |events|
  {
    if events != [] {
      ApplyWritesWithoutWrites(mem, events[1..]);
    }
  }

  /** Whether x is one of the n addresses starting at addr. */
  predicate InWindow(x: u64, addr: u64, n: nat)
  {
    exists k :: 0 <= k < n && At(addr, k) == x
  }

  lemma AtStep(addr: u64, k: nat)
    ensures At(At(addr, 1), k) == At(addr, k + 1)
  {
  }

  /** A write leaves every address outside its window as it was. */
  lemma {:induction false} StoreElsewhere(mem: map<u64, byte>, addr: u64, data: seq<byte>, x: u64)
    requires !InWindow(x, addr, |data|)
    ensures (x in Store(mem, addr, data)) == (x in mem)
    ensures x in mem ==> Store(mem, addr, data)[x] == mem[x]
    decreases |data|
  {
    if data != [] {
      assert At(addr, 0) == addr;
      forall k | 0 <= k < |data| - 1
        ensures At(At(addr, 1), k) != x
      {
        AtStep(addr, k);
      }
      StoreElsewhere(mem[addr := data[0]], At(addr, 1), data[1..], x);
    }
  }

  /** Fewer than 2^64 addresses after addr never wrap back onto it. */
  lemma NoWrapBack(addr: u64, n: nat)
    requires n < U64_LIMIT
    ensures !InWindow(addr, At(addr, 1), n)
  {
    forall j | 0 <= j < n
      ensures At(At(addr, 1), j) != addr
    {
      AtStep(addr, j);
      if addr + j + 1 >= U64_LIMIT {
        assert At(addr, j + 1) == addr + j + 1 - U64_LIMIT;
      }
    }
  }

  /** Reading back what was just written gives the written bytes, as long as
      the window does not wrap onto itself. */
  lemma {:induction false} FetchAfterStore(mem: map<u64, byte>, addr: u64, data: seq<byte>)
    requires |data| <= U64_LIMIT
    ensures Fetch(Store(mem, addr, data), addr, |data|) == data
    decreases |data|
  {
    if data != [] {
      var m1 := mem[addr := data[0]];
      var a1 := At(addr, 1);
      var rest := data[1..];
      FetchAfterStore(m1, a1, rest);
      var after := Store(m1, a1, rest);
      assert after == Store(mem, addr, data);
      forall k | 0 <= k < |data|
        ensures Fetch(after, addr, |data|)[k] == data[k]
      {
        if k == 0 {
          assert At(addr, 0) == addr;
          NoWrapBack(addr, |rest|);
          StoreElsewhere(m1, a1, rest, addr);
        } else {
          AtStep(addr, k - 1);
          assert Fetch(after, a1, |rest|)[k - 1] == rest[k - 1];
        }
      }
    }
  }

  /** The world outside the interpreter. */
  class World {
    var mem: map<u64, byte>
    var events: seq<Event>

    constructor (initial: map<u64, byte>)
      ensures mem == initial && events == []
    {
      mem := initial;
      events := [];
    }

    /** ITap::read: len bytes from addr; the memory does not change. */
    method Read(addr: u64, len: nat) returns (data: seq<byte>)
      modifies this
      ensures data == Fetch(old(mem), addr, len)
      ensures mem == old(mem)
      ensures events == old(events) + [TapRead(addr, len)]
    {
      data := Fetch(mem, addr, len);
      events := events + [TapRead(addr, len)];
    }

    /** ITap::write: data lands at addr. */
    method Write(addr: u64, data: seq<byte>)
      modifies this
      ensures mem == Store(old(mem), addr, data)
      ensures events == old(events) + [TapWrite(addr, |data|, data)]
    {
      mem := Store(mem, addr, data);
      events := events + [TapWrite(addr, |data|, data)];
    }

    /** Any other action on the outside world; it does not touch memory. */
    method Record(e: Event)
      requires !e.TapWrite?
      modifies this
      ensures mem == old(mem)
      ensures events == old(events) + [e]
    {
      events := events + [e];
    }
  }
}
