/** Machine words, the argument variant produced by the literal parser, and
    the small integer helpers the rest of the model shares. */
module Types {

  const BYTE_LIMIT: int := 0x100
  const U64_LIMIT: int := 0x1_0000_0000_0000_0000
  /** csr_socaddr's "not found" answer: static_cast<uint64_t>(-1). */
  const ALL_ONES: int := 0xFFFF_FFFF_FFFF_FFFF

  type byte = x: int | 0 <= x < 0x100
  type u64 = x: int | 0 <= x < 0x1_0000_0000_0000_0000
  type u16 = x: int | 0 <= x < 0x1_0000

  datatype Option<T> = None | Some(value: T)

  /** An AttributeType as the command interpreter sees it: a string, a 64-bit
      integer, a (possibly nested) list, or any other kind the literal parser
      may produce. */
  datatype Attr = Str(s: string) | Int(v: u64) | List(items: seq<Attr>) | Other

  /** to_uint64(): the integer of an Int attribute; other kinds read as 0. */
  function AsU64(a: Attr): (r: u64)
    ensures a.Int? ==> r == a.v
    ensures !a.Int? ==> r == 0
  {
    if a.Int? then a.v else 0
  }

  /** to_string(): the text of a Str attribute; other kinds read as "". */
  function AsString(a: Attr): (r: string)
    ensures a.Str? ==> r == a.s
    ensures !a.Str? ==> r == []
  {
    if a.Str? then a.s else []
  }

  /** uint64_t addition, which wraps modulo 2^64. */
  function AddU64(a: u64, b: int): (r: u64)
    requires 0 <= b < U64_LIMIT
    ensures a + b < U64_LIMIT ==> r == a + b
    ensures a + b >= U64_LIMIT ==> r < a
    ensures (r - a - b) % U64_LIMIT == 0
  {
    (a + b) % U64_LIMIT
  }

  /** static_cast<int>(v) of a uint64_t: the low 32 bits read as a signed
      two's-complement number. */
  function ToInt32(v: u64): (r: int)
    ensures -0x8000_0000 <= r < 0x8000_0000
    ensures (r - v) % 0x1_0000_0000 == 0
    ensures 0 <= v < 0x8000_0000 ==> r == v
  {
    var low := v % 0x1_0000_0000;
    if low < 0x8000_0000 then low else low - 0x1_0000_0000
  }
}
