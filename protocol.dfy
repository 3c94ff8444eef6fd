/**
 * The byte-level command protocol of the 23K640 SPI SRAM in "Byte Operation"
 * mode: the three instructions the test uses, the range checks on addresses
 * and values, and the fixed layout of every command frame.
 */
module Protocol {
  import opened Bitwise

  /** Instruction bytes, named as in the chip's datasheet. */
  const READ := 0x03
  const WRITE := 0x02
  const RDSR := 0x05

  /** Number of memory cells, address width and data width. */
  const MemorySize := 65536
  const AddressBits := 16
  const DataBits := 8

  /** The bytes sent in one bus exchange. */
  type Frame = seq<int>

  /** The two range errors that `read` and `write` raise. */
  datatype Error = AddressRange | ValueRange

  datatype Result<T> = Ok(value: T) | Err(error: Error)

  datatype Option<T> = None | Some(value: T)

  /** The range check on addresses: `address >> 16` must be zero. */
  function ValidAddress(address: int): (ok: bool)
    ensures ok <==> 0 <= address < MemorySize
  {
    ShrIsZero(address, AddressBits);
    Pow2Widths();
    Shr(address, AddressBits) == 0
  }

  /** The range check on values: `value >> 8` must be zero. */
  function ValidValue(value: int): (ok: bool)
    ensures ok <==> IsByte(value)
  {
    ShrIsZero(value, DataBits);
    Pow2Widths();
    Shr(value, DataBits) == 0
  }

  /** `(address >> 8) & 0xFF` */
  function High(address: int): int
    requires ValidAddress(address)
  {
    ShrOfNat(address, 8);
    And(Shr(address, 8), 0xFF)
  }

  /** `address & 0xFF` */
  function Low(address: int): int
    requires ValidAddress(address)
  {
    And(address, 0xFF)
  }

  /** The high and low bytes are bytes, and together they are the address. */
  lemma SplitAddress(address: int)
    requires ValidAddress(address)
    ensures IsByte(High(address)) && IsByte(Low(address))
    ensures High(address) * 256 + Low(address) == address
  {
    Pow2Widths();
    ShrBound(address, 8, 16);
    LowMaskKeeps(Shr(address, 8), 8);
    LowMaskSplit(address, 8);
    AndBound(address, 0xFF);
  }

  /** A high and a low byte are recovered from the address they make. */
  lemma SplitUnique(hi: int, lo: int, hi': int, lo': int)
    requires IsByte(hi) && IsByte(lo) && IsByte(hi') && IsByte(lo')
    requires hi * 256 + lo == hi' * 256 + lo'
    ensures hi == hi' && lo == lo'
  {
  }

  /** The byte operations the test sends to the chip. */
  datatype Command =
    | ReadByte(address: int)
    | WriteByte(address: int, value: int)
    | ReadStatus

  /** A command whose address and value pass the range checks. */
  predicate WellFormed(c: Command)
  {
    match c
    case ReadByte(a) => ValidAddress(a)
    case WriteByte(a, v) => ValidAddress(a) && ValidValue(v)
    case ReadStatus => true
  }

  /**
   * The frame of a command: the instruction byte, the address high and low
   * bytes, the data byte of a write, and a trailing dummy byte that clocks
   * out the chip's answer.
   */
  function Encode(c: Command): (f: Frame)
    requires WellFormed(c)
    ensures |f| == (match c case ReadByte(_) => 4 case WriteByte(_, _) => 5 case ReadStatus => 2)
    ensures f[0] == (match c case ReadByte(_) => READ case WriteByte(_, _) => WRITE case ReadStatus => RDSR)
    ensures f[|f| - 1] == 0x00
    ensures forall i :: 0 <= i < |f| ==> IsByte(f[i])
  {
    match c
    case ReadByte(a) =>
      SplitAddress(a);
      [READ, High(a), Low(a), 0x00]
    case WriteByte(a, v) =>
      SplitAddress(a);
      [WRITE, High(a), Low(a), v, 0x00]
    case ReadStatus =>
      [RDSR, 0x00]
  }

  /** How the chip reads a frame: the command it carries, if any. */
  function Decode(f: Frame): (c: Option<Command>)
    ensures c.Some? ==> WellFormed(c.value)
  {
    if |f| == 4 && f[0] == READ && IsByte(f[1]) && IsByte(f[2]) && f[3] == 0x00 then
      Some(ReadByte(f[1] * 256 + f[2]))
    else if |f| == 5 && f[0] == WRITE && IsByte(f[1]) && IsByte(f[2]) && IsByte(f[3]) && f[4] == 0x00 then
      Some(WriteByte(f[1] * 256 + f[2], f[3]))
    else if f == [RDSR, 0x00] then
      Some(ReadStatus)
    else
      None
  }

  /** The chip reads back every command the test encodes. */
  lemma DecodeEncode(c: Command)
    requires WellFormed(c)
    ensures Decode(Encode(c)) == Some(c)
  {
    match c
    case ReadByte(a) => SplitAddress(a);
    case WriteByte(a, v) => SplitAddress(a);
    case ReadStatus =>
  }

  /** Every frame the chip accepts is the encoding of the command it reads. */
  lemma EncodeDecode(f: Frame)
    requires Decode(f).Some?
    ensures Encode(Decode(f).value) == f
  {
    match Decode(f).value
    case ReadByte(a) =>
      SplitAddress(a);
      SplitUnique(High(a), Low(a), f[1], f[2]);
      assert Encode(ReadByte(a)) == [READ, f[1], f[2], 0x00];
    case WriteByte(a, v) =>
      SplitAddress(a);
      SplitUnique(High(a), Low(a), f[1], f[2]);
      assert Encode(WriteByte(a, v)) == [WRITE, f[1], f[2], f[3], 0x00];
    case ReadStatus =>
  }
}
