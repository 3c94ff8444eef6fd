/**
 * The SRAM chip behind the bus, and the three transport operations of the
 * test (`get_status`, `read`, `write`). The chip is a class holding its
 * 65536 byte cells, a constant map of stuck-at faults that every read sees,
 * the constant status byte, and the log of every command it received.
 */
module Sram {
  import opened Bitwise
  import opened Protocol

  /** Lanes of one cell that always read 0 (`zeros`) and always read 1 (`ones`). */
  datatype StuckAt = StuckAt(zeros: nat, ones: nat)

  /** Stuck-at faults by address; an address that is not a key is fault-free. */
  type Faults = map<int, StuckAt>

  /** The contents of the chip: one byte per address. */
  predicate IsMemory(mem: seq<int>)
  {
    |mem| == MemorySize && forall a :: 0 <= a < |mem| ==> IsByte(mem[a])
  }

  predicate ValidFaults(faults: Faults)
  {
    forall a :: a in faults ==> IsByte(faults[a].zeros) && IsByte(faults[a].ones)
  }

  /** What a read of `address` returns when the cell stores `stored`: `(stored | ones) & ~zeros`. */
  function Observe(faults: Faults, address: int, stored: nat): (v: nat)
    ensures IsByte(stored) && ValidFaults(faults) ==> IsByte(v)
  {
    if address in faults then
      var s := faults[address];
      var v := AndNot(Or(stored, s.ones), s.zeros);
      assert IsByte(stored) && IsByte(s.ones) ==> IsByte(v) by {
        if IsByte(stored) && IsByte(s.ones) {
          Pow2Widths();
          OrBound(stored, s.ones, 8);
          AndNotBound(Or(stored, s.ones), s.zeros);
        }
      }
      v
    else
      stored
  }

  /** Lane `j` as a read sees it when the cell stores `b` in that lane. */
  function LaneSeen(faults: Faults, address: int, j: nat, b: nat): nat
  {
    if address !in faults then b
    else if Bit(faults[address].zeros, j) == 1 then 0
    else if Bit(faults[address].ones, j) == 1 then 1
    else b
  }

  /** A read sees every lane of the stored byte through that lane's fault, and no other lane's. */
  lemma ObserveLane(faults: Faults, address: int, stored: nat, j: nat)
    ensures Bit(Observe(faults, address, stored), j) == LaneSeen(faults, address, j, Bit(stored, j))
  {
    if address in faults {
      var s := faults[address];
      BitOfAndNot(Or(stored, s.ones), s.zeros, j);
      BitOfOr(stored, s.ones, j);
    }
  }

  class Device {
    /** The memory cells, one byte each. */
    const cells: array<int>
    /** The stuck-at faults of the chip, applied on every read. */
    const faults: Faults
    /** The status register, which this model never writes. */
    const status: int
    /** Every command the chip received over the bus, decoded from its frame, oldest first. */
    var log: seq<Command>

    ghost predicate Valid()
      reads this, cells
    {
      && IsMemory(cells[..])
      && ValidFaults(faults)
      && IsByte(status)
    }

    /** What a read of `address` returns now. */
    function Seen(address: int): (v: int)
      requires Valid() && ValidAddress(address)
      reads this, cells
      ensures IsByte(v)
    {
      Observe(faults, address, cells[address])
    }

    constructor (contents: seq<int>, faults: Faults, status: int)
      requires IsMemory(contents)
      requires ValidFaults(faults) && IsByte(status)
      ensures Valid() && fresh(cells)
      ensures cells[..] == contents && this.faults == faults && this.status == status && log == []
    {
      cells := new int[MemorySize](a requires 0 <= a < MemorySize => contents[a]);
      this.faults := faults;
      this.status := status;
      log := [];
    }

    /**
     * One full-duplex exchange: the chip acts on the command the frame
     * carries and clocks out as many bytes as it receives, the answer last.
     */
    method Transfer(frame: Frame) returns (response: seq<int>)
      requires Valid()
      modifies this, cells
      ensures Valid()
      ensures log == old(log) + match Decode(frame) case Some(c) => [c] case None => []
      ensures |response| == |frame|
      ensures match Decode(frame)
        case Some(WriteByte(a, v)) => cells[..] == old(cells[..])[a := v]
        case _ => cells[..] == old(cells[..])
      ensures match Decode(frame)
        case Some(ReadByte(a)) => response[|response| - 1] == Seen(a)
        case Some(ReadStatus) => response[|response| - 1] == status
        case _ => true
    {
      var answer := 0;
      match Decode(frame) {
        case Some(c) =>
          match c {
            case ReadByte(a) =>
              answer := Observe(faults, a, cells[a]);
            case WriteByte(a, v) =>
              cells[a] := v;
            case ReadStatus =>
              answer := status;
          }
          log := log + [c];
        case None =>
      }
      response := if |frame| == 0 then [] else seq(|frame| - 1, _ => 0) + [answer];
    }

    /** `get_status`: sends `[RDSR, 0x00]` and returns the last byte of the answer. */
    method GetStatus() returns (s: int)
      requires Valid()
      modifies this, cells
      ensures Valid() && cells[..] == old(cells[..])
      ensures s == status
      ensures log == old(log) + [ReadStatus]
    {
      var response := Transfer(Encode(ReadStatus));
      s := response[|response| - 1];
    }

    /** `read`: rejects an address wider than 16 bits, else sends a read frame and returns the byte read. */
    method Read(address: int) returns (r: Result<int>)
      requires Valid()
      modifies this, cells
      ensures Valid() && cells[..] == old(cells[..])
      ensures !ValidAddress(address) ==> r == Err(AddressRange) && log == old(log)
      ensures ValidAddress(address) ==> r == Ok(Seen(address)) && log == old(log) + [ReadByte(address)]
    {
      if !ValidAddress(address) {
        return Err(AddressRange);
      }
      DecodeEncode(ReadByte(address));
      var response := Transfer(Encode(ReadByte(address)));
      r := Ok(response[|response| - 1]);
    }

    /**
     * `write`: rejects an address wider than 16 bits, then a value wider
     * than 8 bits, else sends a write frame and the chip stores the value.
     */
    method Write(address: int, value: int) returns (r: Result<()>)
      requires Valid()
      modifies this, cells
      ensures Valid()
      ensures !ValidAddress(address) ==> r == Err(AddressRange) && log == old(log) && cells[..] == old(cells[..])
      ensures ValidAddress(address) && !ValidValue(value) ==>
                r == Err(ValueRange) && log == old(log) && cells[..] == old(cells[..])
      ensures ValidAddress(address) && ValidValue(value) ==>
                && r == Ok(())
                && cells[..] == old(cells[..])[address := value]
                && log == old(log) + [WriteByte(address, value)]
    {
      if !ValidAddress(address) {
        return Err(AddressRange);
      }
      if !ValidValue(value) {
        return Err(ValueRange);
      }
      DecodeEncode(WriteByte(address, value));
      var _ := Transfer(Encode(WriteByte(address, value)));
      r := Ok(());
    }
  }

  /**
   * A write followed by a read of the same address: on a cell without
   * faults the read returns the byte written, and no other cell changes.
   */
  method WriteThenRead(d: Device, address: int, value: int) returns (r: Result<int>)
    requires d.Valid()
    modifies d, d.cells
    ensures d.Valid()
    ensures ValidAddress(address) && ValidValue(value) ==>
              && r == Ok(Observe(d.faults, address, value))
              && (address !in d.faults ==> r == Ok(value))
              && d.cells[..] == old(d.cells[..])[address := value]
              && d.log == old(d.log) + [WriteByte(address, value), ReadByte(address)]
    ensures !ValidAddress(address) ==> r == Err(AddressRange) && d.cells[..] == old(d.cells[..]) && d.log == old(d.log)
    ensures ValidAddress(address) && !ValidValue(value) ==>
              r == Err(ValueRange) && d.cells[..] == old(d.cells[..]) && d.log == old(d.log)
  {
    var w := d.Write(address, value);
    if w.Err? {
      return Err(w.error);
    }
    r := d.Read(address);
  }
}
