/**
 * The four bit-lane March primitives. Each walks the eight lanes of the byte
 * at one address in a fixed order, checks the lane, returns `true` (a fault)
 * at the first lane that reads wrong, and otherwise drives the lane through
 * its writes, each a read-modify-write of the whole byte. A range error of
 * the first read is passed on.
 */
module Primitives {
  import opened Bitwise
  import opened Protocol
  import opened Sram
  import opened MarchSpec

  /** `write(address, read(address) | (1 << lane))`: sets one lane of the byte as read. */
  method SetLane(d: Device, address: int, lane: int)
    requires d.Valid() && ValidAddress(address) && 0 <= lane < DataBits
    modifies d, d.cells
    ensures d.Valid()
    ensures var v := Drive(d.faults, address, old(d.cells[..]), lane, 1);
            && d.cells[..] == old(d.cells[..])[address := v]
            && d.log == old(d.log) + [ReadByte(address), WriteByte(address, v)]
  {
    var x := d.Read(address);
    var w := d.Write(address, Or(x.value, Pow2(lane)));
  }

  /** `write(address, read(address) & ~(1 << lane))`: clears one lane of the byte as read. */
  method ClearLane(d: Device, address: int, lane: int)
    requires d.Valid() && ValidAddress(address) && 0 <= lane < DataBits
    modifies d, d.cells
    ensures d.Valid()
    ensures var v := Drive(d.faults, address, old(d.cells[..]), lane, 0);
            && d.cells[..] == old(d.cells[..])[address := v]
            && d.log == old(d.log) + [ReadByte(address), WriteByte(address, v)]
  {
    var x := d.Read(address);
    var w := d.Write(address, AndNot(x.value, Pow2(lane)));
  }

  /** `(read(address) >> lane) & 1`: one lane of the byte as read. */
  method ReadLane(d: Device, address: int, lane: int) returns (r: Result<int>)
    requires d.Valid() && 0 <= lane < DataBits
    modifies d, d.cells
    ensures d.Valid() && d.cells[..] == old(d.cells[..])
    ensures !ValidAddress(address) ==> r == Err(AddressRange) && d.log == old(d.log)
    ensures ValidAddress(address) ==>
              && r == Ok(Bit(Observe(d.faults, address, d.cells[..][address]), lane))
              && d.log == old(d.log) + [ReadByte(address)]
  {
    var v := d.Read(address);
    if v.Err? {
      return Err(v.error);
    }
    return Ok(Bit(v.value, lane));
  }

  /** The writes of one M1 lane: set, clear, set. */
  method WriteOneZeroOne(d: Device, address: int, lane: int)
    requires d.Valid() && ValidAddress(address) && 0 <= lane < DataBits
    modifies d, d.cells
    ensures d.Valid()
    ensures var run := Rmw(d.faults, address, lane, [1, 0, 1], old(d.cells[..]), old(d.log));
            d.cells[..] == run.mem && d.log == run.log
  {
    ghost var mem, log := d.cells[..], d.log;
    SetLane(d, address, lane);
    ClearLane(d, address, lane);
    SetLane(d, address, lane);
    RmwThree(d.faults, address, lane, 1, 0, 1, mem, log);
  }

  /** The writes of one M2 lane: clear, set. */
  method WriteZeroOne(d: Device, address: int, lane: int)
    requires d.Valid() && ValidAddress(address) && 0 <= lane < DataBits
    modifies d, d.cells
    ensures d.Valid()
    ensures var run := Rmw(d.faults, address, lane, [0, 1], old(d.cells[..]), old(d.log));
            d.cells[..] == run.mem && d.log == run.log
  {
    ghost var mem, log := d.cells[..], d.log;
    ClearLane(d, address, lane);
    SetLane(d, address, lane);
    RmwTwo(d.faults, address, lane, 0, 1, mem, log);
  }

  /** The writes of one M3 lane: clear, set, clear. */
  method WriteZeroOneZero(d: Device, address: int, lane: int)
    requires d.Valid() && ValidAddress(address) && 0 <= lane < DataBits
    modifies d, d.cells
    ensures d.Valid()
    ensures var run := Rmw(d.faults, address, lane, [0, 1, 0], old(d.cells[..]), old(d.log));
            d.cells[..] == run.mem && d.log == run.log
  {
    ghost var mem, log := d.cells[..], d.log;
    ClearLane(d, address, lane);
    SetLane(d, address, lane);
    ClearLane(d, address, lane);
    RmwThree(d.faults, address, lane, 0, 1, 0, mem, log);
  }

  /** The writes of one M4 lane: set, clear. */
  method WriteOneZero(d: Device, address: int, lane: int)
    requires d.Valid() && ValidAddress(address) && 0 <= lane < DataBits
    modifies d, d.cells
    ensures d.Valid()
    ensures var run := Rmw(d.faults, address, lane, [1, 0], old(d.cells[..]), old(d.log));
            d.cells[..] == run.mem && d.log == run.log
  {
    ghost var mem, log := d.cells[..], d.log;
    SetLane(d, address, lane);
    ClearLane(d, address, lane);
    RmwTwo(d.faults, address, lane, 1, 0, mem, log);
  }

  /** M1, `ReadZeroWriteOneZeroOne`: lanes 0..7, each must read 0, then write 1, write 0, write 1. */
  method ReadZeroWriteOneZeroOne(d: Device, address: int) returns (r: Result<bool>)
    requires d.Valid()
    modifies d, d.cells
    ensures d.Valid()
    ensures !ValidAddress(address) ==>
              r == Err(AddressRange) && d.cells[..] == old(d.cells[..]) && d.log == old(d.log)
    ensures ValidAddress(address) ==>
              var run := RunElement(d.faults, address, M1, old(d.cells[..]), old(d.log));
              r == Ok(run.fault) && d.cells[..] == run.mem && d.log == run.log
  {
    ghost var mem, log := d.cells[..], d.log;
    var i := 0;
    while i < DataBits
      invariant 0 <= i <= DataBits && d.Valid()
      invariant !ValidAddress(address) ==> i == 0 && d.cells[..] == mem && d.log == log
      invariant ValidAddress(address) ==>
                  var run := Lanes(d.faults, address, M1, i, mem, log);
                  !run.fault && d.cells[..] == run.mem && d.log == run.log
    {
      assert Lane(M1, i) == i;
      var t := ReadLane(d, address, i);                  // read 0
      if t.Err? {
        return Err(t.error);
      }
      if t.value != 0 {
        LanesStop(d.faults, address, M1, i + 1, DataBits, mem, log);
        return Ok(true);
      }
      WriteOneZeroOne(d, address, i);        // write 1, 0, 1
      LanesNext(d.faults, address, M1, i, mem, log);
      i := i + 1;
    }
    return Ok(false);
  }

  /** M2, `ReadOneWriteZeroOne`: lanes 0..7, each must read 1, then write 0, write 1. */
  method ReadOneWriteZeroOne(d: Device, address: int) returns (r: Result<bool>)
    requires d.Valid()
    modifies d, d.cells
    ensures d.Valid()
    ensures !ValidAddress(address) ==>
              r == Err(AddressRange) && d.cells[..] == old(d.cells[..]) && d.log == old(d.log)
    ensures ValidAddress(address) ==>
              var run := RunElement(d.faults, address, M2, old(d.cells[..]), old(d.log));
              r == Ok(run.fault) && d.cells[..] == run.mem && d.log == run.log
  {
    ghost var mem, log := d.cells[..], d.log;
    var i := 0;
    while i < DataBits
      invariant 0 <= i <= DataBits && d.Valid()
      invariant !ValidAddress(address) ==> i == 0 && d.cells[..] == mem && d.log == log
      invariant ValidAddress(address) ==>
                  var run := Lanes(d.faults, address, M2, i, mem, log);
                  !run.fault && d.cells[..] == run.mem && d.log == run.log
    {
      assert Lane(M2, i) == i;
      var t := ReadLane(d, address, i);                  // read 1
      if t.Err? {
        return Err(t.error);
      }
      if t.value != 1 {
        LanesStop(d.faults, address, M2, i + 1, DataBits, mem, log);
        return Ok(true);
      }
      WriteZeroOne(d, address, i);        // write 0, 1
      LanesNext(d.faults, address, M2, i, mem, log);
      i := i + 1;
    }
    return Ok(false);
  }

  /** M3, `ReadOneWriteZeroOneZero`: lanes 7..0, each must read 1, then write 0, write 1, write 0. */
  method ReadOneWriteZeroOneZero(d: Device, address: int) returns (r: Result<bool>)
    requires d.Valid()
    modifies d, d.cells
    ensures d.Valid()
    ensures !ValidAddress(address) ==>
              r == Err(AddressRange) && d.cells[..] == old(d.cells[..]) && d.log == old(d.log)
    ensures ValidAddress(address) ==>
              var run := RunElement(d.faults, address, M3, old(d.cells[..]), old(d.log));
              r == Ok(run.fault) && d.cells[..] == run.mem && d.log == run.log
  {
    ghost var mem, log := d.cells[..], d.log;
    var i := DataBits;
    ghost var k := 0;                                  // lanes visited so far
    while i > 0
      invariant 0 <= i <= DataBits && k == DataBits - i && d.Valid()
      invariant !ValidAddress(address) ==> i == DataBits && d.cells[..] == mem && d.log == log
      invariant ValidAddress(address) ==>
                  var run := Lanes(d.faults, address, M3, k, mem, log);
                  !run.fault && d.cells[..] == run.mem && d.log == run.log
    {
      i := i - 1;
      assert Lane(M3, k) == i;
      var t := ReadLane(d, address, i);                  // read 1
      if t.Err? {
        return Err(t.error);
      }
      if t.value != 1 {
        LanesStop(d.faults, address, M3, k + 1, DataBits, mem, log);
        return Ok(true);
      }
      WriteZeroOneZero(d, address, i);        // write 0, 1, 0
      LanesNext(d.faults, address, M3, k, mem, log);
      k := k + 1;
    }
    return Ok(false);
  }

  /** M4, `ReadZeroWriteOneZero`: lanes 7..0, each must read 0, then write 1, write 0. */
  method ReadZeroWriteOneZero(d: Device, address: int) returns (r: Result<bool>)
    requires d.Valid()
    modifies d, d.cells
    ensures d.Valid()
    ensures !ValidAddress(address) ==>
              r == Err(AddressRange) && d.cells[..] == old(d.cells[..]) && d.log == old(d.log)
    ensures ValidAddress(address) ==>
              var run := RunElement(d.faults, address, M4, old(d.cells[..]), old(d.log));
              r == Ok(run.fault) && d.cells[..] == run.mem && d.log == run.log
  {
    ghost var mem, log := d.cells[..], d.log;
    var i := DataBits;
    ghost var k := 0;                                  // lanes visited so far
    while i > 0
      invariant 0 <= i <= DataBits && k == DataBits - i && d.Valid()
      invariant !ValidAddress(address) ==> i == DataBits && d.cells[..] == mem && d.log == log
      invariant ValidAddress(address) ==>
                  var run := Lanes(d.faults, address, M4, k, mem, log);
                  !run.fault && d.cells[..] == run.mem && d.log == run.log
    {
      i := i - 1;
      assert Lane(M4, k) == i;
      var t := ReadLane(d, address, i);                  // read 0
      if t.Err? {
        return Err(t.error);
      }
      if t.value != 0 {
        LanesStop(d.faults, address, M4, k + 1, DataBits, mem, log);
        return Ok(true);
      }
      WriteOneZero(d, address, i);        // write 1, 0
      LanesNext(d.faults, address, M4, k, mem, log);
      k := k + 1;
    }
    return Ok(false);
  }
}
