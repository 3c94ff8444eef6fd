/**
 * What the March A test does, as functions of the chip's cells: one March
 * element on one address (a walk over its eight bit lanes), a phase (a sweep
 * of one element over the addresses), and the whole five-phase test. Each
 * function threads the cells and the log of commands sent, in order.
 */
module MarchSpec {
  import opened Bitwise
  import opened Protocol
  import opened Sram
  import opened Passes

  /** The order a walk visits lanes or addresses in: ascending, or reversed. */
  datatype Order = Up | Down

  /**
   * A March element on one byte as the test writes it: the order it visits
   * the eight bit lanes in, the value each lane must read before it is
   * touched, and the values then driven into that lane (1 sets it, any
   * other value clears it), one read-modify-write each.
   */
  datatype Element = Element(order: Order, want: nat, writes: seq<nat>)

  /** The lane an element visits `k`-th: `range(data_bits)` or `reversed(range(data_bits))`. */
  function Lane(e: Element, k: nat): (lane: nat)
    requires k < DataBits
    ensures lane < DataBits
  {
    match e.order
    case Up => k
    case Down => DataBits - 1 - k
  }

  /** `ReadZeroWriteOneZeroOne`: lanes 0..7, read 0, write 1, 0, 1. */
  const M1 := Element(Up, 0, [1, 0, 1])
  /** `ReadOneWriteZeroOne`: lanes 0..7, read 1, write 0, 1. */
  const M2 := Element(Up, 1, [0, 1])
  /** `ReadOneWriteZeroOneZero`: lanes 7..0, read 1, write 0, 1, 0. */
  const M3 := Element(Down, 1, [0, 1, 0])
  /** `ReadZeroWriteOneZero`: lanes 7..0, read 0, write 1, 0. */
  const M4 := Element(Down, 0, [1, 0])

  /** The chip and the address an element works on. */
  predicate Cell(faults: Faults, address: int, mem: seq<int>)
  {
    ValidFaults(faults) && ValidAddress(address) && IsMemory(mem)
  }

  /**
   * The byte a read-modify-write stores to drive `lane` to `b`: the byte
   * read, with that lane set (`| (1 << lane)`) or cleared (`& ~(1 << lane)`).
   */
  function Drive(faults: Faults, address: int, mem: seq<int>, lane: int, b: nat): (v: int)
    requires Cell(faults, address, mem) && 0 <= lane < DataBits
    ensures IsByte(v)
  {
    var seen := Observe(faults, address, mem[address]);
    Pow2Widths();
    Pow2Below(lane, 8);
    if b == 1 then
      OrBound(seen, Pow2(lane), 8);
      Or(seen, Pow2(lane))
    else
      AndNotBound(seen, Pow2(lane));
      AndNot(seen, Pow2(lane))
  }

  /**
   * What a run of reads and writes leaves: whether a check failed, the
   * cells, and the log of commands, which the run extends.
   */
  datatype Run = Run(fault: bool, mem: seq<int>, log: seq<Command>)

  /** The writes to one lane in turn, each a read of the byte and a write of the driven byte. */
  function Rmw(faults: Faults, address: int, lane: int, writes: seq<nat>, mem: seq<int>, log: seq<Command>): (r: Run)
    requires Cell(faults, address, mem) && 0 <= lane < DataBits
    ensures IsMemory(r.mem) && !r.fault
    decreases |writes|
  {
    if writes == [] then
      Run(false, mem, log)
    else
      var v := Drive(faults, address, mem, lane, writes[0]);
      Rmw(faults, address, lane, writes[1..], mem[address := v],
          log + [ReadByte(address), WriteByte(address, v)])
  }

  /**
   * The first `k` lanes of element `e` on one address: each lane is read
   * and checked against `e.want`; the first wrong lane stops the element
   * with a fault, otherwise the lane's writes follow.
   */
  function Lanes(faults: Faults, address: int, e: Element, k: nat, mem: seq<int>, log: seq<Command>): (r: Run)
    requires Cell(faults, address, mem) && k <= DataBits
    ensures IsMemory(r.mem)
  {
    if k == 0 then
      Run(false, mem, log)
    else
      var prev := Lanes(faults, address, e, k - 1, mem, log);
      if prev.fault then
        prev
      else
        var lane := Lane(e, k - 1);
        var checked := prev.log + [ReadByte(address)];
        if Bit(Observe(faults, address, prev.mem[address]), lane) != e.want then
          Run(true, prev.mem, checked)
        else
          Rmw(faults, address, lane, e.writes, prev.mem, checked)
  }

  /** The whole element on one address: all eight lanes. */
  function RunElement(faults: Faults, address: int, e: Element, mem: seq<int>, log: seq<Command>): Run
    requires Cell(faults, address, mem)
  {
    Lanes(faults, address, e, DataBits, mem, log)
  }

  /** One more lane of an element that has not faulted: the lane is checked, then driven. */
  lemma LanesNext(faults: Faults, address: int, e: Element, k: nat, mem: seq<int>, log: seq<Command>)
    requires Cell(faults, address, mem) && k < DataBits
    requires !Lanes(faults, address, e, k, mem, log).fault
    ensures var prev := Lanes(faults, address, e, k, mem, log);
            var checked := prev.log + [ReadByte(address)];
            Lanes(faults, address, e, k + 1, mem, log) ==
              if Bit(Observe(faults, address, prev.mem[address]), Lane(e, k)) != e.want then Run(true, prev.mem, checked)
              else Rmw(faults, address, Lane(e, k), e.writes, prev.mem, checked)
  {
  }

  /** Two read-modify-writes of one lane, spelled out. */
  lemma RmwTwo(faults: Faults, address: int, lane: int, b1: nat, b2: nat, mem: seq<int>, log: seq<Command>)
    requires Cell(faults, address, mem) && 0 <= lane < DataBits
    ensures var v1 := Drive(faults, address, mem, lane, b1);
            var m1 := mem[address := v1];
            var v2 := Drive(faults, address, m1, lane, b2);
            var rd := ReadByte(address);
            Rmw(faults, address, lane, [b1, b2], mem, log) ==
              Run(false, m1[address := v2], log + [rd, WriteByte(address, v1)]
                                                + [rd, WriteByte(address, v2)])
  {
    var v1 := Drive(faults, address, mem, lane, b1);
    var m1 := mem[address := v1];
    var v2 := Drive(faults, address, m1, lane, b2);
    var rd := ReadByte(address);
    assert [b1, b2][1..] == [b2] && [b2][1..] == [];
    var log1 := log + [rd, WriteByte(address, v1)];
    assert Rmw(faults, address, lane, [b2], m1, log1)
        == Rmw(faults, address, lane, [], m1[address := v2], log1 + [rd, WriteByte(address, v2)]);
  }

  /** Three read-modify-writes of one lane, spelled out. */
  lemma RmwThree(faults: Faults, address: int, lane: int, b1: nat, b2: nat, b3: nat, mem: seq<int>, log: seq<Command>)
    requires Cell(faults, address, mem) && 0 <= lane < DataBits
    ensures var v1 := Drive(faults, address, mem, lane, b1);
            var m1 := mem[address := v1];
            var v2 := Drive(faults, address, m1, lane, b2);
            var m2 := m1[address := v2];
            var v3 := Drive(faults, address, m2, lane, b3);
            var rd := ReadByte(address);
            Rmw(faults, address, lane, [b1, b2, b3], mem, log) ==
              Run(false, m2[address := v3], log + [rd, WriteByte(address, v1)]
                                                + [rd, WriteByte(address, v2)]
                                                + [rd, WriteByte(address, v3)])
  {
    var v1 := Drive(faults, address, mem, lane, b1);
    assert [b1, b2, b3][1..] == [b2, b3];
    RmwTwo(faults, address, lane, b2, b3, mem[address := v1], log + [ReadByte(address), WriteByte(address, v1)]);
  }

  /** Once a lane faults, the element stops: later lanes add nothing. */
  lemma {:induction false} LanesStop(faults: Faults, address: int, e: Element, j: nat, k: nat, mem: seq<int>, log: seq<Command>)
    requires Cell(faults, address, mem) && j <= k <= DataBits
    requires Lanes(faults, address, e, j, mem, log).fault
    ensures Lanes(faults, address, e, k, mem, log) == Lanes(faults, address, e, j, mem, log)
    decreases k
  {
    if j < k {
      LanesStop(faults, address, e, j, k - 1, mem, log);
    }
  }

  /** The `k`-th address a phase over `n` addresses visits. */
  function Visit(order: Order, n: nat, k: nat): (a: int)
    requires k < n
    ensures 0 <= a < n
  {
    match order
    case Up => k
    case Down => n - 1 - k
  }

  /**
   * The first `k` steps of a phase: element `e` on each address in turn;
   * the first address whose element faults fails the phase and ends it.
   */
  function Sweep(faults: Faults, e: Element, phase: Phase, order: Order, n: nat, k: nat, mem: seq<int>, log: seq<Command>): (r: TestRun)
    requires ValidFaults(faults) && IsMemory(mem) && k <= n <= MemorySize
    ensures IsMemory(r.mem)
    ensures r.outcome == Pass || (r.outcome.Fail? && r.outcome.phase == phase)
  {
    if k == 0 then
      TestRun(Pass, mem, log)
    else
      var prev := Sweep(faults, e, phase, order, n, k - 1, mem, log);
      if prev.outcome.Fail? then
        prev
      else
        var a := Visit(order, n, k - 1);
        var run := RunElement(faults, a, e, prev.mem, prev.log);
        TestRun(if run.fault then Fail(phase, a) else Pass, run.mem, run.log)
  }

  /** One more step of a phase that has passed so far: the element on the next address. */
  lemma SweepNext(faults: Faults, e: Element, phase: Phase, order: Order, n: nat, k: nat, mem: seq<int>, log: seq<Command>)
    requires ValidFaults(faults) && IsMemory(mem) && k < n <= MemorySize
    requires Sweep(faults, e, phase, order, n, k, mem, log).outcome == Pass
    ensures var prev := Sweep(faults, e, phase, order, n, k, mem, log);
            var a := Visit(order, n, k);
            var run := RunElement(faults, a, e, prev.mem, prev.log);
            Sweep(faults, e, phase, order, n, k + 1, mem, log) ==
              TestRun(if run.fault then Fail(phase, a) else Pass, run.mem, run.log)
  {
  }

  /**
   * `march_A_test(n)`: M0 writes 0 to every address in ascending order;
   * then M1 and M2 sweep up and M3 and M4 sweep down. The first element
   * that faults ends the test.
   */
  function MarchA(faults: Faults, n: nat, mem: seq<int>, log: seq<Command>): (r: TestRun)
    requires ValidFaults(faults) && IsMemory(mem)
    ensures IsMemory(r.mem)
  {
    var m0 := WritePass(Fill(0), n, mem, log);
    if m0.outcome.Raised? then m0
    else
      var m1 := Sweep(faults, M1, MarchM1, Up, n, n, m0.mem, m0.log);
      if m1.outcome.Fail? then m1
      else
        var m2 := Sweep(faults, M2, MarchM2, Up, n, n, m1.mem, m1.log);
        if m2.outcome.Fail? then m2
        else
          var m3 := Sweep(faults, M3, MarchM3, Down, n, n, m2.mem, m2.log);
          if m3.outcome.Fail? then m3
          else Sweep(faults, M4, MarchM4, Down, n, n, m3.mem, m3.log)
  }
}
