/**
 * The three memory tests as the host runs them against the chip: loops of
 * `read` and `write` calls and of the March primitives. A test ends at the
 * first failing check, which it reports, or at the first call that raises.
 * Each test is proved to leave the chip and the command log exactly as the
 * functions of the same name say, so everything proved about those
 * functions holds of the tests.
 */
module Drivers {
  import opened Protocol
  import opened Sram
  import opened Passes
  import opened MarchSpec
  import opened MarchTheory
  import opened Primitives

  /** The ascending write loop: `write(address, value)` for every address below `n`. */
  method WriteLoop(d: Device, p: Pattern, n: nat) returns (r: Outcome)
    requires d.Valid()
    modifies d, d.cells
    ensures d.Valid()
    ensures var w := WritePass(p, n, old(d.cells[..]), old(d.log));
            r == w.outcome && d.cells[..] == w.mem && d.log == w.log
  {
    ghost var mem, log := d.cells[..], d.log;
    var address := 0;
    while address < n
      invariant 0 <= address <= n && d.Valid()
      invariant var w := WritePass(p, address, mem, log);
                w.outcome == Pass && d.cells[..] == w.mem && d.log == w.log
    {
      var x := d.Write(address, PatternValue(p, address));
      if x.Err? {
        WritePassStop(p, address + 1, n, mem, log);
        return Raised(x.error);
      }
      address := address + 1;
    }
    return Pass;
  }

  /** The ascending verify loop: `read(i)` for every address below `n`, each checked in turn. */
  method VerifyLoop(d: Device, p: Pattern, n: nat) returns (r: Outcome)
    requires d.Valid() && n <= MemorySize
    modifies d, d.cells
    ensures d.Valid()
    ensures var s := Scan(d.faults, p, n, old(d.cells[..]), old(d.log));
            r == s.outcome && d.cells[..] == s.mem && d.log == s.log
  {
    ghost var mem, log := d.cells[..], d.log;
    var i := 0;
    while i < n
      invariant 0 <= i <= n && d.Valid() && d.cells[..] == mem
      invariant var s := Scan(d.faults, p, i, mem, log);
                s.outcome == Pass && d.log == s.log
    {
      var x := d.Read(i);
      var verdict := Verdict(p, i, x.value);
      if verdict.Fail? {
        ScanStop(d.faults, p, i + 1, n, mem, log);
        return verdict;
      }
      i := i + 1;
    }
    return Pass;
  }

  /** `checkerboard_test(n, step)`: the checkerboard write loop, then its verify loop. */
  method CheckerboardTest(d: Device, n: nat, step: int) returns (r: Outcome)
    requires d.Valid()
    modifies d, d.cells
    ensures d.Valid()
    ensures var t := Checkerboard(d.faults, n, step, old(d.cells[..]), old(d.log));
            r == t.outcome && d.cells[..] == t.mem && d.log == t.log
  {
    r := WriteLoop(d, Board(step), n);
    if r.Raised? {
      return;
    }
    r := VerifyLoop(d, Board(step), n);
  }

  /** `sequence_test(n, datum)`: `datum` written to every address below `n`, then read back. */
  method SequenceTest(d: Device, n: nat, datum: int) returns (r: Outcome)
    requires d.Valid()
    modifies d, d.cells
    ensures d.Valid()
    ensures var t := Sequence(d.faults, n, datum, old(d.cells[..]), old(d.log));
            r == t.outcome && d.cells[..] == t.mem && d.log == t.log
  {
    r := WriteLoop(d, Fill(datum), n);
    if r.Raised? {
      return;
    }
    r := VerifyLoop(d, Fill(datum), n);
  }

  /** The primitive that runs March element `e` on one address. */
  method Primitive(d: Device, e: Element, address: int) returns (r: Result<bool>)
    requires d.Valid() && ValidAddress(address)
    requires e in [M1, M2, M3, M4]
    modifies d, d.cells
    ensures d.Valid()
    ensures var run := RunElement(d.faults, address, e, old(d.cells[..]), old(d.log));
            r == Ok(run.fault) && d.cells[..] == run.mem && d.log == run.log
  {
    if e == M1 {
      r := ReadZeroWriteOneZeroOne(d, address);
    } else if e == M2 {
      r := ReadOneWriteZeroOne(d, address);
    } else if e == M3 {
      r := ReadOneWriteZeroOneZero(d, address);
    } else {
      r := ReadZeroWriteOneZero(d, address);
    }
  }

  /** Element `e` on the `k`-th address a phase visits, the phase having passed so far. */
  method SweepStep(d: Device, e: Element, phase: Phase, order: Order, n: nat, k: nat,
                   ghost mem: seq<int>, ghost log: seq<Command>) returns (address: int, fault: bool)
    requires d.Valid() && IsMemory(mem) && k < n <= MemorySize
    requires e in [M1, M2, M3, M4]
    requires var s := Sweep(d.faults, e, phase, order, n, k, mem, log);
             s.outcome == Pass && d.cells[..] == s.mem && d.log == s.log
    modifies d, d.cells
    ensures d.Valid() && address == Visit(order, n, k)
    ensures var s := Sweep(d.faults, e, phase, order, n, k + 1, mem, log);
            && s.outcome == (if fault then Fail(phase, address) else Pass)
            && d.cells[..] == s.mem && d.log == s.log
  {
    address := Visit(order, n, k);
    SweepNext(d.faults, e, phase, order, n, k, mem, log);
    var r := Primitive(d, e, address);
    fault := r.value;
  }

  /**
   * One March phase: element `e` on each address below `n`, in the order
   * `for address in range(n)` (`Up`) or `for address in reversed(range(n))`
   * (`Down`) visits them. The first fault ends the phase.
   */
  method SweepLoop(d: Device, e: Element, phase: Phase, order: Order, n: nat) returns (r: Outcome)
    requires d.Valid() && n <= MemorySize
    requires e in [M1, M2, M3, M4]
    modifies d, d.cells
    ensures d.Valid()
    ensures var s := Sweep(d.faults, e, phase, order, n, n, old(d.cells[..]), old(d.log));
            r == s.outcome && d.cells[..] == s.mem && d.log == s.log
  {
    ghost var mem, log := d.cells[..], d.log;
    var k := 0;
    r := Pass;
    while k < n && r == Pass
      invariant 0 <= k <= n && d.Valid()
      invariant var s := Sweep(d.faults, e, phase, order, n, k, mem, log);
                r == s.outcome && d.cells[..] == s.mem && d.log == s.log
    {
      var address, fault := SweepStep(d, e, phase, order, n, k, mem, log);
      if fault {
        r := Fail(phase, address);
      }
      k := k + 1;
    }
    if r.Fail? {
      SweepStop(d.faults, e, phase, order, n, k, n, mem, log);
    }
  }

  /**
   * `march_A_test(n)`: M0 writes 0x00 to every address below `n`; then M1
   * and M2 sweep up and M3 and M4 sweep down. The first element that faults
   * ends the test.
   */
  method MarchATest(d: Device, n: nat) returns (r: Outcome)
    requires d.Valid()
    modifies d, d.cells
    ensures d.Valid()
    ensures var t := MarchA(d.faults, n, old(d.cells[..]), old(d.log));
            r == t.outcome && d.cells[..] == t.mem && d.log == t.log
  {
    r := WriteLoop(d, Fill(0), n);                     // M0
    if r.Raised? {
      return;
    }
    r := SweepLoop(d, M1, MarchM1, Up, n);
    if r.Fail? {
      return;
    }
    r := SweepLoop(d, M2, MarchM2, Up, n);
    if r.Fail? {
      return;
    }
    r := SweepLoop(d, M3, MarchM3, Down, n);
    if r.Fail? {
      return;
    }
    r := SweepLoop(d, M4, MarchM4, Down, n);
  }
}
