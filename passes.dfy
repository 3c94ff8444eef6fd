/**
 * The ascending write and verify passes that the checkerboard and sequence
 * tests are made of (and the first phase of March A), as functions of the
 * chip's cells and the command log; the two tests built from them; and what
 * the passes promise: what a write pass stores, where a verify pass stops,
 * and that fault-free memory passes.
 */
module Passes {
  import opened Bitwise
  import opened Protocol
  import opened Sram

  /** Where a test found a fault. */
  datatype Phase =
    | CheckerboardPart1 | CheckerboardPart2
    | SequenceVerify
    | MarchM1 | MarchM2 | MarchM3 | MarchM4

  /** How a test ends: every check passed, a check failed at an address, or a read or write raised. */
  datatype Outcome = Pass | Fail(phase: Phase, address: int) | Raised(error: Error)

  /** What a test leaves: its outcome, the cells of the chip, and the log of commands sent. */
  datatype TestRun = TestRun(outcome: Outcome, mem: seq<int>, log: seq<Command>)

  /** What a write pass stores: the checkerboard of a step, or one datum everywhere. */
  datatype Pattern = Board(step: int) | Fill(datum: int)

  /** The byte a write pass stores at `address`. */
  function PatternValue(p: Pattern, address: int): int
  {
    match p
    case Board(step) =>
      if (address % 2 == 0 && step == 1) || (address % 2 == 1 && step == 2) then 0xAA else 0x55
    case Fill(datum) => datum
  }

  /**
   * The first `k` writes of an ascending write pass. Each write makes the
   * range checks of `write`; the first one that raises ends the pass, so a
   * pass that completes never went past the last address.
   */
  function WritePass(p: Pattern, k: nat, mem: seq<int>, log: seq<Command>): (r: TestRun)
    requires IsMemory(mem)
    ensures IsMemory(r.mem)
    ensures r.outcome == Pass || r.outcome.Raised?
    ensures r.outcome == Pass ==> k <= MemorySize
  {
    if k == 0 then
      TestRun(Pass, mem, log)
    else
      var prev := WritePass(p, k - 1, mem, log);
      var a, v := k - 1, PatternValue(p, k - 1);
      if prev.outcome.Raised? then prev
      else if !ValidAddress(a) then TestRun(Raised(AddressRange), prev.mem, prev.log)
      else if !ValidValue(v) then TestRun(Raised(ValueRange), prev.mem, prev.log)
      else TestRun(Pass, prev.mem[a := v], prev.log + [WriteByte(a, v)])
  }

  /**
   * The check the verify pass makes of the byte read back from `address`:
   * the two conditions of the checkerboard test (parts 1 and 2), or the
   * comparison with the datum of the sequence test. A checkerboard fails
   * exactly where the byte differs from what its write pass stored, and
   * only for steps 1 and 2; step 1 reports part 1 and step 2 part 2.
   */
  function Verdict(p: Pattern, address: int, seen: int): (r: Outcome)
    ensures r == Pass || (r.Fail? && r.address == address)
    ensures r.Fail? <==>
              match p
              case Board(step) => (step == 1 || step == 2) && seen != PatternValue(p, address)
              case Fill(datum) => seen != datum
    ensures r.Fail? ==>
              r.phase == match p
                         case Board(step) => if step == 1 then CheckerboardPart1 else CheckerboardPart2
                         case Fill(_) => SequenceVerify
  {
    match p
    case Board(step) =>
      if (seen != 0xAA && address % 2 == 0 && step == 1) || (seen != 0x55 && address % 2 == 1 && step == 1) then
        Fail(CheckerboardPart1, address)
      else if (seen != 0xAA && address % 2 == 1 && step == 2) || (seen != 0x55 && address % 2 == 0 && step == 2) then
        Fail(CheckerboardPart2, address)
      else
        Pass
    case Fill(datum) =>
      if seen != datum then Fail(SequenceVerify, address) else Pass
  }

  /** What the verify pass makes of the byte it reads back from address `a`. */
  function Check(faults: Faults, p: Pattern, mem: seq<int>, a: nat): Outcome
    requires IsMemory(mem) && a < MemorySize
  {
    Verdict(p, a, Observe(faults, a, mem[a]))
  }

  /** The first `k` reads of an ascending verify pass; the first read that fails its check ends the pass. */
  function Scan(faults: Faults, p: Pattern, k: nat, mem: seq<int>, log: seq<Command>): (r: TestRun)
    requires IsMemory(mem) && ValidFaults(faults) && k <= MemorySize
    ensures r.mem == mem
    ensures r.outcome == Pass || r.outcome.Fail?
  {
    if k == 0 then
      TestRun(Pass, mem, log)
    else
      var prev := Scan(faults, p, k - 1, mem, log);
      if prev.outcome.Fail? then prev
      else TestRun(Check(faults, p, mem, k - 1), mem, prev.log + [ReadByte(k - 1)])
  }

  /** A write pass of pattern `p` over the first `n` addresses, then a verify pass of the same pattern. */
  function WriteVerify(faults: Faults, p: Pattern, n: nat, mem: seq<int>, log: seq<Command>): TestRun
    requires IsMemory(mem) && ValidFaults(faults)
  {
    var w := WritePass(p, n, mem, log);
    if w.outcome.Raised? then w else Scan(faults, p, n, w.mem, w.log)
  }

  /** `checkerboard_test(n, step)`: the write pass of the checkerboard, then its verify pass. */
  function Checkerboard(faults: Faults, n: nat, step: int, mem: seq<int>, log: seq<Command>): TestRun
    requires IsMemory(mem) && ValidFaults(faults)
  {
    WriteVerify(faults, Board(step), n, mem, log)
  }

  /** `sequence_test(n, datum)`: `datum` written to every address, then read back. */
  function Sequence(faults: Faults, n: nat, datum: int, mem: seq<int>, log: seq<Command>): TestRun
    requires IsMemory(mem) && ValidFaults(faults)
  {
    WriteVerify(faults, Fill(datum), n, mem, log)
  }

  // ---------------------------------------------------------------------
  // Write passes

  /** Every value a pattern stores in the first `k` addresses passes the value check. */
  predicate Storable(p: Pattern, k: nat)
  {
    forall a :: 0 <= a < k ==> ValidValue(PatternValue(p, a))
  }

  /** The writes of pattern `p` to addresses `0..k-1`, in ascending order. */
  function Writes(p: Pattern, k: nat): (cmds: seq<Command>)
    ensures |cmds| == k
  {
    if k == 0 then [] else Writes(p, k - 1) + [WriteByte(k - 1, PatternValue(p, k - 1))]
  }

  lemma {:induction false} WritesAt(p: Pattern, k: nat, a: nat)
    requires a < k
    ensures Writes(p, k)[a] == WriteByte(a, PatternValue(p, a))
  {
    if a < k - 1 {
      WritesAt(p, k - 1, a);
    }
  }

  /**
   * A write pass over valid addresses with storable values completes: cell
   * `a` then holds the pattern's byte for `a` below `k` and is untouched
   * from `k` on, and one write per address was sent, in ascending order.
   */
  lemma {:induction false} WritePassStores(p: Pattern, k: nat, mem: seq<int>, log: seq<Command>)
    requires IsMemory(mem) && k <= MemorySize && Storable(p, k)
    ensures var r := WritePass(p, k, mem, log);
            && r.outcome == Pass
            && (forall a :: 0 <= a < MemorySize ==> r.mem[a] == if a < k then PatternValue(p, a) else mem[a])
            && r.log == log + Writes(p, k)
  {
    if k > 0 {
      WritePassStores(p, k - 1, mem, log);
      assert ValidValue(PatternValue(p, k - 1));
    }
  }

  /**
   * A write pass asked to go past the last address writes every address
   * and then raises the address error, sending nothing for it.
   */
  lemma WritePassOverruns(p: Pattern, k: nat, mem: seq<int>, log: seq<Command>)
    requires IsMemory(mem) && k > MemorySize && Storable(p, MemorySize)
    ensures var r := WritePass(p, k, mem, log);
            && r.outcome == Raised(AddressRange)
            && r.mem == WritePass(p, MemorySize, mem, log).mem
            && r.log == log + Writes(p, MemorySize)
  {
    WritePassStores(p, MemorySize, mem, log);
    WritePassStop(p, MemorySize + 1, k, mem, log);
  }

  /** A sequence test whose datum is not a byte raises at its first write and sends nothing. */
  lemma {:induction false} WritePassRejects(datum: int, k: nat, mem: seq<int>, log: seq<Command>)
    requires IsMemory(mem) && k > 0 && !ValidValue(datum)
    ensures WritePass(Fill(datum), k, mem, log) == TestRun(Raised(ValueRange), mem, log)
  {
    WritePassStop(Fill(datum), 1, k, mem, log);
  }

  /** Once a write raises, the pass is over: later addresses add nothing. */
  lemma {:induction false} WritePassStop(p: Pattern, j: nat, k: nat, mem: seq<int>, log: seq<Command>)
    requires IsMemory(mem) && j <= k
    requires WritePass(p, j, mem, log).outcome.Raised?
    ensures WritePass(p, k, mem, log) == WritePass(p, j, mem, log)
    decreases k
  {
    if j < k {
      WritePassStop(p, j, k - 1, mem, log);
    }
  }

  // ---------------------------------------------------------------------
  // Verify passes

  /** Every address below `k` passes its check; written as a recursion over the addresses. */
  predicate AllPass(faults: Faults, p: Pattern, mem: seq<int>, k: nat)
    requires IsMemory(mem) && k <= MemorySize
  {
    k == 0 || (AllPass(faults, p, mem, k - 1) && Check(faults, p, mem, k - 1) == Pass)
  }

  /** `AllPass` says what its name says. */
  lemma {:induction false} AllPassEvery(faults: Faults, p: Pattern, mem: seq<int>, k: nat)
    requires IsMemory(mem) && k <= MemorySize
    ensures AllPass(faults, p, mem, k) <==> forall a :: 0 <= a < k ==> Check(faults, p, mem, a) == Pass
  {
    if k > 0 {
      AllPassEvery(faults, p, mem, k - 1);
    }
  }

  /** The reads of addresses `0..k-1`, in ascending order. */
  function Reads(k: nat): (cmds: seq<Command>)
    ensures |cmds| == k
  {
    if k == 0 then [] else Reads(k - 1) + [ReadByte(k - 1)]
  }

  lemma {:induction false} ReadsAt(k: nat, a: nat)
    requires a < k
    ensures Reads(k)[a] == ReadByte(a)
  {
    if a < k - 1 {
      ReadsAt(k - 1, a);
    }
  }

  /**
   * A verify pass that passes has checked every address below `k` and read
   * each of them once, in ascending order.
   */
  lemma {:induction false} ScanPasses(faults: Faults, p: Pattern, k: nat, mem: seq<int>, log: seq<Command>)
    requires IsMemory(mem) && ValidFaults(faults) && k <= MemorySize
    ensures var r := Scan(faults, p, k, mem, log);
            && (r.outcome == Pass <==> AllPass(faults, p, mem, k))
            && (r.outcome == Pass ==> r.log == log + Reads(k))
  {
    if k > 0 {
      ScanPasses(faults, p, k - 1, mem, log);
    }
  }

  /**
   * A verify pass is fail-fast: when it fails at address `i`, `i` is below
   * `k`, the check at `i` is the failure reported, every address below `i`
   * passed, and exactly the addresses `0..i` were read, in ascending order.
   */
  lemma {:induction false} ScanFails(faults: Faults, p: Pattern, k: nat, mem: seq<int>, log: seq<Command>)
    requires IsMemory(mem) && ValidFaults(faults) && k <= MemorySize
    requires Scan(faults, p, k, mem, log).outcome.Fail?
    ensures var r := Scan(faults, p, k, mem, log);
            var i := r.outcome.address;
            && 0 <= i < k
            && r.outcome == Check(faults, p, mem, i)
            && AllPass(faults, p, mem, i)
            && r.log == log + Reads(i + 1)
  {
    var prev := Scan(faults, p, k - 1, mem, log);
    var r := Scan(faults, p, k, mem, log);
    if prev.outcome.Fail? {
      assert r == prev;
      ScanFails(faults, p, k - 1, mem, log);
    } else {
      var x := ReadByte(k - 1);
      assert r == TestRun(Check(faults, p, mem, k - 1), mem, prev.log + [x]);
      assert r.outcome.address == k - 1;
      ScanPasses(faults, p, k - 1, mem, log);
      assert Reads(k) == Reads(k - 1) + [x];
    }
  }

  /** Once a check fails, the verify pass is over: later addresses add nothing. */
  lemma {:induction false} ScanStop(faults: Faults, p: Pattern, j: nat, k: nat, mem: seq<int>, log: seq<Command>)
    requires IsMemory(mem) && ValidFaults(faults) && j <= k <= MemorySize
    requires Scan(faults, p, j, mem, log).outcome.Fail?
    ensures Scan(faults, p, k, mem, log) == Scan(faults, p, j, mem, log)
    decreases k
  {
    if j < k {
      ScanStop(faults, p, j, k - 1, mem, log);
    }
  }

  // ---------------------------------------------------------------------
  // Write, then verify

  /** Address `a` does not read back the byte pattern `p` stores there. */
  predicate Mismatch(faults: Faults, p: Pattern, a: int)
    requires IsByte(PatternValue(p, a))
  {
    Verdict(p, a, Observe(faults, a, PatternValue(p, a))).Fail?
  }

  /**
   * A write-then-verify run over valid addresses with storable values:
   * cell `a` holds the pattern's byte for `a` below `n` and is untouched
   * from `n` on; the run fails at address `i` exactly when `i` is the first
   * address below `n` that does not read back its byte, and reports the
   * verdict of that read; otherwise it passes.
   */
  lemma WriteVerifyFailsAt(faults: Faults, p: Pattern, n: nat, mem: seq<int>, log: seq<Command>, i: int)
    requires IsMemory(mem) && ValidFaults(faults) && n <= MemorySize && Storable(p, n)
    ensures var r := WriteVerify(faults, p, n, mem, log);
            && (forall a :: 0 <= a < MemorySize ==> r.mem[a] == if a < n then PatternValue(p, a) else mem[a])
            && (r.outcome == Pass || r.outcome.Fail?)
            && (r.outcome.Fail? ==>
                  0 <= r.outcome.address < n &&
                  r.outcome == Verdict(p, r.outcome.address, Observe(faults, r.outcome.address, PatternValue(p, r.outcome.address))))
            && (r.outcome.Fail? && r.outcome.address == i
                <==>
                0 <= i < n && Mismatch(faults, p, i) && forall a :: 0 <= a < i ==> !Mismatch(faults, p, a))
  {
    var w := WritePass(p, n, mem, log);
    WritePassStores(p, n, mem, log);
    var r := Scan(faults, p, n, w.mem, w.log);
    ScanPasses(faults, p, n, w.mem, w.log);
    AllPassEvery(faults, p, w.mem, n);
    forall a | 0 <= a < n
      ensures Check(faults, p, w.mem, a).Fail? <==> Mismatch(faults, p, a)
    {
      assert w.mem[a] == PatternValue(p, a);
    }
    if r.outcome.Fail? {
      ScanFails(faults, p, n, w.mem, w.log);
      AllPassEvery(faults, p, w.mem, r.outcome.address);
      assert w.mem[r.outcome.address] == PatternValue(p, r.outcome.address);
    }
    if 0 <= i < n {
      AllPassEvery(faults, p, w.mem, i);
    }
  }

  /**
   * A write-then-verify run that passes sent one write per address, in
   * ascending order, then one read per address, in ascending order.
   */
  lemma WriteVerifyPassLog(faults: Faults, p: Pattern, n: nat, mem: seq<int>, log: seq<Command>)
    requires IsMemory(mem) && ValidFaults(faults) && n <= MemorySize && Storable(p, n)
    requires WriteVerify(faults, p, n, mem, log).outcome == Pass
    ensures WriteVerify(faults, p, n, mem, log).log == log + Writes(p, n) + Reads(n)
  {
    var w := WritePass(p, n, mem, log);
    WritePassStores(p, n, mem, log);
    var r := Scan(faults, p, n, w.mem, w.log);
    assert WriteVerify(faults, p, n, mem, log) == r;
    ScanPasses(faults, p, n, w.mem, w.log);
    assert r.log == w.log + Reads(n);
    assert w.log == log + Writes(p, n);
  }

  /**
   * A write-then-verify run that fails at address `i` sent one write per
   * address, in ascending order, then the reads of addresses `0..i`.
   */
  lemma WriteVerifyFailLog(faults: Faults, p: Pattern, n: nat, mem: seq<int>, log: seq<Command>)
    requires IsMemory(mem) && ValidFaults(faults) && n <= MemorySize && Storable(p, n)
    requires WriteVerify(faults, p, n, mem, log).outcome.Fail?
    ensures var r := WriteVerify(faults, p, n, mem, log);
            0 <= r.outcome.address < n && r.log == log + Writes(p, n) + Reads(r.outcome.address + 1)
  {
    var w := WritePass(p, n, mem, log);
    WritePassStores(p, n, mem, log);
    var r := Scan(faults, p, n, w.mem, w.log);
    assert WriteVerify(faults, p, n, mem, log) == r;
    ScanFails(faults, p, n, w.mem, w.log);
    var tail := Reads(r.outcome.address + 1);
    assert r.log == w.log + tail;
    assert w.log == log + Writes(p, n);
  }

  // ---------------------------------------------------------------------
  // The two tests

  /** No cell below `n` is named by the fault map. */
  predicate FaultFree(faults: Faults, n: nat)
  {
    forall a :: 0 <= a < n ==> a !in faults
  }

  /**
   * The checkerboard's write pass stores 0xAA where the address parity
   * matches the step (even for step 1, odd for step 2) and 0x55 elsewhere;
   * a step other than 1 or 2 stores 0x55 everywhere. Neighbouring cells of
   * steps 1 and 2 differ, and the two steps are each other's complement.
   */
  lemma CheckerboardValues(step: int, a: nat)
    ensures PatternValue(Board(step), a) == 0xAA <==> (a % 2 == 0 && step == 1) || (a % 2 == 1 && step == 2)
    ensures PatternValue(Board(step), a) != 0xAA ==> PatternValue(Board(step), a) == 0x55
    ensures step != 1 && step != 2 ==> PatternValue(Board(step), a) == 0x55
    ensures step == 1 || step == 2 ==> PatternValue(Board(step), a) != PatternValue(Board(step), a + 1)
    ensures PatternValue(Board(1), a) + PatternValue(Board(2), a) == 0xFF
  {
  }

  /** Every checkerboard byte is a byte. */
  lemma BoardStorable(step: int, k: nat)
    ensures Storable(Board(step), k)
  {
    forall a | 0 <= a < k
      ensures ValidValue(PatternValue(Board(step), a))
    {
    }
  }

  /**
   * `checkerboard_test` fails at address `i` exactly when the step is 1 or
   * 2, `i` is below `n`, and `i` is the first address whose cell does not
   * read back the byte the write pass stored there; part 1 is reported for
   * step 1 and part 2 for step 2. Asked to go past the last address, it
   * raises the address error instead.
   */
  lemma CheckerboardFailsAt(faults: Faults, n: nat, step: int, mem: seq<int>, log: seq<Command>, i: int)
    requires IsMemory(mem) && ValidFaults(faults)
    ensures var r := Checkerboard(faults, n, step, mem, log);
            && (n > MemorySize ==> r.outcome == Raised(AddressRange))
            && (n <= MemorySize ==>
                  && (r.outcome.Fail? ==> r.outcome.phase == if step == 1 then CheckerboardPart1 else CheckerboardPart2)
                  && (r.outcome.Fail? && r.outcome.address == i
                      <==>
                      && (step == 1 || step == 2)
                      && 0 <= i < n
                      && Observe(faults, i, PatternValue(Board(step), i)) != PatternValue(Board(step), i)
                      && forall a :: 0 <= a < i ==> Observe(faults, a, PatternValue(Board(step), a)) == PatternValue(Board(step), a)))
  {
    BoardStorable(step, n);
    if n > MemorySize {
      BoardStorable(step, MemorySize);
      WritePassOverruns(Board(step), n, mem, log);
    } else {
      WriteVerifyFailsAt(faults, Board(step), n, mem, log, i);
      forall a: int
        ensures Mismatch(faults, Board(step), a) <==>
                  (step == 1 || step == 2) && Observe(faults, a, PatternValue(Board(step), a)) != PatternValue(Board(step), a)
      {
      }
    }
  }

  /** On memory whose first `n` cells are fault-free, the checkerboard test passes for every step. */
  lemma CheckerboardFaultFree(faults: Faults, n: nat, step: int, mem: seq<int>, log: seq<Command>)
    requires IsMemory(mem) && ValidFaults(faults) && n <= MemorySize && FaultFree(faults, n)
    ensures Checkerboard(faults, n, step, mem, log).outcome == Pass
  {
    var r := Checkerboard(faults, n, step, mem, log);
    if r.outcome.Fail? {
      CheckerboardFailsAt(faults, n, step, mem, log, r.outcome.address);
      assert false;
    }
    BoardStorable(step, n);
    WriteVerifyFailsAt(faults, Board(step), n, mem, log, 0);
  }

  /** A checkerboard of any step other than 1 or 2 never reports a failure, whatever the faults. */
  lemma CheckerboardOtherStep(faults: Faults, n: nat, step: int, mem: seq<int>, log: seq<Command>)
    requires IsMemory(mem) && ValidFaults(faults) && n <= MemorySize && step != 1 && step != 2
    ensures Checkerboard(faults, n, step, mem, log).outcome == Pass
  {
    var r := Checkerboard(faults, n, step, mem, log);
    if r.outcome.Fail? {
      CheckerboardFailsAt(faults, n, step, mem, log, r.outcome.address);
      assert false;
    }
    BoardStorable(step, n);
    WriteVerifyFailsAt(faults, Board(step), n, mem, log, 0);
  }

  /**
   * `sequence_test` with a byte datum leaves `datum` in every cell below
   * `n`, and fails at address `i` exactly when `i` is the first address
   * below `n` whose cell does not read back `datum`. A datum that is not a
   * byte raises the value error before anything is sent.
   */
  lemma SequenceFailsAt(faults: Faults, n: nat, datum: int, mem: seq<int>, log: seq<Command>, i: int)
    requires IsMemory(mem) && ValidFaults(faults) && n <= MemorySize
    ensures var r := Sequence(faults, n, datum, mem, log);
            && (!ValidValue(datum) && n > 0 ==> r == TestRun(Raised(ValueRange), mem, log))
            && (ValidValue(datum) ==>
                  && (forall a :: 0 <= a < n ==> r.mem[a] == datum)
                  && (r.outcome.Fail? ==> r.outcome.phase == SequenceVerify)
                  && (r.outcome.Fail? && r.outcome.address == i
                      <==>
                      && 0 <= i < n
                      && Observe(faults, i, datum) != datum
                      && forall a :: 0 <= a < i ==> Observe(faults, a, datum) == datum))
  {
    if !ValidValue(datum) {
      if n > 0 {
        WritePassRejects(datum, n, mem, log);
      }
    } else {
      WriteVerifyFailsAt(faults, Fill(datum), n, mem, log, i);
      forall a: int
        ensures Mismatch(faults, Fill(datum), a) <==> Observe(faults, a, datum) != datum
      {
      }
    }
  }

  /** On memory whose first `n` cells are fault-free, the sequence test passes for every byte datum. */
  lemma SequenceFaultFree(faults: Faults, n: nat, datum: int, mem: seq<int>, log: seq<Command>)
    requires IsMemory(mem) && ValidFaults(faults) && n <= MemorySize && FaultFree(faults, n) && ValidValue(datum)
    ensures Sequence(faults, n, datum, mem, log).outcome == Pass
  {
    var r := Sequence(faults, n, datum, mem, log);
    if r.outcome.Fail? {
      SequenceFailsAt(faults, n, datum, mem, log, r.outcome.address);
      assert false;
    }
    WriteVerifyFailsAt(faults, Fill(datum), n, mem, log, 0);
  }
}
