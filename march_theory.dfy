/**
 * What March A finds under the stuck-at fault model. A read-modify-write
 * touches one lane of what a read returns, so an element leaves every lane
 * it visits reading as its last write drives it. An element faults exactly
 * when the byte it first reads is not all zeros (elements that expect 0) or
 * all ones (elements that expect 1). Put together over the phases: March A
 * fails in M1 at the first address that does not read back 0x00, else in M2
 * at the first address that does not read back 0xFF, and otherwise passes;
 * M3 and M4 repeat the checks of M2 and M1 and never fail.
 */
module MarchTheory {
  import opened Bitwise
  import opened Protocol
  import opened Sram
  import opened Passes
  import opened MarchSpec

  // ---------------------------------------------------------------------
  // Lanes

  /** The value a write of `b` drives into its lane: 1 sets it, anything else clears it. */
  function LaneValue(b: nat): (l: nat)
    ensures l == 0 || l == 1
  {
    if b == 1 then 1 else 0
  }

  /** The byte whose eight lanes all hold `b`. */
  function Solid(b: nat): (v: nat)
    ensures IsByte(v)
  {
    if b == 1 then 0xFF else 0x00
  }

  lemma BitOfSolid(b: nat, j: nat)
    requires j < DataBits
    ensures Bit(Solid(b), j) == LaneValue(b)
  {
    if b == 1 {
      Pow2Widths();
      OnesBit(8, j);
    } else {
      BitOfZero(j);
    }
  }

  /** A byte is solid `b` exactly when each of its lanes holds `b`. */
  lemma SolidByLanes(v: nat, b: nat)
    requires IsByte(v) && (b == 0 || b == 1)
    ensures v == Solid(b) <==> forall j :: 0 <= j < DataBits ==> Bit(v, j) == b
  {
    if forall j :: 0 <= j < DataBits ==> Bit(v, j) == b {
      if b == 1 {
        AllLanesSet(v);
      } else {
        AllLanesClear(v);
      }
    }
    if v == Solid(b) {
      forall j | 0 <= j < DataBits
        ensures Bit(v, j) == b
      {
        BitOfSolid(b, j);
      }
    }
  }

  /** Lane `j` of what a read of `address` returns. */
  function SeenLane(faults: Faults, address: int, mem: seq<int>, j: nat): nat
    requires Cell(faults, address, mem)
  {
    Bit(Observe(faults, address, mem[address]), j)
  }

  /** The byte a read-modify-write stores is the byte read with only the driven lane replaced. */
  lemma DriveBits(faults: Faults, address: int, mem: seq<int>, lane: nat, b: nat, j: nat)
    requires Cell(faults, address, mem) && lane < DataBits
    ensures Bit(Drive(faults, address, mem, lane, b), j) ==
              if j == lane then LaneValue(b) else SeenLane(faults, address, mem, j)
  {
    var seen := Observe(faults, address, mem[address]);
    BitOfPow2(lane, j);
    if b == 1 {
      BitOfOr(seen, Pow2(lane), j);
    } else {
      BitOfAndNot(seen, Pow2(lane), j);
    }
  }

  /**
   * After a read-modify-write of one lane, the driven lane reads as the
   * fault lets the driven value through, and every other lane reads as
   * before: a lane that was read through a fault reads the same once stored.
   */
  lemma DriveSeen(faults: Faults, address: int, mem: seq<int>, lane: nat, b: nat, j: nat)
    requires Cell(faults, address, mem) && lane < DataBits
    ensures var v := Drive(faults, address, mem, lane, b);
            SeenLane(faults, address, mem[address := v], j) ==
              if j == lane then LaneSeen(faults, address, lane, LaneValue(b)) else SeenLane(faults, address, mem, j)
  {
    var v := Drive(faults, address, mem, lane, b);
    ObserveLane(faults, address, v, j);
    DriveBits(faults, address, mem, lane, b, j);
    ObserveLane(faults, address, mem[address], j);
  }

  /** Whether the last of some writes sets its lane. */
  function Last(writes: seq<nat>): nat
    requires |writes| > 0
  {
    LaneValue(writes[|writes| - 1])
  }

  /**
   * The writes of one lane change only the cell at `address`; afterwards
   * the lane reads as the last write drives it through the fault, and
   * every other lane reads as before.
   */
  lemma {:induction false} RmwSeen(faults: Faults, address: int, lane: nat, writes: seq<nat>, mem: seq<int>, log: seq<Command>)
    requires Cell(faults, address, mem) && lane < DataBits && |writes| > 0
    ensures var r := Rmw(faults, address, lane, writes, mem, log);
            && r.mem == mem[address := r.mem[address]]
            && forall j: nat :: SeenLane(faults, address, r.mem, j) ==
                 if j == lane then LaneSeen(faults, address, lane, Last(writes)) else SeenLane(faults, address, mem, j)
    decreases |writes|
  {
    var v := Drive(faults, address, mem, lane, writes[0]);
    var m1 := mem[address := v];
    var log1 := log + [ReadByte(address), WriteByte(address, v)];
    var r := Rmw(faults, address, lane, writes, mem, log);
    assert r == Rmw(faults, address, lane, writes[1..], m1, log1);
    forall j: nat
      ensures SeenLane(faults, address, m1, j) ==
                if j == lane then LaneSeen(faults, address, lane, LaneValue(writes[0])) else SeenLane(faults, address, mem, j)
    {
      DriveSeen(faults, address, mem, lane, writes[0], j);
    }
    if |writes| == 1 {
      assert writes[1..] == [];
    } else {
      RmwSeen(faults, address, lane, writes[1..], m1, log1);
      assert Last(writes[1..]) == Last(writes);
      forall j: nat
        ensures SeenLane(faults, address, r.mem, j) ==
                  if j == lane then LaneSeen(faults, address, lane, Last(writes)) else SeenLane(faults, address, mem, j)
      {
        if j == lane {
          assert SeenLane(faults, address, r.mem, j) == LaneSeen(faults, address, lane, Last(writes[1..]));
        }
      }
    }
  }

  // ---------------------------------------------------------------------
  // One element on one address

  /** An element as the test has them: it expects 0 or 1, and writes at least once. */
  predicate Proper(e: Element)
  {
    (e.want == 0 || e.want == 1) && |e.writes| > 0
  }

  /** The lanes an element has visited after its first `k` steps. */
  predicate Visited(e: Element, k: nat, j: nat)
  {
    match e.order
    case Up => j < k
    case Down => DataBits - k <= j
  }

  /**
   * One more lane of an element that has not faulted: it faults exactly
   * when the lane reads wrong, and otherwise only that lane's reading
   * changes, to what the last write drives through the fault.
   */
  lemma LanesStep(faults: Faults, address: int, e: Element, k: nat, mem: seq<int>, log: seq<Command>)
    requires Cell(faults, address, mem) && 0 < k <= DataBits && Proper(e)
    requires !Lanes(faults, address, e, k - 1, mem, log).fault
    ensures var prev := Lanes(faults, address, e, k - 1, mem, log);
            var r := Lanes(faults, address, e, k, mem, log);
            var lane := Lane(e, k - 1);
            && (r.fault <==> SeenLane(faults, address, prev.mem, lane) != e.want)
            && (!r.fault ==>
                  && r.mem == prev.mem[address := r.mem[address]]
                  && forall j: nat :: SeenLane(faults, address, r.mem, j) ==
                       if j == lane then LaneSeen(faults, address, lane, Last(e.writes)) else SeenLane(faults, address, prev.mem, j))
  {
    var prev := Lanes(faults, address, e, k - 1, mem, log);
    var lane := Lane(e, k - 1);
    var checked := prev.log + [ReadByte(address)];
    LanesNext(faults, address, e, k - 1, mem, log);
    if SeenLane(faults, address, prev.mem, lane) == e.want {
      RmwSeen(faults, address, lane, e.writes, prev.mem, checked);
    }
  }

  /** The first `k` lanes an element visits all read as it expects; a recursion over the steps. */
  predicate LanesGood(faults: Faults, address: int, e: Element, mem: seq<int>, k: nat)
    requires Cell(faults, address, mem) && k <= DataBits
  {
    k == 0 || (LanesGood(faults, address, e, mem, k - 1) && SeenLane(faults, address, mem, Lane(e, k - 1)) == e.want)
  }

  /** `LanesGood` says what its name says. */
  lemma {:induction false} LanesGoodEvery(faults: Faults, address: int, e: Element, mem: seq<int>, k: nat)
    requires Cell(faults, address, mem) && k <= DataBits
    ensures LanesGood(faults, address, e, mem, k) <==> forall q :: 0 <= q < k ==> SeenLane(faults, address, mem, Lane(e, q)) == e.want
  {
    if k > 0 {
      LanesGoodEvery(faults, address, e, mem, k - 1);
    }
  }

  /**
   * While the first `k` lanes of an element have not faulted, only the
   * cell at `address` has changed, the visited lanes read as the last
   * write drives them through the fault, and the others read as at the start.
   */
  lemma {:induction false} LanesView(faults: Faults, address: int, e: Element, k: nat, mem: seq<int>, log: seq<Command>)
    requires Cell(faults, address, mem) && k <= DataBits && Proper(e)
    requires !Lanes(faults, address, e, k, mem, log).fault
    ensures var r := Lanes(faults, address, e, k, mem, log);
            && r.mem == mem[address := r.mem[address]]
            && forall j: nat :: j < DataBits ==>
                 SeenLane(faults, address, r.mem, j) ==
                   if Visited(e, k, j) then LaneSeen(faults, address, j, Last(e.writes)) else SeenLane(faults, address, mem, j)
  {
    if k > 0 {
      var prev := Lanes(faults, address, e, k - 1, mem, log);
      assert !prev.fault;
      LanesView(faults, address, e, k - 1, mem, log);
      LanesStep(faults, address, e, k, mem, log);
    }
  }

  /** The first `k` lanes of an element fault exactly when one of them read wrong before the element touched it. */
  lemma {:induction false} LanesFault(faults: Faults, address: int, e: Element, k: nat, mem: seq<int>, log: seq<Command>)
    requires Cell(faults, address, mem) && k <= DataBits && Proper(e)
    ensures Lanes(faults, address, e, k, mem, log).fault <==> !LanesGood(faults, address, e, mem, k)
  {
    if k > 0 {
      LanesFault(faults, address, e, k - 1, mem, log);
      var prev := Lanes(faults, address, e, k - 1, mem, log);
      if prev.fault {
        assert Lanes(faults, address, e, k, mem, log) == prev;
      } else {
        var lane := Lane(e, k - 1);
        LanesView(faults, address, e, k - 1, mem, log);
        assert !Visited(e, k - 1, lane);
        assert SeenLane(faults, address, prev.mem, lane) == SeenLane(faults, address, mem, lane);
        LanesStep(faults, address, e, k, mem, log);
      }
    }
  }

  /** Every lane is visited by some step of an element. */
  lemma LaneOnto(e: Element, j: nat)
    requires j < DataBits
    ensures exists q :: 0 <= q < DataBits && Lane(e, q) == j
  {
    var q := if e.order == Up then j else DataBits - 1 - j;
    assert Lane(e, q) == j;
  }

  /**
   * A whole element on one address faults exactly when the byte it first
   * reads is not solid in the lane value it expects. When it does not
   * fault, it changes only the cell at `address`, and that cell then reads
   * as a solid byte of its last write would.
   */
  lemma ElementRun(faults: Faults, address: int, e: Element, mem: seq<int>, log: seq<Command>)
    requires Cell(faults, address, mem) && Proper(e)
    ensures var r := RunElement(faults, address, e, mem, log);
            && (r.fault <==> Observe(faults, address, mem[address]) != Solid(e.want))
            && (!r.fault ==>
                  && r.mem == mem[address := r.mem[address]]
                  && Observe(faults, address, r.mem[address]) == Observe(faults, address, Solid(Last(e.writes))))
  {
    var r := RunElement(faults, address, e, mem, log);
    LanesFault(faults, address, e, DataBits, mem, log);
    LanesGoodEvery(faults, address, e, mem, DataBits);
    var seen := Observe(faults, address, mem[address]);
    SolidByLanes(seen, e.want);
    if r.fault {
      var q :| 0 <= q < DataBits && SeenLane(faults, address, mem, Lane(e, q)) != e.want;
      assert Bit(seen, Lane(e, q)) != e.want;
    } else {
      LanesView(faults, address, e, DataBits, mem, log);
      forall j | 0 <= j < DataBits
        ensures Bit(seen, j) == e.want
      {
        LaneOnto(e, j);
      }
      var after, settled := Observe(faults, address, r.mem[address]), Observe(faults, address, Solid(Last(e.writes)));
      forall j | 0 <= j < DataBits
        ensures Bit(after, j) == Bit(settled, j)
      {
        assert Visited(e, DataBits, j);
        ObserveLane(faults, address, Solid(Last(e.writes)), j);
        BitOfSolid(Last(e.writes), j);
      }
      Pow2Widths();
      BitsDetermine(after, settled, DataBits);
    }
  }

  /**
   * On a fault-free cell an element faults exactly when the cell does not
   * hold the solid byte it expects, and otherwise leaves the solid byte of
   * its last write there and every other cell as it was.
   */
  lemma ElementFaultFree(faults: Faults, address: int, e: Element, mem: seq<int>, log: seq<Command>)
    requires Cell(faults, address, mem) && Proper(e) && address !in faults
    ensures var r := RunElement(faults, address, e, mem, log);
            && (r.fault <==> mem[address] != Solid(e.want))
            && (!r.fault ==> r.mem == mem[address := Solid(Last(e.writes))])
  {
    ElementRun(faults, address, e, mem, log);
  }

  /**
   * What each primitive does to a fault-free cell: M1 takes 0x00 to 0xFF,
   * M2 keeps 0xFF, M3 takes 0xFF to 0x00 and M4 keeps 0x00, none of them
   * reporting a fault or touching another cell.
   */
  lemma PrimitivesFaultFree(faults: Faults, address: int, mem: seq<int>, log: seq<Command>)
    requires Cell(faults, address, mem) && address !in faults
    ensures mem[address] == 0x00 ==>
              RunElement(faults, address, M1, mem, log).mem == mem[address := 0xFF] &&
              !RunElement(faults, address, M1, mem, log).fault
    ensures mem[address] == 0xFF ==>
              RunElement(faults, address, M2, mem, log).mem == mem &&
              !RunElement(faults, address, M2, mem, log).fault
    ensures mem[address] == 0xFF ==>
              RunElement(faults, address, M3, mem, log).mem == mem[address := 0x00] &&
              !RunElement(faults, address, M3, mem, log).fault
    ensures mem[address] == 0x00 ==>
              RunElement(faults, address, M4, mem, log).mem == mem &&
              !RunElement(faults, address, M4, mem, log).fault
  {
    Elements();
    ElementFaultFree(faults, address, M1, mem, log);
    ElementFaultFree(faults, address, M2, mem, log);
    ElementFaultFree(faults, address, M3, mem, log);
    ElementFaultFree(faults, address, M4, mem, log);
  }

  // ---------------------------------------------------------------------
  // One phase over the addresses

  /** Address `a` reads back the solid byte element `e` expects. */
  predicate Good(faults: Faults, e: Element, mem: seq<int>, a: int)
    requires IsMemory(mem) && 0 <= a < MemorySize
  {
    Observe(faults, a, mem[a]) == Solid(e.want)
  }

  /** The addresses a phase over `n` addresses has visited after `k` steps. */
  predicate Swept(order: Order, n: nat, k: nat, a: int)
  {
    match order
    case Up => 0 <= a < k
    case Down => n - k <= a < n
  }

  /** Cell `a` reads as a solid byte of `b` would. */
  predicate ReadsAs(faults: Faults, mem: seq<int>, a: int, b: nat)
    requires IsMemory(mem) && 0 <= a < MemorySize
  {
    Observe(faults, a, mem[a]) == Observe(faults, a, Solid(b))
  }

  /**
   * One more step of a phase that has passed so far: it passes exactly when
   * the address it visits reads back what the element expects, and then it
   * changes only that cell, which reads as a solid byte of the last write.
   */
  lemma SweepStep(faults: Faults, e: Element, phase: Phase, order: Order, n: nat, k: nat, mem: seq<int>, log: seq<Command>)
    requires ValidFaults(faults) && IsMemory(mem) && 0 < k <= n <= MemorySize && Proper(e)
    requires Sweep(faults, e, phase, order, n, k - 1, mem, log).outcome == Pass
    ensures var prev := Sweep(faults, e, phase, order, n, k - 1, mem, log);
            var r := Sweep(faults, e, phase, order, n, k, mem, log);
            var a := Visit(order, n, k - 1);
            && r.outcome == (if Good(faults, e, prev.mem, a) then Pass else Fail(phase, a))
            && (r.outcome == Pass ==> r.mem == prev.mem[a := r.mem[a]] && ReadsAs(faults, r.mem, a, Last(e.writes)))
  {
    var prev := Sweep(faults, e, phase, order, n, k - 1, mem, log);
    var a := Visit(order, n, k - 1);
    var run := RunElement(faults, a, e, prev.mem, prev.log);
    assert Sweep(faults, e, phase, order, n, k, mem, log) == TestRun(if run.fault then Fail(phase, a) else Pass, run.mem, run.log);
    ElementRun(faults, a, e, prev.mem, prev.log);
  }

  /**
   * A phase whose first `k` steps pass leaves each address they visited
   * reading as a solid byte of the element's last write, and every other
   * cell as it was.
   */
  lemma {:induction false} SweepCells(faults: Faults, e: Element, phase: Phase, order: Order, n: nat, k: nat, mem: seq<int>, log: seq<Command>)
    requires ValidFaults(faults) && IsMemory(mem) && k <= n <= MemorySize && Proper(e)
    requires Sweep(faults, e, phase, order, n, k, mem, log).outcome == Pass
    ensures var r := Sweep(faults, e, phase, order, n, k, mem, log);
            forall a :: 0 <= a < MemorySize ==>
              if Swept(order, n, k, a) then ReadsAs(faults, r.mem, a, Last(e.writes)) else r.mem[a] == mem[a]
  {
    if k > 0 {
      var prev := Sweep(faults, e, phase, order, n, k - 1, mem, log);
      var r := Sweep(faults, e, phase, order, n, k, mem, log);
      assert prev.outcome == Pass;
      SweepCells(faults, e, phase, order, n, k - 1, mem, log);
      SweepStep(faults, e, phase, order, n, k, mem, log);
      var a := Visit(order, n, k - 1);
      forall b | 0 <= b < MemorySize
        ensures if Swept(order, n, k, b) then ReadsAs(faults, r.mem, b, Last(e.writes)) else r.mem[b] == mem[b]
      {
        if b != a {
          assert r.mem[b] == prev.mem[b];
        }
      }
    }
  }

  /** A phase whose first `k` steps pass has not touched the addresses they did not visit. */
  lemma SweepKeeps(faults: Faults, e: Element, phase: Phase, order: Order, n: nat, k: nat, mem: seq<int>, log: seq<Command>, a: int)
    requires ValidFaults(faults) && IsMemory(mem) && k < n <= MemorySize && Proper(e)
    requires Sweep(faults, e, phase, order, n, k, mem, log).outcome == Pass
    requires a == Visit(order, n, k)
    ensures Sweep(faults, e, phase, order, n, k, mem, log).mem[a] == mem[a]
  {
    SweepCells(faults, e, phase, order, n, k, mem, log);
    assert !Swept(order, n, k, a);
  }

  /** The first `k` addresses a phase visits all read back what the element expects; a recursion over the steps. */
  predicate AllGood(faults: Faults, e: Element, mem: seq<int>, order: Order, n: nat, k: nat)
    requires IsMemory(mem) && k <= n <= MemorySize
  {
    k == 0 || (AllGood(faults, e, mem, order, n, k - 1) && Good(faults, e, mem, Visit(order, n, k - 1)))
  }

  /** `AllGood` says what its name says. */
  lemma {:induction false} AllGoodEvery(faults: Faults, e: Element, mem: seq<int>, order: Order, n: nat, k: nat)
    requires IsMemory(mem) && k <= n <= MemorySize
    ensures AllGood(faults, e, mem, order, n, k) <==> forall q :: 0 <= q < k ==> Good(faults, e, mem, Visit(order, n, q))
  {
    if k > 0 {
      AllGoodEvery(faults, e, mem, order, n, k - 1);
    }
  }

  /**
   * The first `k` steps of a phase pass exactly when every address they
   * visit reads back the solid byte the element expects.
   */
  lemma {:induction false} SweepOutcome(faults: Faults, e: Element, phase: Phase, order: Order, n: nat, k: nat, mem: seq<int>, log: seq<Command>)
    requires ValidFaults(faults) && IsMemory(mem) && k <= n <= MemorySize && Proper(e)
    ensures Sweep(faults, e, phase, order, n, k, mem, log).outcome == Pass <==> AllGood(faults, e, mem, order, n, k)
  {
    if k > 0 {
      SweepOutcome(faults, e, phase, order, n, k - 1, mem, log);
      var prev := Sweep(faults, e, phase, order, n, k - 1, mem, log);
      var r := Sweep(faults, e, phase, order, n, k, mem, log);
      if prev.outcome.Fail? {
        assert r == prev;
      } else {
        var a := Visit(order, n, k - 1);
        SweepKeeps(faults, e, phase, order, n, k - 1, mem, log, a);
        SweepStep(faults, e, phase, order, n, k, mem, log);
      }
    }
  }

  /** Once a phase fails, it is over: later steps add nothing. */
  lemma {:induction false} SweepStop(faults: Faults, e: Element, phase: Phase, order: Order, n: nat, j: nat, k: nat, mem: seq<int>, log: seq<Command>)
    requires ValidFaults(faults) && IsMemory(mem) && j <= k <= n <= MemorySize
    requires Sweep(faults, e, phase, order, n, j, mem, log).outcome.Fail?
    ensures Sweep(faults, e, phase, order, n, k, mem, log) == Sweep(faults, e, phase, order, n, j, mem, log)
    decreases k
  {
    if j < k {
      SweepStop(faults, e, phase, order, n, j, k - 1, mem, log);
    }
  }

  /**
   * A phase fails at the first address it visits that does not read back
   * the solid byte the element expects.
   */
  lemma SweepFailsAt(faults: Faults, e: Element, phase: Phase, order: Order, n: nat, q: nat, k: nat, mem: seq<int>, log: seq<Command>)
    requires ValidFaults(faults) && IsMemory(mem) && q < k <= n <= MemorySize && Proper(e)
    requires AllGood(faults, e, mem, order, n, q) && !Good(faults, e, mem, Visit(order, n, q))
    ensures Sweep(faults, e, phase, order, n, k, mem, log).outcome == Fail(phase, Visit(order, n, q))
  {
    SweepOutcome(faults, e, phase, order, n, q, mem, log);
    SweepKeeps(faults, e, phase, order, n, q, mem, log, Visit(order, n, q));
    SweepStep(faults, e, phase, order, n, q + 1, mem, log);
    SweepStop(faults, e, phase, order, n, q + 1, k, mem, log);
  }

  /** When not all of the first `k` addresses are good, there is a first bad one. */
  lemma {:induction false} FirstBad(faults: Faults, e: Element, mem: seq<int>, order: Order, n: nat, k: nat) returns (q: nat)
    requires IsMemory(mem) && k <= n <= MemorySize
    requires !AllGood(faults, e, mem, order, n, k)
    ensures q < k && AllGood(faults, e, mem, order, n, q) && !Good(faults, e, mem, Visit(order, n, q))
  {
    if AllGood(faults, e, mem, order, n, k - 1) {
      q := k - 1;
    } else {
      q := FirstBad(faults, e, mem, order, n, k - 1);
    }
  }

  // ---------------------------------------------------------------------
  // Phases of March A

  /** For an ascending phase, `AllGood` is about the addresses below `k`. */
  lemma AllGoodUp(faults: Faults, e: Element, mem: seq<int>, n: nat, k: nat)
    requires IsMemory(mem) && k <= n <= MemorySize
    ensures AllGood(faults, e, mem, Up, n, k) <==> forall a :: 0 <= a < k ==> Good(faults, e, mem, a)
  {
    AllGoodEvery(faults, e, mem, Up, n, k);
    if forall a :: 0 <= a < k ==> Good(faults, e, mem, a) {
      forall q | 0 <= q < k
        ensures Good(faults, e, mem, Visit(Up, n, q))
      {
        assert Visit(Up, n, q) == q;
      }
    } else {
      var a :| 0 <= a < k && !Good(faults, e, mem, a);
      assert Visit(Up, n, a) == a;
    }
  }

  /**
   * An ascending phase over the first `n` addresses passes exactly when
   * every one of them reads back the solid byte the element expects, and
   * fails at `i` exactly when `i` is the first that does not. A phase that
   * passes leaves those cells reading as a solid byte of its last write.
   */
  lemma UpPhase(faults: Faults, e: Element, phase: Phase, n: nat, mem: seq<int>, log: seq<Command>, i: int)
    requires ValidFaults(faults) && IsMemory(mem) && n <= MemorySize && Proper(e)
    ensures var r := Sweep(faults, e, phase, Up, n, n, mem, log);
            && (r.outcome == Pass <==> forall a :: 0 <= a < n ==> Good(faults, e, mem, a))
            && (r.outcome == Fail(phase, i) <==>
                  0 <= i < n && !Good(faults, e, mem, i) && forall a :: 0 <= a < i ==> Good(faults, e, mem, a))
            && (r.outcome == Pass ==>
                  forall a :: 0 <= a < MemorySize ==>
                    if a < n then ReadsAs(faults, r.mem, a, Last(e.writes)) else r.mem[a] == mem[a])
  {
    var r := Sweep(faults, e, phase, Up, n, n, mem, log);
    SweepOutcome(faults, e, phase, Up, n, n, mem, log);
    AllGoodUp(faults, e, mem, n, n);
    if r.outcome == Pass {
      SweepCells(faults, e, phase, Up, n, n, mem, log);
    } else {
      var q := FirstBad(faults, e, mem, Up, n, n);
      SweepFailsAt(faults, e, phase, Up, n, q, n, mem, log);
      AllGoodUp(faults, e, mem, n, q);
      assert Visit(Up, n, q) == q;
      if 0 <= i < n && !Good(faults, e, mem, i) && forall a :: 0 <= a < i ==> Good(faults, e, mem, a) {
        assert !(q < i) && !(i < q);
      }
    }
  }

  /**
   * A descending phase over the first `n` addresses, every one of which
   * reads back the solid byte the element expects, passes and leaves them
   * reading as a solid byte of its last write.
   */
  lemma DownPhase(faults: Faults, e: Element, phase: Phase, n: nat, mem: seq<int>, log: seq<Command>)
    requires ValidFaults(faults) && IsMemory(mem) && n <= MemorySize && Proper(e)
    requires forall a :: 0 <= a < n ==> Good(faults, e, mem, a)
    ensures var r := Sweep(faults, e, phase, Down, n, n, mem, log);
            && r.outcome == Pass
            && forall a :: 0 <= a < MemorySize ==>
                 if a < n then ReadsAs(faults, r.mem, a, Last(e.writes)) else r.mem[a] == mem[a]
  {
    SweepOutcome(faults, e, phase, Down, n, n, mem, log);
    AllGoodEvery(faults, e, mem, Down, n, n);
    SweepCells(faults, e, phase, Down, n, n, mem, log);
  }

  // ---------------------------------------------------------------------
  // March A

  /** Address `a` reads back 0x00 when 0x00 is stored. */
  predicate HoldsZero(faults: Faults, a: int)
  {
    Observe(faults, a, 0x00) == 0x00
  }

  /** Address `a` reads back 0xFF when 0xFF is stored. */
  predicate HoldsOne(faults: Faults, a: int)
  {
    Observe(faults, a, 0xFF) == 0xFF
  }

  /** What M0 leaves: 0x00 in the first `n` cells, the rest untouched. */
  lemma MarchM0(n: nat, mem: seq<int>, log: seq<Command>)
    requires IsMemory(mem) && n <= MemorySize
    ensures var m0 := WritePass(Fill(0), n, mem, log);
            && m0.outcome == Pass
            && forall a :: 0 <= a < MemorySize ==> m0.mem[a] == if a < n then 0 else mem[a]
  {
    assert Storable(Fill(0), n);
    WritePassStores(Fill(0), n, mem, log);
  }

  /** The four elements are well formed; M1 and M2 end on 1, M3 and M4 on 0. */
  lemma Elements()
    ensures Proper(M1) && Proper(M2) && Proper(M3) && Proper(M4)
    ensures Last(M1.writes) == 1 && Last(M2.writes) == 1 && Last(M3.writes) == 0 && Last(M4.writes) == 0
    ensures Solid(0) == 0x00 && Solid(1) == 0xFF
  {
  }

  /**
   * M1 after M0: it passes exactly when every tested address holds 0x00,
   * fails at the first that does not, and when it passes leaves every
   * tested cell reading as 0xFF would.
   */
  lemma MarchPhaseM1(faults: Faults, n: nat, mem: seq<int>, log: seq<Command>, i: int)
    requires ValidFaults(faults) && IsMemory(mem) && n <= MemorySize
    ensures var m0 := WritePass(Fill(0), n, mem, log);
            var m1 := Sweep(faults, M1, MarchM1, Up, n, n, m0.mem, m0.log);
            && m0.outcome == Pass
            && (m1.outcome == Pass <==> forall a :: 0 <= a < n ==> HoldsZero(faults, a))
            && (m1.outcome == Fail(MarchM1, i) <==>
                  0 <= i < n && !HoldsZero(faults, i) && forall a :: 0 <= a < i ==> HoldsZero(faults, a))
            && (m1.outcome == Pass ==>
                  forall a :: 0 <= a < MemorySize ==>
                    if a < n then Observe(faults, a, m1.mem[a]) == Observe(faults, a, 0xFF) else m1.mem[a] == mem[a])
  {
    var m0 := WritePass(Fill(0), n, mem, log);
    MarchM0(n, mem, log);
    Elements();
    assert forall a :: 0 <= a < n ==> (Good(faults, M1, m0.mem, a) <==> HoldsZero(faults, a));
    UpPhase(faults, M1, MarchM1, n, m0.mem, m0.log, i);
  }

  /**
   * M2 on cells that read as 0xFF would: it passes exactly when every tested
   * address holds 0xFF, fails at the first that does not, and when it passes
   * leaves every tested cell reading 0xFF.
   */
  lemma MarchPhaseM2(faults: Faults, n: nat, mem: seq<int>, log: seq<Command>, i: int)
    requires ValidFaults(faults) && IsMemory(mem) && n <= MemorySize
    requires forall a :: 0 <= a < n ==> Observe(faults, a, mem[a]) == Observe(faults, a, 0xFF)
    ensures var m2 := Sweep(faults, M2, MarchM2, Up, n, n, mem, log);
            && (m2.outcome == Pass <==> forall a :: 0 <= a < n ==> HoldsOne(faults, a))
            && (m2.outcome == Fail(MarchM2, i) <==>
                  0 <= i < n && !HoldsOne(faults, i) && forall a :: 0 <= a < i ==> HoldsOne(faults, a))
            && (m2.outcome == Pass ==>
                  forall a :: 0 <= a < MemorySize ==>
                    if a < n then Observe(faults, a, m2.mem[a]) == 0xFF else m2.mem[a] == mem[a])
  {
    Elements();
    assert forall a :: 0 <= a < n ==> (Good(faults, M2, mem, a) <==> HoldsOne(faults, a));
    UpPhase(faults, M2, MarchM2, n, mem, log, i);
    var m2 := Sweep(faults, M2, MarchM2, Up, n, n, mem, log);
    if m2.outcome == Pass {
      forall a | 0 <= a < n
        ensures Observe(faults, a, m2.mem[a]) == 0xFF
      {
        assert ReadsAs(faults, m2.mem, a, 1) && HoldsOne(faults, a);
      }
    }
  }

  /**
   * M3 on cells that read 0xFF: it passes and leaves every tested cell
   * reading as 0x00 would.
   */
  lemma MarchPhaseM3(faults: Faults, n: nat, mem: seq<int>, log: seq<Command>)
    requires ValidFaults(faults) && IsMemory(mem) && n <= MemorySize
    requires forall a :: 0 <= a < n ==> Observe(faults, a, mem[a]) == 0xFF
    ensures var m3 := Sweep(faults, M3, MarchM3, Down, n, n, mem, log);
            && m3.outcome == Pass
            && forall a :: 0 <= a < MemorySize ==>
                 if a < n then Observe(faults, a, m3.mem[a]) == Observe(faults, a, 0x00) else m3.mem[a] == mem[a]
  {
    Elements();
    assert forall a :: 0 <= a < n ==> Good(faults, M3, mem, a);
    DownPhase(faults, M3, MarchM3, n, mem, log);
  }

  /**
   * M4 on cells that read 0x00: it passes and leaves every tested cell
   * reading as 0x00 would.
   */
  lemma MarchPhaseM4(faults: Faults, n: nat, mem: seq<int>, log: seq<Command>)
    requires ValidFaults(faults) && IsMemory(mem) && n <= MemorySize
    requires forall a :: 0 <= a < n ==> Observe(faults, a, mem[a]) == 0x00
    ensures var m4 := Sweep(faults, M4, MarchM4, Down, n, n, mem, log);
            && m4.outcome == Pass
            && forall a :: 0 <= a < MemorySize ==>
                 if a < n then Observe(faults, a, m4.mem[a]) == Observe(faults, a, 0x00) else m4.mem[a] == mem[a]
  {
    Elements();
    assert forall a :: 0 <= a < n ==> Good(faults, M4, mem, a);
    DownPhase(faults, M4, MarchM4, n, mem, log);
  }

  /**
   * M3 and M4 on cells that read 0xFF, where every tested address holds
   * 0x00: both pass, and they leave every tested cell reading 0x00.
   */
  lemma MarchPhasesDown(faults: Faults, n: nat, mem: seq<int>, log: seq<Command>)
    requires ValidFaults(faults) && IsMemory(mem) && n <= MemorySize
    requires forall a :: 0 <= a < n ==> Observe(faults, a, mem[a]) == 0xFF && HoldsZero(faults, a)
    ensures var m3 := Sweep(faults, M3, MarchM3, Down, n, n, mem, log);
            var m4 := Sweep(faults, M4, MarchM4, Down, n, n, m3.mem, m3.log);
            && m3.outcome == Pass && m4.outcome == Pass
            && forall a :: 0 <= a < MemorySize ==>
                 if a < n then Observe(faults, a, m4.mem[a]) == 0x00 else m4.mem[a] == mem[a]
  {
    MarchPhaseM3(faults, n, mem, log);
    var m3 := Sweep(faults, M3, MarchM3, Down, n, n, mem, log);
    assert forall a :: 0 <= a < n ==> Observe(faults, a, m3.mem[a]) == 0x00 by {
      forall a | 0 <= a < n
        ensures Observe(faults, a, m3.mem[a]) == 0x00
      {
        assert HoldsZero(faults, a);
      }
    }
    MarchPhaseM4(faults, n, m3.mem, m3.log);
  }

  /**
   * March A over a memory it fits: it never raises and never fails in M3 or
   * M4; it passes exactly when every tested address holds both 0x00 and
   * 0xFF, and then leaves every tested cell reading 0x00 and every other
   * cell as it was.
   */
  lemma MarchAOutcome(faults: Faults, n: nat, mem: seq<int>, log: seq<Command>)
    requires ValidFaults(faults) && IsMemory(mem) && n <= MemorySize
    ensures var r := MarchA(faults, n, mem, log);
            && (r.outcome == Pass || (r.outcome.Fail? && (r.outcome.phase == MarchM1 || r.outcome.phase == MarchM2)))
            && (r.outcome == Pass <==> forall a :: 0 <= a < n ==> HoldsZero(faults, a) && HoldsOne(faults, a))
            && (r.outcome == Pass ==>
                  forall a :: 0 <= a < MemorySize ==>
                    if a < n then Observe(faults, a, r.mem[a]) == 0x00 else r.mem[a] == mem[a])
  {
    var m0 := WritePass(Fill(0), n, mem, log);
    var m1 := Sweep(faults, M1, MarchM1, Up, n, n, m0.mem, m0.log);
    MarchPhaseM1(faults, n, mem, log, 0);
    if m1.outcome == Pass {
      var m2 := Sweep(faults, M2, MarchM2, Up, n, n, m1.mem, m1.log);
      MarchPhaseM2(faults, n, m1.mem, m1.log, 0);
      if m2.outcome == Pass {
        MarchPhasesDown(faults, n, m2.mem, m2.log);
      }
    }
  }

  /**
   * Where March A fails: in M1 at the first tested address that does not
   * hold 0x00; and, when every tested address holds 0x00, in M2 at the first
   * that does not hold 0xFF.
   */
  lemma MarchAFailsAt(faults: Faults, n: nat, mem: seq<int>, log: seq<Command>, i: int)
    requires ValidFaults(faults) && IsMemory(mem) && n <= MemorySize
    ensures var r := MarchA(faults, n, mem, log);
            && (r.outcome == Fail(MarchM1, i) <==>
                  0 <= i < n && !HoldsZero(faults, i) && forall a :: 0 <= a < i ==> HoldsZero(faults, a))
            && (r.outcome == Fail(MarchM2, i) <==>
                  && (forall a :: 0 <= a < n ==> HoldsZero(faults, a))
                  && 0 <= i < n && !HoldsOne(faults, i) && forall a :: 0 <= a < i ==> HoldsOne(faults, a))
  {
    var m0 := WritePass(Fill(0), n, mem, log);
    var m1 := Sweep(faults, M1, MarchM1, Up, n, n, m0.mem, m0.log);
    MarchPhaseM1(faults, n, mem, log, i);
    if m1.outcome == Pass {
      var m2 := Sweep(faults, M2, MarchM2, Up, n, n, m1.mem, m1.log);
      MarchPhaseM2(faults, n, m1.mem, m1.log, i);
      if m2.outcome == Pass {
        MarchPhasesDown(faults, n, m2.mem, m2.log);
      }
    }
  }

  /**
   * March A over more addresses than the chip has: M0 writes all 65536
   * cells and then raises at the first address out of range; no element
   * runs.
   */
  lemma MarchATooLarge(faults: Faults, n: nat, mem: seq<int>, log: seq<Command>)
    requires ValidFaults(faults) && IsMemory(mem) && n > MemorySize
    ensures var r := MarchA(faults, n, mem, log);
            && r.outcome == Raised(AddressRange)
            && r.log == log + Writes(Fill(0), MemorySize)
  {
    assert Storable(Fill(0), MemorySize);
    WritePassOverruns(Fill(0), n, mem, log);
  }

  /** On a fault-free chip March A passes and leaves 0x00 in every tested cell. */
  lemma MarchAFaultFree(faults: Faults, n: nat, mem: seq<int>, log: seq<Command>)
    requires ValidFaults(faults) && IsMemory(mem) && n <= MemorySize && FaultFree(faults, n)
    ensures var r := MarchA(faults, n, mem, log);
            && r.outcome == Pass
            && forall a :: 0 <= a < n ==> r.mem[a] == 0x00
  {
    MarchAOutcome(faults, n, mem, log);
    var r := MarchA(faults, n, mem, log);
    assert forall a :: 0 <= a < n ==> Observe(faults, a, 0x00) == 0x00 && Observe(faults, a, 0xFF) == 0xFF;
    assert forall a :: 0 <= a < n ==> Observe(faults, a, r.mem[a]) == r.mem[a];
  }

  /** One stuck-at-1 lane in a tested cell: March A fails in M1 at that cell. */
  lemma MarchAStuckAtOne(n: nat, x: int, lane: nat, mem: seq<int>, log: seq<Command>)
    requires IsMemory(mem) && n <= MemorySize && 0 <= x < n && lane < DataBits
    ensures var faults := map[x := StuckAt(0, Pow2(lane))];
            ValidFaults(faults) && MarchA(faults, n, mem, log).outcome == Fail(MarchM1, x)
  {
    var faults := map[x := StuckAt(0, Pow2(lane))];
    Pow2Widths();
    Pow2Below(lane, 8);
    assert Observe(faults, x, 0x00) == Pow2(lane);
    assert forall a :: 0 <= a < x ==> HoldsZero(faults, a);
    MarchAFailsAt(faults, n, mem, log, x);
  }

  /** One stuck-at-0 lane in a tested cell: March A fails in M2 at that cell. */
  lemma MarchAStuckAtZero(n: nat, x: int, lane: nat, mem: seq<int>, log: seq<Command>)
    requires IsMemory(mem) && n <= MemorySize && 0 <= x < n && lane < DataBits
    ensures var faults := map[x := StuckAt(Pow2(lane), 0)];
            ValidFaults(faults) && MarchA(faults, n, mem, log).outcome == Fail(MarchM2, x)
  {
    var faults := map[x := StuckAt(Pow2(lane), 0)];
    Pow2Widths();
    Pow2Below(lane, 8);
    assert Observe(faults, x, 0xFF) == AndNot(0xFF, Pow2(lane));
    BitOfAndNot(0xFF, Pow2(lane), lane);
    BitOfPow2(lane, lane);
    OnesBit(8, lane);
    assert Bit(0xFF, lane) == 1;
    assert forall a :: 0 <= a < n ==> HoldsZero(faults, a);
    assert forall a :: 0 <= a < x ==> HoldsOne(faults, a);
    MarchAFailsAt(faults, n, mem, log, x);
  }
}
