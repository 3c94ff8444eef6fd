# A verified model of the 23K640 SRAM memory test

`TrueMemoryTest.py` tests a 23K640 SPI SRAM from a host, one byte at a time.
It has three layers, and this project models each of them in Dafny.

1. **The byte protocol.**
   - `get_status` takes no argument: it sends the status frame `[0x05, 0x00]` and returns the last byte of the answer.
   - `read(address)` rejects an address wider than 16 bits. Otherwise it splits the address into a high and a low byte, sends `[0x03, hi, lo, 0x00]` and returns the last byte of the answer.
   - `write(address, value)` rejects an address wider than 16 bits, then a value wider than 8 bits. Otherwise it splits the address and sends `[0x02, hi, lo, value, 0x00]`.
2. **Four bit-lane March primitives.** Each walks the eight lanes of one byte in a fixed order.
   - M1 and M2 walk lanes 0..7; M3 and M4 walk lanes 7..0.
   - Each checks the lane against the value it expects and reports a fault at the first wrong lane.
   - Otherwise it drives the lane through a sequence of set/clear writes. Each write is a read-modify-write of the whole byte.
3. **Three tests.**
   - `checkerboard_test` writes 0xAA/0x55 by address parity and step, then reads everything back.
   - `sequence_test` writes one datum everywhere, then reads it back.
   - `march_A_test`: M0 writes 0x00 everywhere; then M1 and M2 sweep up the addresses and M3 and M4 sweep down. Every test stops at the first failing check.

## The modules

| file | module | what it holds |
|---|---|---|
| `bitwise.dfy` | `Bitwise` | Python's `>>` on integers and `&`, `\|`, `& ~` on non-negative integers, each defined recursively, with what each does to every bit lane. |
| `protocol.dfy` | `Protocol` | Opcodes, sizes, range checks, the address split, and the frame encoding and decoding of each command. |
| `sram.dfy` | `Sram` | The chip as a class (details below) and the methods `Transfer`, `GetStatus`, `Read` and `Write`. |
| `passes.dfy` | `Passes` | The ascending write and verify passes as functions, the checkerboard and sequence tests built from them, and their theorems. |
| `march_spec.dfy` | `MarchSpec` | One element on one byte (lanes and read-modify-writes), one phase over the addresses, and the whole March A test, all as functions. |
| `primitives.dfy` | `Primitives` | The four primitives as loops over the device, each proved equal to its element function. |
| `march_theory.dfy` | `MarchTheory` | What March A detects under the stuck-at fault model, element by element, phase by phase, then for the whole test. |
| `drivers.dfy` | `Drivers` | The three tests as loops over the device, each proved equal to its function. |

The `Sram` class holds:
- an `array<int>` of 65536 byte cells;
- a constant stuck-at fault map (lanes stuck at 0 and at 1 per address), applied on every read;
- a constant status byte;
- the log of commands received, oldest first.

A test ends with an `Outcome`:
- `Pass`;
- `Fail(phase, address)`, where the source prints a failure and returns;
- `Raised(error)`, where `read` or `write` raises.

Each imperative method, including the primitives and the drivers, states in its contract the new cells and the new log exactly; for the primitives and the drivers, these are what the matching function says. The theorems are then proved about those functions.

## Model

| member | source | states |
|---|---|---|
| Bitwise.ShrIsZero | TrueMemoryTest.py:53 | `x >> k` is 0 exactly when `0 <= x < 2^k`, negative `x` included: the meaning of each range check. |
| Bitwise.Shr | TrueMemoryTest.py:53 | `x >> k` on any integer, as floor division by `2^k`. Its meaning for the range checks is stated by `ShrIsZero`. |
| Bitwise.And | TrueMemoryTest.py:57-58 | `x & y` on non-negative integers. `LowMaskSplit` states what masking with `0xFF` keeps. |
| Bitwise.Or | TrueMemoryTest.py:146 | `x \| y` on non-negative integers. `BitOfOr` states its value lane by lane. |
| Bitwise.AndNot | TrueMemoryTest.py:147 | `x & ~m` on non-negative integers. `BitOfAndNot` states its value lane by lane. |
| Bitwise.Bit | TrueMemoryTest.py:142 | `(v >> i) & 1` is always 0 or 1. |
| Bitwise.LowMaskSplit | TrueMemoryTest.py:57-58 | `x & (2^w - 1)` plus `2^w * (x >> w)` rebuilds `x`. |
| Bitwise.BitOfPow2 | TrueMemoryTest.py:146 | `1 << l` has lane `l` set and no other. |
| Bitwise.BitOfOr | TrueMemoryTest.py:146 | Every lane of `x \| y` is the OR of the two lanes. |
| Bitwise.BitOfAndNot | TrueMemoryTest.py:147 | Every lane of `x & ~m` is the lane of `x` unless `m` sets it. |
| Bitwise.BitsDetermine | TrueMemoryTest.py:142 | Two `w`-bit values with equal lanes are equal. |
| Protocol.ValidAddress | TrueMemoryTest.py:53-54 | The address check passes exactly for `0 <= address < 65536`. |
| Protocol.ValidValue | TrueMemoryTest.py:71-72 | The value check passes exactly for `0 <= value < 256`. |
| Protocol.High | TrueMemoryTest.py:57 | `(address >> 8) & 0xFF`. `SplitAddress` states that it is a byte and, with `Low`, rebuilds the address. |
| Protocol.Low | TrueMemoryTest.py:58 | `address & 0xFF`. `SplitAddress` states that it is a byte and, with `High`, rebuilds the address. |
| Protocol.SplitAddress | TrueMemoryTest.py:57-58 | The high and low halves of a valid address are bytes, and `hi * 256 + lo == address`. |
| Protocol.Encode | TrueMemoryTest.py:44-79 | Frames are 4 (read), 5 (write) or 2 (status) bytes long. Each starts with its opcode and ends with the 0x00 dummy byte, and every entry is a byte. |
| Protocol.Decode | TrueMemoryTest.py:59 | What the chip accepts is a well-formed command. `DecodeEncode` and `EncodeDecode` make it the exact inverse of `Encode`. |
| Protocol.DecodeEncode | TrueMemoryTest.py:57-59 | The chip reads back every command the test encodes: the frame layout loses nothing. |
| Protocol.EncodeDecode | TrueMemoryTest.py:74-77 | Every frame the chip accepts is the encoding of the command it reads. |
| Sram.ObserveLane | TrueMemoryTest.py:39-40 | A read sees each lane of the stored byte through that lane's stuck-at fault only. |
| Sram.Observe | TrueMemoryTest.py:61-62 | A read of a cell storing a byte returns a byte. `ObserveLane` states which lanes the stuck-at faults force. |
| Sram.Device.Transfer | TrueMemoryTest.py:39-40 | One exchange: the chip acts on the decoded command and logs it. It answers with as many bytes as it received, the answer last. |
| Sram.Device.GetStatus | TrueMemoryTest.py:44-46 | Returns the status byte; cells unchanged; one status command logged. |
| Sram.Device.Read | TrueMemoryTest.py:50-62 | An address beyond 16 bits raises the address error and sends nothing. Otherwise it returns what the cell reads as and logs one read. |
| Sram.Device.Write | TrueMemoryTest.py:67-79 | Raises the address error first, then the value error, sending nothing in either case. Otherwise it stores the value in that cell only and logs one write. |
| Sram.WriteThenRead | TrueMemoryTest.py:50-79 | `write(a, v)` then `read(a)` returns `v` on a fault-free cell, and only cell `a` changes. |
| Passes.Verdict | TrueMemoryTest.py:90-95 | A checkerboard read fails exactly when the step is 1 or 2 and the byte differs from the stored one (part 1 for step 1, part 2 for step 2). A sequence read fails exactly when the byte differs from the datum. |
| Passes.PatternValue | TrueMemoryTest.py:84-87 | The byte stored at an address: `CheckerboardValues` gives its value by parity and step, and `BoardStorable` says it passes the value check. |
| Passes.Check | TrueMemoryTest.py:89-95 | The verdict on the byte read back from one address. `ScanPasses` and `ScanFails` say how the verify pass uses it. |
| Passes.WritePass | TrueMemoryTest.py:83-87 | A write pass that completes never went past the last address. |
| Passes.Scan | TrueMemoryTest.py:88-95 | A verify pass changes no cell and ends in pass or fail. |
| Passes.WritePassStores | TrueMemoryTest.py:83-87 | A storable pass over valid addresses leaves the pattern below `k` and the rest untouched, and logs one ascending write per address. |
| Passes.WritePassOverruns | TrueMemoryTest.py:83-87 | A pass past 65536 writes every address, then raises the address error. |
| Passes.WritePassRejects | TrueMemoryTest.py:128-130 | A non-byte datum raises the value error at the first write, with nothing sent. |
| Passes.WritePassStop | TrueMemoryTest.py:83-87 | Once a write raises, no later write happens. |
| Passes.ScanPasses | TrueMemoryTest.py:88-95 | A verify pass passes exactly when every address checks out, and then it read each address once, ascending. |
| Passes.ScanFails | TrueMemoryTest.py:88-95 | A failure at `i` is the check at `i`. All addresses below `i` passed, and exactly `0..i` were read. |
| Passes.ScanStop | TrueMemoryTest.py:88-95 | Once a check fails, no later address is read. |
| Passes.WriteVerify | TrueMemoryTest.py:82-95 | A write pass, then a verify pass unless the write pass raised. `WriteVerifyFailsAt`, `WriteVerifyPassLog` and `WriteVerifyFailLog` state its outcome, cells and log. |
| Passes.WriteVerifyFailsAt | TrueMemoryTest.py:82-95 | After the write pass each cell holds its pattern byte. The run fails at `i` exactly when `i` is the first address that does not read it back. |
| Passes.WriteVerifyPassLog | TrueMemoryTest.py:82-95 | A passing run sent `n` ascending writes, then `n` ascending reads. |
| Passes.WriteVerifyFailLog | TrueMemoryTest.py:82-95 | A run failing at `i` sent `n` writes, then the reads of `0..i` only. |
| Passes.CheckerboardValues | TrueMemoryTest.py:84-87 | Cell `a` gets 0xAA iff (`a` even and step 1) or (`a` odd and step 2), else 0x55. Other steps write 0x55 everywhere. Neighbours differ, and steps 1 and 2 are complements. |
| Passes.BoardStorable | TrueMemoryTest.py:84-87 | Every checkerboard byte passes the value check. |
| Passes.Checkerboard | TrueMemoryTest.py:82-95 | `checkerboard_test`. `CheckerboardFailsAt`, `CheckerboardFaultFree` and `CheckerboardOtherStep` state where it fails and when it passes. |
| Passes.CheckerboardFailsAt | TrueMemoryTest.py:82-95 | Raises past 65536. Otherwise it fails at `i` iff step is 1 or 2 and `i` is the first cell not reading back its byte, reporting part 1 or part 2. |
| Passes.CheckerboardFaultFree | TrueMemoryTest.py:82-95 | Fault-free memory passes for every step. |
| Passes.CheckerboardOtherStep | TrueMemoryTest.py:84-95 | A step other than 1 or 2 never reports a failure, whatever the faults. |
| Passes.Sequence | TrueMemoryTest.py:127-136 | `sequence_test`. `SequenceFailsAt` and `SequenceFaultFree` state where it fails and when it passes. |
| Passes.SequenceFailsAt | TrueMemoryTest.py:127-136 | A non-byte datum raises with nothing sent. A byte datum ends in every cell below `n`, and the test fails at `i` iff `i` is the first cell not reading back the datum. |
| Passes.SequenceFaultFree | TrueMemoryTest.py:127-136 | Fault-free memory passes for every byte datum. |
| MarchSpec.Lane | TrueMemoryTest.py:140 | The `k`-th lane visited is a lane of the byte: `k` for M1/M2, `7 - k` for M3/M4. |
| MarchSpec.Drive | TrueMemoryTest.py:146-148 | The byte a read-modify-write stores is a byte. |
| MarchSpec.Rmw | TrueMemoryTest.py:146-148 | A lane's read-modify-writes in turn: never a fault, and the cells stay bytes. `RmwSeen` states that only the cell changes and the lane ends at its last write. |
| MarchSpec.Lanes | TrueMemoryTest.py:140-148 | The lane loop of a primitive, stopping at the first wrong lane. `LanesStep`, `LanesView` and `LanesFault` state when it faults and how each lane reads afterwards. |
| MarchSpec.RunElement | TrueMemoryTest.py:138-191 | One primitive on one address. `ElementRun` states that it faults iff the first read is not the expected solid byte, and what the cell holds otherwise. |
| MarchSpec.Visit | TrueMemoryTest.py:114 | The `k`-th address a phase visits is below `n`: `k` ascending, `n - 1 - k` for `reversed(range(n))`. |
| MarchSpec.LanesStop | TrueMemoryTest.py:143-144 | After a faulting lane, later lanes are neither checked nor written. |
| MarchSpec.Sweep | TrueMemoryTest.py:102-107 | A phase passes or fails in its own phase. |
| MarchSpec.MarchA | TrueMemoryTest.py:97-125 | `march_A_test`: the cells stay bytes. `MarchAOutcome`, `MarchAFailsAt`, `MarchATooLarge` and the stuck-at lemmas state where it fails and when it passes. |
| Primitives.SetLane | TrueMemoryTest.py:146 | `write(a, read(a) \| (1 << i))`: cells and log as the driven byte says. |
| Primitives.ClearLane | TrueMemoryTest.py:147 | `write(a, read(a) & ~(1 << i))`: cells and log as the driven byte says. |
| Primitives.ReadLane | TrueMemoryTest.py:142 | `(read(a) >> i) & 1` returns that lane of what the cell reads as. An invalid address raises with nothing logged. |
| Primitives.WriteOneZeroOne | TrueMemoryTest.py:146-148 | Set, clear, set of one lane: equal to `Rmw` with writes 1, 0, 1. |
| Primitives.WriteZeroOne | TrueMemoryTest.py:160-161 | Clear, set: equal to `Rmw` with writes 0, 1. |
| Primitives.WriteZeroOneZero | TrueMemoryTest.py:174-176 | Clear, set, clear: equal to `Rmw` with writes 0, 1, 0. |
| Primitives.WriteOneZero | TrueMemoryTest.py:188-189 | Set, clear: equal to `Rmw` with writes 1, 0. |
| Primitives.ReadZeroWriteOneZeroOne | TrueMemoryTest.py:138-150 | M1: result, cells and log are those of element M1 on the address. A bad address raises with nothing changed. |
| Primitives.ReadOneWriteZeroOne | TrueMemoryTest.py:152-163 | M2: result, cells and log are those of element M2. |
| Primitives.ReadOneWriteZeroOneZero | TrueMemoryTest.py:165-178 | M3: result, cells and log are those of element M3. |
| Primitives.ReadZeroWriteOneZero | TrueMemoryTest.py:180-191 | M4: result, cells and log are those of element M4. |
| MarchTheory.SolidByLanes | TrueMemoryTest.py:140-144 | A byte is 0x00 (0xFF) exactly when all eight lanes are 0 (1). |
| MarchTheory.DriveBits | TrueMemoryTest.py:146-148 | A read-modify-write stores the byte read with only the driven lane replaced. |
| MarchTheory.DriveSeen | TrueMemoryTest.py:146-148 | Afterwards the driven lane reads as its fault lets the new value through, and every other lane reads as before. |
| MarchTheory.RmwSeen | TrueMemoryTest.py:146-148 | A lane's writes change only that cell. The lane ends reading as its last write drives it; the other lanes keep reading as before. |
| MarchTheory.LanesStep | TrueMemoryTest.py:140-148 | One lane step faults exactly when that lane reads other than expected, and otherwise changes only the driven lane's view. |
| MarchTheory.LanesView | TrueMemoryTest.py:140-148 | Unfaulted lane steps change only their cell. Visited lanes read as their last write; unvisited lanes read as before. |
| MarchTheory.LanesFault | TrueMemoryTest.py:140-144 | The element faults exactly when some lane, in visit order, read wrong at its check. |
| MarchTheory.ElementRun | TrueMemoryTest.py:138-191 | A primitive faults iff its first read is not all-expected (0x00 or 0xFF). Without a fault it changes only its cell, which then reads as the solid byte of its last write. |
| MarchTheory.ElementFaultFree | TrueMemoryTest.py:138-191 | On a fault-free cell a primitive faults iff the cell is not the solid byte it expects; otherwise the cell becomes the solid byte of its last write. |
| MarchTheory.PrimitivesFaultFree | TrueMemoryTest.py:138-191 | On a fault-free cell, none faulting: M1 takes 0x00 to 0xFF, M2 keeps 0xFF, M3 takes 0xFF to 0x00, M4 keeps 0x00. |
| MarchTheory.SweepStep | TrueMemoryTest.py:102-107 | The next address fails the phase iff it does not read the expected solid byte; otherwise only that cell changes. |
| MarchTheory.SweepCells | TrueMemoryTest.py:102-125 | After passing steps, each visited cell reads as the last write's solid byte and every other cell is untouched. |
| MarchTheory.SweepKeeps | TrueMemoryTest.py:102-125 | A phase has not touched an address it has yet to visit. |
| MarchTheory.SweepOutcome | TrueMemoryTest.py:102-125 | A phase passes exactly when every visited address reads the expected solid byte. |
| MarchTheory.SweepStop | TrueMemoryTest.py:105-107 | Once a phase fails, no later address is visited. |
| MarchTheory.SweepFailsAt | TrueMemoryTest.py:102-125 | A phase fails at the first visited address that does not read the expected solid byte. |
| MarchTheory.FirstBad | TrueMemoryTest.py:102-125 | If not all visited addresses are good, there is a first bad one. |
| MarchTheory.AllGoodUp | TrueMemoryTest.py:102 | For an ascending phase, the first `k` visits are the addresses below `k`. |
| MarchTheory.UpPhase | TrueMemoryTest.py:102-113 | An ascending phase passes iff all addresses are good, fails at `i` iff `i` is the first bad one, and a pass leaves the last write's solid byte. |
| MarchTheory.DownPhase | TrueMemoryTest.py:114-125 | A descending phase over good addresses passes and leaves the last write's solid byte. |
| MarchTheory.MarchM0 | TrueMemoryTest.py:98-101 | M0 completes and leaves 0x00 below `n`, the rest untouched. |
| MarchTheory.MarchPhaseM1 | TrueMemoryTest.py:102-107 | After M0, M1 passes iff every address holds 0x00, fails at the first that does not, and a pass leaves cells reading as 0xFF would. |
| MarchTheory.MarchPhaseM2 | TrueMemoryTest.py:108-113 | M2 then passes iff every address holds 0xFF, fails at the first that does not, and a pass leaves cells reading 0xFF. |
| MarchTheory.MarchPhaseM3 | TrueMemoryTest.py:114-119 | On cells reading 0xFF, M3 passes and leaves them reading as 0x00 would. |
| MarchTheory.MarchPhaseM4 | TrueMemoryTest.py:120-125 | On cells reading 0x00, M4 passes and leaves them reading as 0x00 would. |
| MarchTheory.MarchPhasesDown | TrueMemoryTest.py:114-125 | After a passing M2, M3 and M4 never fail, and they leave every cell reading 0x00. |
| MarchTheory.MarchAOutcome | TrueMemoryTest.py:97-125 | March A never raises within 65536 and fails only in M1 or M2. It passes iff every tested cell holds both 0x00 and 0xFF, and then tested cells read 0x00 and the rest are untouched. |
| MarchTheory.MarchAFailsAt | TrueMemoryTest.py:97-125 | It fails in M1 at `i` iff `i` is the first cell not holding 0x00. It fails in M2 at `i` iff all hold 0x00 and `i` is the first not holding 0xFF. |
| MarchTheory.MarchATooLarge | TrueMemoryTest.py:98-101 | Past 65536, M0 writes every cell and raises the address error; no element runs. |
| MarchTheory.MarchAFaultFree | TrueMemoryTest.py:97-125 | Fault-free memory passes, and every tested cell ends at 0x00. |
| MarchTheory.MarchAStuckAtOne | TrueMemoryTest.py:102-107 | One lane stuck at 1 in a tested cell makes March A fail in M1 at that cell. |
| MarchTheory.MarchAStuckAtZero | TrueMemoryTest.py:108-113 | One lane stuck at 0 in a tested cell makes March A fail in M2 at that cell. |
| Drivers.WriteLoop | TrueMemoryTest.py:83-87 | The ascending write loop leaves outcome, cells and log exactly as `WritePass`. |
| Drivers.VerifyLoop | TrueMemoryTest.py:88-95 | The ascending read-and-check loop matches `Scan` exactly. |
| Drivers.CheckerboardTest | TrueMemoryTest.py:82-95 | `checkerboard_test` matches `Checkerboard` exactly. |
| Drivers.SequenceTest | TrueMemoryTest.py:127-136 | `sequence_test` matches `Sequence` exactly. |
| Drivers.Primitive | TrueMemoryTest.py:104-122 | Running the primitive of an element matches `RunElement`. |
| Drivers.SweepStep | TrueMemoryTest.py:104-107 | One address of a phase extends the phase exactly by that address. |
| Drivers.SweepLoop | TrueMemoryTest.py:102-125 | An ascending or `reversed(range(n))` loop over a primitive matches `Sweep`, stopping at the first fault. |
| Drivers.MarchATest | TrueMemoryTest.py:97-125 | `march_A_test` matches `MarchA` exactly. |

## Left out

- SPI set-up (TrueMemoryTest.py:29-35) is hardware configuration through a library outside this model. `_transfer` (TrueMemoryTest.py:39-40) becomes `Sram.Device.Transfer`, the chip's side of one exchange.
- The log records the decoded command of each frame rather than the raw bytes. For a frame that decodes, `Protocol.DecodeEncode` and `Protocol.EncodeDecode` show the two carry the same information.
- Sram.Device.Transfer: a frame that does not decode leaves no entry in the log. So "log unchanged" in `Read` and `Write` means that no decodable frame was sent. Every frame `Encode` builds for a valid command decodes (`Protocol.DecodeEncode`), so the test itself never sends an undecodable frame.
- The meaning of the status byte is the chip's business; it is a constant of the device.
- `print` messages and the module-level runs (TrueMemoryTest.py:193-202) are left out. A test returns an `Outcome` instead, and `Fail` carries the phase that failed.
- `Error` is undefined in the source, so each `raise` there ends the test with an exception. The model ends it with `Raised(AddressRange)` or `Raised(ValueRange)`.
- `memory_size` is a natural number. Python's empty `range` for a negative size is not modelled.
- Timing, clock rate and concurrency on the bus are not modelled. The fault model is stuck-at lanes only: no coupling, transition or address-decoder faults.
- Drivers.SweepLoop: it leaves its loop by the loop condition after the first fault, not by `return`. It visits the same addresses and sends the same commands.
- Drivers.VerifyLoop: it requires `n <= 65536`, which every caller meets because the write pass before it raised otherwise. Under that bound every read is valid.
