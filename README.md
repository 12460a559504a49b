# beefu tape interpreter, modelled in Dafny

beefu is an interpreter for an eight-instruction esoteric language that runs
on a byte tape. Its `main` (src/main.rs) creates a tape of 30,000 zero cells
and a data pointer at cell 0. It then reads the program file one byte at a
time and executes each byte as soon as it is read:

- `>` moves the pointer right and panics when it would leave the tape;
- `<` panics when the pointer is at cell 0 and otherwise moves it left;
- `+` and `-` change the current cell by one;
- `.` writes the current cell;
- `[`, `]` and `,` reach `todo!`, so they panic;
- every other byte does nothing.

There is no program counter and no loop handling. The interpreter keeps no
state besides the tape and the pointer.

The model has three modules:

- `Semantics` (semantics.dfy) gives the meaning as values. `State` holds the
  tape, the pointer and the cells written so far. `Exec` executes one byte.
  `Run` is the read loop, a fold of `Exec` over the program's bytes that
  stops at the first fault.
- `Interpreter` (machine.dfy) is the imperative form. Class `Machine` holds
  the tape as an `array` updated in place, the pointer and the output. Its
  `Step` and `Run` methods are proved equal to `Exec` and `Semantics.Run`.
  `Interpret` is the body of `main`: a fresh machine running a program.
- `Properties` (properties.dfy) proves lemmas about whole runs.

Decisions:

- A panic is a returned fault status: `PointerOutOfBounds`, or
  `Unimplemented(LoopStart | LoopEnd | Input)` for the three `todo!` arms.
  `Run` reports the first fault and the index of the byte that caused it.
  A faulting byte leaves the state unchanged. The source increments the
  pointer before the `>` check, but the panic that follows makes that
  increment unobservable.
- `+` and `-` on a `u8` cell wrap modulo 256, as a release build does
  (`Inc`, `Dec`).
- Output is the sequence of cell values written by `.`, in order.
- The program is a sequence of bytes given to `Run`. The file it is read
  from is not modelled.

The code has no loop handling, no input and no program counter: `[`, `]`
and `,` are `todo!`, and the tape size is fixed at 30,000. The model
follows the code.

## Model

| member | source | states |
|---|---|---|
| `Semantics.Initial` | src/main.rs:13-14 | the tape has exactly 30,000 cells, all 0; the pointer is at cell 0; nothing has been written |
| `Semantics.Inc` | src/main.rs:38 | `+` on a cell adds one below 255 and wraps 255 to 0 |
| `Semantics.Dec` | src/main.rs:41 | `-` on a cell subtracts one above 0 and wraps 0 to 255 |
| `Semantics.MoveRight` | src/main.rs:25-30 | `>` faults with pointer-out-of-bounds exactly when pointer + 1 reaches the tape length, and then changes nothing; otherwise the pointer goes up by one; tape and output never change |
| `Semantics.MoveLeft` | src/main.rs:31-36 | `<` faults with pointer-out-of-bounds exactly when the pointer is 0, before any change; otherwise the pointer goes down by one; tape and output never change |
| `Semantics.IncrementCell` | src/main.rs:37-39 | `+` never faults; the current cell becomes (cell + 1) mod 256; every other cell, the pointer and the output are unchanged |
| `Semantics.DecrementCell` | src/main.rs:40-42 | `-` never faults; the current cell becomes (cell - 1) mod 256; every other cell, the pointer and the output are unchanged |
| `Semantics.OutputCell` | src/main.rs:46-48 | `.` never faults; it appends the current cell to the output and changes neither the tape nor the pointer |
| `Semantics.Todo` | src/main.rs:43-45 | `[`, `]` and `,` map one-to-one to the unimplemented loop-start, loop-end and input faults |
| `Semantics.Exec` | src/main.rs:24-50 | one byte: the tape length is kept and the pointer stays on the tape; it faults exactly for `[`, `]`, `,`, for `>` on the last cell and for `<` on cell 0; a fault changes nothing; a non-instruction byte changes nothing; only the current cell can change; the output grows by at most the current cell; the pointer moves by at most one |
| `Semantics.Run` | src/main.rs:17-51 | the read loop keeps the tape length and the pointer on the tape; a fault index names a byte of the program; the output only grows at its end |
| `Interpreter.Machine.constructor` | src/main.rs:13-14 | a fresh machine has a fresh 30,000-cell tape and its state is `Initial()` |
| `Interpreter.Machine.Step` | src/main.rs:24-50 | executing a byte in place on the array gives exactly the status and new state of `Exec` on the old state; the tape array is the same object and keeps its 30,000 cells |
| `Interpreter.Machine.Run` | src/main.rs:17-51 | the loop over the bytes, one `Step` per byte in order, ends with exactly the stop and state of `Semantics.Run` on the old state |
| `Interpreter.Interpret` | src/main.rs:13-51 | a fresh machine running a program ends as `Semantics.Run` from `Initial()` ends, and writes what it writes |
| `Properties.RunAppend` | src/main.rs:17-22 | running `p + q` is running `p`, then, unless `p` faulted, running `q` from the state `p` left, with fault indices shifted by `|p|` |
| `Properties.RunFirstFault` | src/main.rs:17-51 | a run that faults at byte `k` ran bytes `0..k` without a fault, ending in the reported state, and byte `k` faults in that state |
| `Properties.PrefixFinishes` | src/main.rs:18-22 | a program that runs to its end without a fault runs every prefix of itself without a fault |
| `Properties.UnimplementedStops` | src/main.rs:43-45 | when a `[`, `]` or `,` is reached, the run stops there with the matching unimplemented fault, whatever the tape holds |
| `Properties.IgnoredBytes` | src/main.rs:49 | a program of non-instruction bytes finishes and changes nothing |
| `Properties.OnlyDotWrites` | src/main.rs:46-49 | a program without `.` leaves the output unchanged |
| `Properties.WalkRight` | src/main.rs:25-30 | `n` times `>` moves the pointer right by `n` cells when that stays on the tape; otherwise it faults at the `>` read on the last cell, leaving the pointer there |
| `Properties.WalkLeft` | src/main.rs:31-36 | `n` times `<` moves the pointer left by `n` cells when `n` is at most the pointer; otherwise it faults at the `<` read on cell 0 |
| `Properties.OffTheEnd` | src/main.rs:13-30 | from a fresh tape, 29,999 times `>` reaches the last cell, and the 30,000th `>` faults with pointer-out-of-bounds |
| `Properties.IncrementRepeated` | src/main.rs:37-39 | `n` times `+` adds `n` to the current cell modulo 256 and changes nothing else |
| `Properties.DecrementRepeated` | src/main.rs:40-42 | `n` times `-` subtracts `n` from the current cell modulo 256 and changes nothing else |
| `Properties.WrapAround` | src/main.rs:37-42 | 256 times `+`, or 256 times `-`, returns the machine to the state it started in |
| `Properties.IncrementDecrementInverse` | src/main.rs:37-42 | `+-` and `-+` each return the machine to the state it started in, wrap-around included |
| `Properties.MoveInverse` | src/main.rs:25-36 | `><` away from the last cell, and `<>` away from cell 0, return the machine to the state it started in |
| `Properties.DecrementZero` | src/main.rs:40-42 | a program `-` run on a cell holding 0 finishes with that cell at 255 and nothing else changed; the n = 1, cell 0 case of `DecrementRepeated` |
| `Properties.PlusPlusDot` | src/main.rs:37-48 | `++.` on a fresh machine finishes and writes the single value 2 |

## Left out

- Command-line arguments, opening the file and the `BufReader` reads (src/main.rs:6-11, :19) are I/O. The program is a byte sequence given to `Run`. Their panics are not modelled: the `args[1]` index when no argument is given, and the `expect` on a file that cannot be opened or a read that fails.
- The `Hello, world!` banner (src/main.rs:4) is console output with no logic.
- `.` writes the cell to stdout as a `char` (src/main.rs:47). The model records the cell value; the character encoding of stdout is not modelled.
- A debug build panics on `u8` overflow in `+` and `-` (src/main.rs:38, :41). The model wraps modulo 256, as a release build does.
- Panics end the process. The model returns a terminal fault status instead.
- The pointer increment that the source performs before the `>` check (src/main.rs:26) is not kept in the faulting state. The panic right after it makes it unobservable.
- Loops, bracket matching, a program counter, a control stack and input do not exist in the code; they are only `todo!` (src/main.rs:43-45). They are modelled as the unimplemented faults and nothing more.
