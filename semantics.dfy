/** The meaning of the tape interpreter in `main` (src/main.rs), as values.
    A program is a sequence of bytes read in file order; each byte is executed
    as soon as it is read.  There is no program counter: the interpreter only
    ever looks at the byte it has just read. */
module Semantics {

  /** An unsigned 8-bit value: a tape cell or a program byte. */
  type Byte = b: int | 0 <= b < 256

  /** The number of cells of the tape (`vec![0_u8; 30_000]`). */
  const TapeSize: nat := 30000

  // The eight instruction bytes.
  const Gt: Byte := '>' as int
  const Lt: Byte := '<' as int
  const Plus: Byte := '+' as int
  const Minus: Byte := '-' as int
  const LBracket: Byte := '[' as int
  const RBracket: Byte := ']' as int
  const Comma: Byte := ',' as int
  const Dot: Byte := '.' as int

  predicate IsInstruction(b: Byte) {
    b in {Gt, Lt, Plus, Minus, LBracket, RBracket, Comma, Dot}
  }

  /** The bytes whose arm of the dispatch is still `todo!`. */
  predicate IsUnimplemented(b: Byte) {
    b in {LBracket, RBracket, Comma}
  }

  /** What a `todo!` arm says is missing. */
  datatype Missing = LoopStart | LoopEnd | Input

  /** The reasons the interpreter panics. */
  datatype Fault = PointerOutOfBounds | Unimplemented(what: Missing)

  /** The result of executing one byte. */
  datatype Status = Continue | Faulted(fault: Fault)

  /** Everything the interpreter keeps: the tape, the data pointer and the
      cells written so far by `.`. */
  datatype State = State(tape: seq<Byte>, ptr: nat, output: seq<Byte>)

  /** The pointer addresses a cell of the tape. */
  predicate WellFormed(s: State) {
    s.ptr < |s.tape|
  }

  /** The state before the first byte is read: 30,000 zero cells, the
      pointer at cell 0, nothing written. */
  function Initial(): (s: State)
    ensures WellFormed(s) && |s.tape| == TapeSize
    ensures forall i :: 0 <= i < |s.tape| ==> s.tape[i] == 0
    ensures s.ptr == 0 && s.output == []
  {
    State(seq(TapeSize, _ => 0), 0, [])
  }

  /** One step: the status, and the state after the step.  A step that
      faults leaves the state as it was. */
  datatype Transition = Transition(status: Status, next: State)

  /** `+` on a `u8` cell, wrapping modulo 256 as a release build does. */
  function Inc(b: Byte): (r: Byte)
    ensures b < 255 ==> r == b + 1
    ensures b == 255 ==> r == 0
  {
    (b as int + 1) % 256
  }

  /** `-` on a `u8` cell, wrapping modulo 256 as a release build does. */
  function Dec(b: Byte): (r: Byte)
    ensures b > 0 ==> r == b - 1
    ensures b == 0 ==> r == 255
  {
    (b as int - 1) % 256
  }

  /** `>`: faults when the pointer would leave the tape, else moves right. */
  function MoveRight(s: State): (t: Transition)
    requires WellFormed(s)
    ensures t.status.Faulted? <==> s.ptr + 1 >= |s.tape|
    ensures t.status.Faulted? ==> t.status.fault == PointerOutOfBounds && t.next == s
    ensures t.status.Continue? ==> t.next.ptr == s.ptr + 1
    ensures t.next.tape == s.tape && t.next.output == s.output && WellFormed(t.next)
  {
    if s.ptr + 1 >= |s.tape| then Transition(Faulted(PointerOutOfBounds), s)
    else Transition(Continue, s.(ptr := s.ptr + 1))
  }

  /** `<`: faults when the pointer is at cell 0, else moves left. */
  function MoveLeft(s: State): (t: Transition)
    requires WellFormed(s)
    ensures t.status.Faulted? <==> s.ptr == 0
    ensures t.status.Faulted? ==> t.status.fault == PointerOutOfBounds && t.next == s
    ensures t.status.Continue? ==> t.next.ptr + 1 == s.ptr
    ensures t.next.tape == s.tape && t.next.output == s.output && WellFormed(t.next)
  {
    if s.ptr == 0 then Transition(Faulted(PointerOutOfBounds), s)
    else Transition(Continue, s.(ptr := s.ptr - 1))
  }

  /** `+`: the current cell goes up by one modulo 256; nothing else changes. */
  function IncrementCell(s: State): (t: Transition)
    requires WellFormed(s)
    ensures t.status == Continue
    ensures |t.next.tape| == |s.tape| && t.next.ptr == s.ptr && t.next.output == s.output
    ensures t.next.tape[s.ptr] == (s.tape[s.ptr] as int + 1) % 256
    ensures forall i :: 0 <= i < |s.tape| && i != s.ptr ==> t.next.tape[i] == s.tape[i]
  {
    Transition(Continue, s.(tape := s.tape[s.ptr := Inc(s.tape[s.ptr])]))
  }

  /** `-`: the current cell goes down by one modulo 256; nothing else changes. */
  function DecrementCell(s: State): (t: Transition)
    requires WellFormed(s)
    ensures t.status == Continue
    ensures |t.next.tape| == |s.tape| && t.next.ptr == s.ptr && t.next.output == s.output
    ensures t.next.tape[s.ptr] == (s.tape[s.ptr] as int - 1) % 256
    ensures forall i :: 0 <= i < |s.tape| && i != s.ptr ==> t.next.tape[i] == s.tape[i]
  {
    Transition(Continue, s.(tape := s.tape[s.ptr := Dec(s.tape[s.ptr])]))
  }

  /** `.`: the current cell is written out; tape and pointer stay. */
  function OutputCell(s: State): (t: Transition)
    requires WellFormed(s)
    ensures t.status == Continue
    ensures t.next.tape == s.tape && t.next.ptr == s.ptr
    ensures |t.next.output| == |s.output| + 1
    ensures t.next.output[..|s.output|] == s.output && t.next.output[|s.output|] == s.tape[s.ptr]
  {
    Transition(Continue, s.(output := s.output + [s.tape[s.ptr]]))
  }

  /** The `todo!` arms: `[`, `]` and `,` panic whatever the state. */
  function Todo(b: Byte): (f: Fault)
    requires IsUnimplemented(b)
    ensures f.Unimplemented?
    ensures f.what == LoopStart <==> b == LBracket
    ensures f.what == LoopEnd <==> b == RBracket
    ensures f.what == Input <==> b == Comma
  {
    if b == LBracket then Unimplemented(LoopStart)
    else if b == RBracket then Unimplemented(LoopEnd)
    else Unimplemented(Input)
  }

  /** The dispatch on one program byte. */
  function Exec(s: State, b: Byte): (t: Transition)
    requires WellFormed(s)
    ensures WellFormed(t.next) && |t.next.tape| == |s.tape|
    ensures t.status.Faulted? ==> t.next == s
    ensures t.status.Faulted? <==>
      IsUnimplemented(b) || (b == Gt && s.ptr + 1 >= |s.tape|) || (b == Lt && s.ptr == 0)
    ensures IsUnimplemented(b) ==> t.status == Faulted(Todo(b))
    ensures !IsInstruction(b) ==> t == Transition(Continue, s)
    ensures forall i :: 0 <= i < |s.tape| && i != s.ptr ==> t.next.tape[i] == s.tape[i]
    ensures t.next.output == s.output || t.next.output == s.output + [s.tape[s.ptr]]
    ensures t.next.ptr + 1 == s.ptr || t.next.ptr == s.ptr || t.next.ptr == s.ptr + 1
  {
    if b == Gt then MoveRight(s)
    else if b == Lt then MoveLeft(s)
    else if b == Plus then IncrementCell(s)
    else if b == Minus then DecrementCell(s)
    else if IsUnimplemented(b) then Transition(Faulted(Todo(b)), s)
    else if b == Dot then OutputCell(s)
    else Transition(Continue, s)
  }

  /** How a run over the bytes of a program ends. */
  datatype Stop = Finished | FaultedAt(fault: Fault, at: nat)

  /** The way a run ends and the state it leaves.  After a fault at byte
      `at`, the state is the one in which that byte was read. */
  datatype Outcome = Outcome(stop: Stop, final: State)

  /** The outcome `o` of a run over a suffix of the program that starts
      `k` bytes in, seen from the start of the program. */
  function Later(o: Outcome, k: nat): Outcome {
    match o.stop
    case Finished => o
    case FaultedAt(f, at) => Outcome(FaultedAt(f, at + k), o.final)
  }

  /** The read loop: execute the bytes of `prog` in order, stopping when
      they are exhausted or at the first fault. */
  function Run(s: State, prog: seq<Byte>): (o: Outcome)
    requires WellFormed(s)
    ensures WellFormed(o.final) && |o.final.tape| == |s.tape|
    ensures o.stop.FaultedAt? ==> o.stop.at < |prog|
    ensures |s.output| <= |o.final.output| && o.final.output[..|s.output|] == s.output
    decreases |prog|
  {
    if prog == [] then Outcome(Finished, s)
    else
      var t := Exec(s, prog[0]);
      match t.status
      case Faulted(f) => Outcome(FaultedAt(f, 0), s)
      case Continue => Later(Run(t.next, prog[1..]), 1)
  }
}
