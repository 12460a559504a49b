/** The interpreter of `main` (src/main.rs) as a machine that changes in
    place: a 30,000-cell tape updated cell by cell, a data pointer, and
    the cells written so far.  Its methods are proved against the functions
    of module Semantics. */
module Interpreter {
  import opened Semantics

  class Machine {
    var tape: array<Byte>
    var ptr: nat
    var output: seq<Byte>

    /** The tape keeps its 30,000 cells and the pointer stays on it. */
    ghost predicate Valid()
      reads this
    {
      tape.Length == TapeSize && ptr < tape.Length
    }

    /** The machine's state as a value. */
    ghost function Abs(): (s: State)
      reads this, tape
      requires Valid()
      ensures WellFormed(s) && |s.tape| == TapeSize
    {
      State(tape[..], ptr, output)
    }

    /** A fresh machine: every cell 0, the pointer at cell 0. */
    constructor ()
      ensures Valid() && fresh(tape)
      ensures Abs() == Initial()
    {
      tape := new Byte[TapeSize](_ => 0);
      ptr := 0;
      output := [];
    }

    /** Execute one program byte. */
    method Step(b: Byte) returns (st: Status)
      requires Valid()
      modifies this, tape
      ensures Valid() && tape == old(tape)
      ensures Exec(old(Abs()), b) == Transition(st, Abs())
    {
      st := Continue;
      if b == Gt {
        if ptr + 1 >= tape.Length {
          st := Faulted(PointerOutOfBounds);
        } else {
          ptr := ptr + 1;
        }
      } else if b == Lt {
        if ptr == 0 {
          st := Faulted(PointerOutOfBounds);
        } else {
          ptr := ptr - 1;
        }
      } else if b == Plus {
        tape[ptr] := Inc(tape[ptr]);
      } else if b == Minus {
        tape[ptr] := Dec(tape[ptr]);
      } else if b == LBracket {
        st := Faulted(Unimplemented(LoopStart));
      } else if b == RBracket {
        st := Faulted(Unimplemented(LoopEnd));
      } else if b == Comma {
        st := Faulted(Unimplemented(Input));
      } else if b == Dot {
        output := output + [tape[ptr]];
      }
    }

    /** The read loop: the bytes of `program` one at a time, in order,
        until they run out or one faults. */
    method Run(program: seq<Byte>) returns (stop: Stop)
      requires Valid()
      modifies this, tape
      ensures Valid() && tape == old(tape)
      ensures Semantics.Run(old(Abs()), program) == Outcome(stop, Abs())
    {
      ghost var start := Abs();
      var i := 0;
      while i < |program|
        invariant 0 <= i <= |program|
        invariant Valid() && tape == old(tape)
        invariant Semantics.Run(start, program) == Later(Semantics.Run(Abs(), program[i..]), i)
        decreases |program| - i
      {
        ghost var before := Abs();
        assert program[i..][0] == program[i] && program[i..][1..] == program[i + 1..];
        var st := Step(program[i]);
        if st.Faulted? {
          stop := FaultedAt(st.fault, i);
          return;
        }
        assert Semantics.Run(before, program[i..]) == Later(Semantics.Run(Abs(), program[i + 1..]), 1);
        i := i + 1;
      }
      stop := Finished;
    }
  }

  /** The body of `main` after the file is opened: a fresh tape and pointer,
      then the read loop over the program's bytes.  Returns how the run
      ended and the cells written by `.`, in order. */
  method Interpret(program: seq<Byte>) returns (stop: Stop, written: seq<Byte>)
    ensures var o := Semantics.Run(Initial(), program);
      stop == o.stop && written == o.final.output
  {
    var m := new Machine();
    stop := m.Run(program);
    written := m.output;
  }
}
