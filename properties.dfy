/** Properties of whole runs of the interpreter of src/main.rs. */
module Properties {
  import opened Semantics

  /** `n` copies of byte `b`. */
  function Repeat(b: Byte, n: nat): (r: seq<Byte>)
    ensures |r| == n
    ensures forall i :: 0 <= i < n ==> r[i] == b
  {
    if n == 0 then [] else [b] + Repeat(b, n - 1)
  }

  /** Running `p + q` is running `p` and then, unless `p` faulted, running
      `q` from where `p` left off: the bytes are taken in file order, each
      once, and a fault ends the run. */
  lemma {:induction false} RunAppend(s: State, p: seq<Byte>, q: seq<Byte>)
    requires WellFormed(s)
    ensures var o := Run(s, p);
      Run(s, p + q) == if o.stop.FaultedAt? then o else Later(Run(o.final, q), |p|)
    decreases |p|
  {
    if p == [] {
      assert p + q == q;
      assert Later(Run(s, q), 0) == Run(s, q);
    } else {
      assert (p + q)[0] == p[0] && (p + q)[1..] == p[1..] + q;
      var t := Exec(s, p[0]);
      if t.status.Continue? {
        RunAppend(t.next, p[1..], q);
      }
    }
  }

  /** A run stops only where the input is exhausted or at its first
      fault: the bytes before the faulting one all run without a fault,
      and the faulting byte faults in the state they leave. */
  lemma {:induction false} RunFirstFault(s: State, p: seq<Byte>)
    requires WellFormed(s)
    ensures var o := Run(s, p);
      o.stop.FaultedAt? ==>
        o.stop.at < |p| &&
        Run(s, p[..o.stop.at]) == Outcome(Finished, o.final) &&
        Exec(o.final, p[o.stop.at]) == Transition(Faulted(o.stop.fault), o.final)
    decreases |p|
  {
    if p != [] {
      var t := Exec(s, p[0]);
      if t.status.Continue? {
        RunFirstFault(t.next, p[1..]);
        var o := Run(t.next, p[1..]);
        if o.stop.FaultedAt? {
          var k := o.stop.at;
          assert p[1..][..k] == p[..k + 1][1..];
          assert p[1..][k] == p[k + 1];
        }
      }
    }
  }

  /** A run with no fault leaves no byte out: a program that runs to the
      end without a fault also runs every prefix of itself without one. */
  lemma {:induction false} PrefixFinishes(s: State, p: seq<Byte>, k: nat)
    requires WellFormed(s) && k <= |p|
    requires Run(s, p).stop.Finished?
    ensures Run(s, p[..k]).stop.Finished?
  {
    RunAppend(s, p[..k], p[k..]);
    assert p[..k] + p[k..] == p;
  }

  /** `[`, `]` and `,` stop the run with an unimplemented fault whenever
      they are reached, whatever the tape holds. */
  lemma {:induction false} UnimplementedStops(s: State, p: seq<Byte>, k: nat)
    requires WellFormed(s) && k < |p| && IsUnimplemented(p[k])
    requires Run(s, p[..k]).stop.Finished?
    ensures Run(s, p) == Outcome(FaultedAt(Todo(p[k]), k), Run(s, p[..k]).final)
  {
    RunAppend(s, p[..k], p[k..]);
    assert p[..k] + p[k..] == p;
    assert p[k..][0] == p[k];
  }

  /** Bytes that are not instructions change nothing. */
  lemma {:induction false} IgnoredBytes(s: State, p: seq<Byte>)
    requires WellFormed(s)
    requires forall i :: 0 <= i < |p| ==> !IsInstruction(p[i])
    ensures Run(s, p) == Outcome(Finished, s)
    decreases |p|
  {
    if p != [] {
      assert !IsInstruction(p[0]);
      IgnoredBytes(s, p[1..]);
    }
  }

  /** Only `.` writes: a program without `.` leaves the output as it was. */
  lemma {:induction false} OnlyDotWrites(s: State, p: seq<Byte>)
    requires WellFormed(s)
    requires forall i :: 0 <= i < |p| ==> p[i] != Dot
    ensures Run(s, p).final.output == s.output
    decreases |p|
  {
    if p != [] {
      var t := Exec(s, p[0]);
      if t.status.Continue? {
        OnlyDotWrites(t.next, p[1..]);
      }
    }
  }

  /** `n` times `>`: the pointer moves right `n` cells, or the run faults
      at the `>` that would take it past the last cell, with the pointer
      on the last cell. */
  lemma {:induction false} WalkRight(s: State, n: nat)
    requires WellFormed(s)
    ensures s.ptr + n < |s.tape| ==>
      Run(s, Repeat(Gt, n)) == Outcome(Finished, s.(ptr := s.ptr + n))
    ensures s.ptr + n >= |s.tape| ==>
      Run(s, Repeat(Gt, n)) ==
        Outcome(FaultedAt(PointerOutOfBounds, |s.tape| - 1 - s.ptr), s.(ptr := |s.tape| - 1))
    decreases n
  {
    if n > 0 {
      assert Repeat(Gt, n)[0] == Gt && Repeat(Gt, n)[1..] == Repeat(Gt, n - 1);
      if s.ptr + 1 < |s.tape| {
        WalkRight(s.(ptr := s.ptr + 1), n - 1);
      }
    }
  }

  /** `n` times `<`: the pointer moves left `n` cells, or the run faults
      at the `<` read with the pointer on cell 0. */
  lemma {:induction false} WalkLeft(s: State, n: nat)
    requires WellFormed(s)
    ensures n <= s.ptr ==>
      Run(s, Repeat(Lt, n)) == Outcome(Finished, s.(ptr := s.ptr - n))
    ensures n > s.ptr ==>
      Run(s, Repeat(Lt, n)) == Outcome(FaultedAt(PointerOutOfBounds, s.ptr), s.(ptr := 0))
    decreases n
  {
    if n > 0 {
      assert Repeat(Lt, n)[0] == Lt && Repeat(Lt, n)[1..] == Repeat(Lt, n - 1);
      if s.ptr > 0 {
        WalkLeft(s.(ptr := s.ptr - 1), n - 1);
      }
    }
  }

  /** From a fresh tape, `>` read 29,999 times puts the pointer on the last
      cell and one more `>` faults. */
  lemma {:induction false} OffTheEnd()
    ensures Run(Initial(), Repeat(Gt, TapeSize - 1)) ==
      Outcome(Finished, Initial().(ptr := TapeSize - 1))
    ensures Run(Initial(), Repeat(Gt, TapeSize)) ==
      Outcome(FaultedAt(PointerOutOfBounds, TapeSize - 1), Initial().(ptr := TapeSize - 1))
  {
    WalkRight(Initial(), TapeSize - 1);
    WalkRight(Initial(), TapeSize);
  }

  /** `n` times `+` adds `n` to the current cell modulo 256. */
  lemma {:induction false} IncrementRepeated(s: State, n: nat)
    requires WellFormed(s)
    ensures Run(s, Repeat(Plus, n)) ==
      Outcome(Finished, s.(tape := s.tape[s.ptr := (s.tape[s.ptr] + n) % 256]))
    decreases n
  {
    var c := s.tape[s.ptr];
    if n == 0 {
      assert s.tape[s.ptr := c] == s.tape;
    } else {
      assert Repeat(Plus, n)[0] == Plus && Repeat(Plus, n)[1..] == Repeat(Plus, n - 1);
      var s1 := s.(tape := s.tape[s.ptr := Inc(c)]);
      IncrementRepeated(s1, n - 1);
      assert (Inc(c) + (n - 1)) % 256 == (c + n) % 256;
      assert s1.tape[s.ptr := (Inc(c) + (n - 1)) % 256] == s.tape[s.ptr := (c + n) % 256];
    }
  }

  /** `n` times `-` subtracts `n` from the current cell modulo 256. */
  lemma {:induction false} DecrementRepeated(s: State, n: nat)
    requires WellFormed(s)
    ensures Run(s, Repeat(Minus, n)) ==
      Outcome(Finished, s.(tape := s.tape[s.ptr := (s.tape[s.ptr] - n) % 256]))
    decreases n
  {
    var c := s.tape[s.ptr];
    if n == 0 {
      assert s.tape[s.ptr := c] == s.tape;
    } else {
      assert Repeat(Minus, n)[0] == Minus && Repeat(Minus, n)[1..] == Repeat(Minus, n - 1);
      var s1 := s.(tape := s.tape[s.ptr := Dec(c)]);
      DecrementRepeated(s1, n - 1);
      assert (Dec(c) - (n - 1)) % 256 == (c - n) % 256;
      assert s1.tape[s.ptr := (Dec(c) - (n - 1)) % 256] == s.tape[s.ptr := (c - n) % 256];
    }
  }

  /** A cell is an 8-bit counter: 256 times `+`, or 256 times `-`, gives
      back the state it started from. */
  lemma {:induction false} WrapAround(s: State)
    requires WellFormed(s)
    ensures Run(s, Repeat(Plus, 256)) == Outcome(Finished, s)
    ensures Run(s, Repeat(Minus, 256)) == Outcome(Finished, s)
  {
    var c := s.tape[s.ptr];
    IncrementRepeated(s, 256);
    DecrementRepeated(s, 256);
    assert s.tape[s.ptr := c] == s.tape;
  }

  /** `+` and `-` undo each other, wrap-around included. */
  lemma {:induction false} IncrementDecrementInverse(s: State)
    requires WellFormed(s)
    ensures Run(s, [Plus, Minus]) == Outcome(Finished, s)
    ensures Run(s, [Minus, Plus]) == Outcome(Finished, s)
  {
    var c := s.tape[s.ptr];
    var up := s.(tape := s.tape[s.ptr := Inc(c)]);
    var down := s.(tape := s.tape[s.ptr := Dec(c)]);
    assert [Plus, Minus][1..] == [Minus] && [Minus, Plus][1..] == [Plus];
    assert Run(up, [Minus]) == Outcome(Finished, up.(tape := up.tape[s.ptr := Dec(Inc(c))]));
    assert Run(down, [Plus]) == Outcome(Finished, down.(tape := down.tape[s.ptr := Inc(Dec(c))]));
    assert s.tape[s.ptr := Inc(c)][s.ptr := Dec(Inc(c))] == s.tape;
    assert s.tape[s.ptr := Dec(c)][s.ptr := Inc(Dec(c))] == s.tape;
  }

  /** `>` and `<` undo each other wherever neither faults. */
  lemma {:induction false} MoveInverse(s: State)
    requires WellFormed(s)
    ensures s.ptr + 1 < |s.tape| ==> Run(s, [Gt, Lt]) == Outcome(Finished, s)
    ensures s.ptr > 0 ==> Run(s, [Lt, Gt]) == Outcome(Finished, s)
  {
    assert [Gt, Lt][1..] == [Lt] && [Lt, Gt][1..] == [Gt] && [Lt][1..] == [] && [Gt][1..] == [];
    if s.ptr + 1 < |s.tape| {
      var right := s.(ptr := s.ptr + 1);
      assert Run(right, [Lt]) == Outcome(Finished, s);
    }
    if s.ptr > 0 {
      var left := s.(ptr := s.ptr - 1);
      assert Run(left, [Gt]) == Outcome(Finished, s);
    }
  }

  /** `-` on a cell holding 0 gives 255 and changes nothing else: the
      case n = 1, cell 0 of DecrementRepeated. */
  lemma {:induction false} DecrementZero(s: State)
    requires WellFormed(s) && s.tape[s.ptr] == 0
    ensures Run(s, [Minus]) == Outcome(Finished, s.(tape := s.tape[s.ptr := 255]))
  {
    DecrementRepeated(s, 1);
    assert Repeat(Minus, 1) == [Minus];
  }

  /** `++.` on a fresh machine writes out the single value 2. */
  lemma {:induction false} PlusPlusDot()
    ensures Run(Initial(), [Plus, Plus, Dot]).stop == Finished
    ensures Run(Initial(), [Plus, Plus, Dot]).final.output == [2]
  {
    var s0 := Initial();
    var s1 := s0.(tape := s0.tape[0 := 1]);
    var s2 := s0.(tape := s0.tape[0 := 2]);
    assert [Plus, Plus, Dot][1..] == [Plus, Dot] && [Plus, Dot][1..] == [Dot] && [Dot][1..] == [];
    assert Run(s2, [Dot]) == Outcome(Finished, s2.(output := [2]));
    assert Exec(s1, Plus).next == s2 by {
      assert s1.tape[0 := 2] == s0.tape[0 := 2];
    }
    assert Run(s1, [Plus, Dot]) == Run(s2, [Dot]);
    assert Run(s0, [Plus, Plus, Dot]) == Run(s1, [Plus, Dot]);
  }
}
