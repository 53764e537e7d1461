/**
 * What the interpreter of cpu.py guarantees, stated over whole
 * `execute_opcode` steps where the instruction's own address matters, and
 * over a single handler where only the fetched word does.
 */
module Properties {
  import opened Bits
  import opened Opcode
  import opened Machine

  // Fetch, decode and the no-op handlers.

  /** The fetched word decodes into fields that rebuild it, and `Word` inverts the split into bytes. */
  lemma {:induction false} WordRoundTrip(op: nat)
    requires op < 0x10000
    ensures Word((op / 0x100) as byte, (op % 0x100) as byte) == op
    ensures Family(op) == op / 0x1000 && NNN(op) == op % 0x1000
  {
    Reassemble(op);
  }

  /**
   * The words that change nothing but the fetch and the cycle count: a 0NNN
   * other than 00E0/00EE, an 8XYN whose nibble has no handler, every EXNN
   * (`not_handled`), and an FXNN other than FX1E/FX29 (`not_handled` or
   * `unknown_opcode`).
   */
  predicate Inert(op: nat)
  {
    || (Family(op) == 0x0 && op != 0x00E0 && op != 0x00EE)
    || (Family(op) == 0x8 && 0x8 <= N(op) && N(op) != 0xE)
    || Family(op) == 0xE
    || (Family(op) == 0xF && NN(op) != 0x1E && NN(op) != 0x29)
  }

  /** A step over an inert word only loads it, advances pc by 2 and counts the cycle. */
  lemma InertStep(s: State, rand: byte)
    requires WellFormed(s) && s.pc + 1 < MemorySize && Inert(Fetch(s.memory, s.pc))
    ensures CanStep(s.memory, s.pc, s.sp, s.index)
    ensures Step(s, rand) == s.(opcode := Fetch(s.memory, s.pc), pc := s.pc + 2, cycle := s.cycle + 1)
  {
    var op := Fetch(s.memory, s.pc);
    if Family(op) == 0x8 {
      assert N(op) in {0x8, 0x9, 0xA, 0xB, 0xC, 0xD, 0xF};
    }
  }

  /** Two inert words in a row: each step adds only its own 2 to pc and 1 to the cycle count. */
  lemma InertTwice(s: State, r1: byte, r2: byte)
    requires WellFormed(s) && s.pc + 3 < MemorySize
    requires Inert(Fetch(s.memory, s.pc)) && Inert(Fetch(s.memory, s.pc + 2))
    ensures CanStep(s.memory, s.pc, s.sp, s.index)
    ensures var t := Step(s, r1);
      && CanStep(t.memory, t.pc, t.sp, t.index)
      && Step(t, r2) == s.(opcode := Fetch(s.memory, s.pc + 2), pc := s.pc + 4, cycle := s.cycle + 2)
  {
    InertStep(s, r1);
    InertStep(Step(s, r1), r2);
  }

  // Control flow.

  /**
   * 1NNN moves pc to NNN and clears `running` exactly when NNN is the
   * address the jump itself was fetched from; nothing else changes.
   */
  lemma JumpStep(s: State, rand: byte)
    requires WellFormed(s) && s.pc + 1 < MemorySize && Family(Fetch(s.memory, s.pc)) == 0x1
    ensures CanStep(s.memory, s.pc, s.sp, s.index)
    ensures var op := Fetch(s.memory, s.pc);
      Step(s, rand) == s.(opcode := op, pc := NNN(op), running := s.running && NNN(op) != s.pc,
                          cycle := s.cycle + 1)
  {
  }

  /** A jump to its own address stops the machine and stays put, step after step. */
  lemma {:induction false} SelfJumpHalts(s: State, r1: byte, r2: byte)
    requires WellFormed(s) && s.pc + 1 < MemorySize && Fetch(s.memory, s.pc) == 0x1000 + s.pc
    ensures CanStep(s.memory, s.pc, s.sp, s.index)
    ensures var t := Step(s, r1);
      && !t.running && t.pc == s.pc
      && CanStep(t.memory, t.pc, t.sp, t.index)
      && !Step(t, r2).running && Step(t, r2).pc == s.pc
  {
    var op := Fetch(s.memory, s.pc);
    assert Family(op) == 0x1 && NNN(op) == s.pc by {
      Reassemble(op);
    }
    JumpStep(s, r1);
    JumpStep(Step(s, r1), r2);
  }

  /**
   * 2NNN pushes the already advanced pc and jumps; a 00EE run next pops it:
   * pc, sp and every other field but the slot written come back.
   */
  lemma CallThenReturn(s: State)
    requires WellFormed(s) && s.sp < StackSize && Family(s.opcode) == 0x2
    ensures var called := Subroutine(s);
      && called.pc == NNN(s.opcode) && called.sp == s.sp + 1
      && ClearReturn(called.(opcode := 0x00EE)) == s.(opcode := 0x00EE, stack := s.stack[s.sp := s.pc])
  {
  }

  /**
   * 3XNN, 4XNN, 5XY0 and 9XY0 move pc past the next word (4 bytes on from
   * their own address) exactly when their comparison holds, and past
   * themselves only (2 bytes) otherwise; nothing else changes.
   */
  lemma SkipStep(s: State, rand: byte)
    requires WellFormed(s) && s.pc + 1 < MemorySize
    requires Family(Fetch(s.memory, s.pc)) in {0x3, 0x4, 0x5, 0x9}
    ensures CanStep(s.memory, s.pc, s.sp, s.index)
    ensures var op := Fetch(s.memory, s.pc);
      var vx, vy := s.V[X(op)], s.V[Y(op)];
      var taken := match Family(op)
        case 0x3 => vx == NN(op)
        case 0x4 => vx != NN(op)
        case 0x5 => vx == vy
        case _ => vx != vy;
      Step(s, rand) == s.(opcode := op, pc := s.pc + (if taken then 4 else 2), cycle := s.cycle + 1)
  {
    var f := Fetched(s);
    var done := match Family(f.opcode)
      case 0x3 => SkipIfEqual(f)
      case 0x4 => SkipIfNotEqual(f)
      case 0x5 => SkipIfRegisterEqual(f)
      case _ => SkipIfRegisterNotEqual(f);
    assert Execute(f, rand) == done;
  }

  /** BNNN jumps to V0 + NNN with no bound: the target can lie past memory. */
  lemma JumpPlusUnbounded(s: State)
    requires WellFormed(s) && Family(s.opcode) == 0xB && s.V[0] + NNN(s.opcode) + 1 >= MemorySize
    ensures JumpPlus(s).pc == s.V[0] + NNN(s.opcode)
    ensures !CanStep(JumpPlus(s).memory, JumpPlus(s).pc, s.sp, s.index)
  {
  }

  // Registers.

  /** 6XNN loads NN into VX and leaves every other register alone. */
  lemma LoadImmediate(s: State)
    requires WellFormed(s) && Family(s.opcode) == 0x6
    ensures var r := MovValToReg(s);
      && r.V[X(s.opcode)] == And(s.opcode, 0x00FF)
      && (forall i :: 0 <= i < RegisterCount && i != X(s.opcode) ==> r.V[i] == s.V[i])
      && r == s.(V := r.V)
  {
    FieldsAreMasks(s.opcode);
  }

  /**
   * 7XNN adds NN to the byte in VX and wraps at 256: the result is a byte
   * that differs from the true sum by 0 or 256. VF is untouched unless it is
   * VX, and so is every other register.
   */
  lemma AddImmediate(s: State)
    requires WellFormed(s) && Family(s.opcode) == 0x7 && s.V[X(s.opcode)] < 256
    ensures var r := AddValToReg(s); var x := X(s.opcode); var sum := s.V[x] + NN(s.opcode);
      && r.V[x] < 256
      && (r.V[x] == sum || r.V[x] + 256 == sum)
      && (r.V[x] == sum <==> sum < 256)
      && (forall i :: 0 <= i < RegisterCount && i != x ==> r.V[i] == s.V[i])
      && r == s.(V := r.V)
  {
  }

  /**
   * 8XY4 on bytes with X other than F: VX and VF together hold the full sum
   * (VF as the 256s digit) for every sum except exactly 256, where the
   * `> 256` test reports no carry and the 256 is lost.
   */
  lemma AddCarry(s: State)
    requires WellFormed(s) && X(s.opcode) != Flag
    requires s.V[X(s.opcode)] < 256 && s.V[Y(s.opcode)] < 256
    ensures var r := AddRegToReg(s); var x := X(s.opcode); var sum := s.V[x] + s.V[Y(s.opcode)];
      && r.V[x] < 256 && r.V[Flag] <= 1
      && (r.V[x] + 256 * r.V[Flag] == sum <==> sum != 256)
      && (sum == 256 ==> r.V[x] == 0 && r.V[Flag] == 0)
      && (forall i :: 0 <= i < RegisterCount && i != x && i != Flag ==> r.V[i] == s.V[i])
  {
    var x := X(s.opcode);
    var sum := s.V[x] + s.V[Y(s.opcode)];
    if sum >= 256 {
      DivModUnique(sum, 256, 1, sum - 256);
    }
  }

  /**
   * 8XY4 on any register values with X other than F: VF is 1 exactly when the
   * sum is strictly above 256, so a sum of exactly 256 reports no carry, and VX
   * always receives the sum modulo 256.
   */
  lemma AddCarryFlag(s: State)
    requires WellFormed(s) && X(s.opcode) != Flag
    ensures var r := AddRegToReg(s); var x := X(s.opcode); var sum := s.V[x] + s.V[Y(s.opcode)];
      && (r.V[Flag] == 1 <==> sum > 256) && r.V[Flag] <= 1
      && r.V[x] == sum % 256
  {
  }

  /**
   * 8XY5 on bytes with X other than F: VF is 1 exactly when VX was strictly
   * greater than VY (equal operands give 0), and adding VY back to the new
   * VX, modulo 256, gives the old VX.
   */
  lemma SubtractBorrow(s: State)
    requires WellFormed(s) && X(s.opcode) != Flag
    requires s.V[X(s.opcode)] < 256 && s.V[Y(s.opcode)] < 256
    ensures var r := SubYFromX(s); var x, y := X(s.opcode), Y(s.opcode);
      && r.V[x] < 256
      && (r.V[Flag] == 1 <==> s.V[x] > s.V[y]) && r.V[Flag] <= 1
      && (r.V[x] + s.V[y]) % 256 == s.V[x]
      && (forall i :: 0 <= i < RegisterCount && i != x && i != Flag ==> r.V[i] == s.V[i])
  {
    var x, y := X(s.opcode), Y(s.opcode);
    var d := s.V[x] as int - s.V[y];
    assert SubYFromX(s).V[x] == d % 256;
    if d < 0 {
      DivModUnique(d, 256, -1, d + 256);
      DivModUnique(d + 256 + s.V[y], 256, 1, s.V[x]);
    } else {
      DivModUnique(d, 256, 0, d);
      DivModUnique(d + s.V[y], 256, 0, s.V[x]);
    }
  }

  /**
   * 8XY5 on any register values with X other than F: VF is 1 exactly when VX
   * exceeds VY, and VX receives the difference modulo 256.
   */
  lemma SubtractFlag(s: State)
    requires WellFormed(s) && X(s.opcode) != Flag
    ensures var r := SubYFromX(s); var x, y := X(s.opcode), Y(s.opcode);
      && (r.V[Flag] == 1 <==> s.V[x] > s.V[y]) && r.V[Flag] <= 1
      && r.V[x] == (s.V[x] as int - s.V[y]) % 256
  {
  }

  /**
   * 8XY7 on bytes with X other than F: VF is 1 exactly when VY was strictly
   * greater than VX, and adding the old VX back to the new VX, modulo 256,
   * gives VY.
   */
  lemma ReverseSubtractBorrow(s: State)
    requires WellFormed(s) && X(s.opcode) != Flag
    requires s.V[X(s.opcode)] < 256 && s.V[Y(s.opcode)] < 256
    ensures var r := SubXFromY(s); var x, y := X(s.opcode), Y(s.opcode);
      && r.V[x] < 256
      && (r.V[Flag] == 1 <==> s.V[y] > s.V[x]) && r.V[Flag] <= 1
      && (r.V[x] + s.V[x]) % 256 == s.V[y]
      && (forall i :: 0 <= i < RegisterCount && i != x && i != Flag ==> r.V[i] == s.V[i])
  {
    var x, y := X(s.opcode), Y(s.opcode);
    var d := s.V[y] as int - s.V[x];
    assert SubXFromY(s).V[x] == d % 256;
    if d < 0 {
      DivModUnique(d, 256, -1, d + 256);
      DivModUnique(d + 256 + s.V[x], 256, 1, s.V[y]);
    } else {
      DivModUnique(d, 256, 0, d);
      DivModUnique(d + s.V[x], 256, 0, s.V[y]);
    }
  }

  /**
   * 8XY7 on any register values with X other than F: VF is 1 exactly when VY
   * exceeds VX, and VX receives the difference modulo 256.
   */
  lemma ReverseSubtractFlag(s: State)
    requires WellFormed(s) && X(s.opcode) != Flag
    ensures var r := SubXFromY(s); var x, y := X(s.opcode), Y(s.opcode);
      && (r.V[Flag] == 1 <==> s.V[y] > s.V[x]) && r.V[Flag] <= 1
      && r.V[x] == (s.V[y] as int - s.V[x]) % 256
  {
  }

  /**
   * With X other than F, 8XY4, 8XY5 and 8XY7 write VF before VX; with X
   * equal to F the result lands in VF and the flag is lost.
   */
  lemma FlagTargetKeepsResult(s: State)
    requires WellFormed(s) && X(s.opcode) == Flag
    ensures AddRegToReg(s).V[Flag] == (s.V[Flag] + s.V[Y(s.opcode)]) % 256
    ensures SubYFromX(s).V[Flag] == (s.V[Flag] as int - s.V[Y(s.opcode)]) % 256
    ensures SubXFromY(s).V[Flag] == (s.V[Y(s.opcode)] as int - s.V[Flag]) % 256
  {
  }

  /**
   * 8XY6 with X other than F splits VX into its halves: VF receives the low
   * bit shifted out and twice the new VX plus VF gives back the old VX.
   */
  lemma ShiftRightSplits(s: State)
    requires WellFormed(s) && X(s.opcode) != Flag
    ensures var r := ShiftRight(s); var x := X(s.opcode);
      && r.V[Flag] == s.V[x] % 2
      && 2 * r.V[x] + r.V[Flag] == s.V[x]
      && (forall i :: 0 <= i < RegisterCount && i != x && i != Flag ==> r.V[i] == s.V[i])
  {
    LowMask(s.V[X(s.opcode)], 1);
  }

  /**
   * 8XYE with X other than F: VF receives bit 7 of VX and VX is doubled with
   * no mask, so a byte at or above 0x80 leaves a register that is no longer
   * a byte.
   */
  lemma ShiftLeftDoubles(s: State)
    requires WellFormed(s) && X(s.opcode) != Flag
    ensures var r := ShiftLeft(s); var x := X(s.opcode);
      && r.V[Flag] == Bit(s.V[x], 7)
      && r.V[x] == 2 * s.V[x]
      && (s.V[x] < 256 ==> (r.V[x] >= 256 <==> r.V[Flag] == 1))
      && (forall i :: 0 <= i < RegisterCount && i != x && i != Flag ==> r.V[i] == s.V[i])
  {
    var v := s.V[X(s.opcode)];
    ShiftedTopBit(v, 0);
    if v < 256 {
      assert Pow2(7) == 128;
      DivModUnique(v, 128, v / 128, v % 128);
    }
  }

  /**
   * 8FY6 and 8FYE shift the flag just written rather than the old VF:
   * 8FY6 always leaves 0 in VF, 8FYE leaves twice the old bit 7.
   */
  lemma ShiftFlagRegister(s: State)
    requires WellFormed(s) && X(s.opcode) == Flag
    ensures ShiftRight(s).V[Flag] == 0
    ensures ShiftLeft(s).V[Flag] == 2 * Bit(s.V[Flag], 7)
  {
    ShiftedTopBit(s.V[Flag], 0);
  }

  /** 8XY3 applied twice with X other than Y gives back the original state. */
  lemma XorTwice(s: State)
    requires WellFormed(s) && X(s.opcode) != Y(s.opcode)
    ensures BitwiseXor(BitwiseXor(s)) == s
  {
    var x, y := X(s.opcode), Y(s.opcode);
    XorInvolution(s.V[x], s.V[y]);
    assert BitwiseXor(BitwiseXor(s)).V == s.V;
  }

  /** 8XY0 followed by 8XY3 on the same registers clears VX. */
  lemma CopyThenXorClears(s: State)
    requires WellFormed(s)
    ensures BitwiseXor(CopyRegToReg(s)).V[X(s.opcode)] == 0
  {
    XorSelf(s.V[Y(s.opcode)]);
  }

  /**
   * 8XY1, 8XY2, 8XY3 and CXNN combine their operands bit by bit: each bit of
   * the new VX is the OR, AND or XOR of the same bit of the operands.
   */
  lemma BitwiseBits(s: State, rand: byte, k: nat)
    requires WellFormed(s)
    ensures var x := X(s.opcode); var a, b := s.V[x], s.V[Y(s.opcode)];
      && Bit(BitwiseOr(s).V[x], k) == (if Bit(a, k) == 1 || Bit(b, k) == 1 then 1 else 0)
      && Bit(BitwiseAnd(s).V[x], k) == (if Bit(a, k) == 1 && Bit(b, k) == 1 then 1 else 0)
      && Bit(BitwiseXor(s).V[x], k) == (if Bit(a, k) != Bit(b, k) then 1 else 0)
      && Bit(RandomNumberGen(s, rand).V[x], k) ==
           (if Bit(rand as nat, k) == 1 && Bit(NN(s.opcode), k) == 1 then 1 else 0)
  {
    var a, b := s.V[X(s.opcode)], s.V[Y(s.opcode)];
    OrBit(a, b, k);
    AndBit(a, b, k);
    XorBit(a, b, k);
    AndBit(rand as nat, NN(s.opcode), k);
  }

  /** CXNN stores a value that is at most the random byte and at most NN; mask 0xFF keeps the byte whole. */
  lemma RandomMasked(s: State, rand: byte)
    requires WellFormed(s)
    ensures var v := RandomNumberGen(s, rand).V[X(s.opcode)];
      && v <= rand as nat && v <= NN(s.opcode)
      && (NN(s.opcode) == 0xFF ==> v == rand as nat)
      && (NN(s.opcode) == 0 ==> v == 0)
  {
    var nn, v := NN(s.opcode), And(rand as nat, NN(s.opcode));
    assert RandomNumberGen(s, rand).V[X(s.opcode)] == v;
    if nn == 0xFF {
      FullByteMask(rand as nat);
    }
  }

  /** Every register holds a byte. */
  ghost predicate ByteRegisters(s: State)
    requires WellFormed(s)
  {
    forall i :: 0 <= i < RegisterCount ==> s.V[i] < 256
  }

  /** The registers `__init__` sets up are bytes, the base case for StepKeepsBytes. */
  lemma InitByteRegisters()
    ensures ByteRegisters(Init())
  {
  }

  /**
   * Registers that hold bytes still hold bytes after any step except 8XYE,
   * the one handler that does not reduce its result.
   */
  lemma StepKeepsBytes(s: State, rand: byte)
    requires WellFormed(s) && CanStep(s.memory, s.pc, s.sp, s.index) && ByteRegisters(s)
    requires !(Family(Fetch(s.memory, s.pc)) == 0x8 && N(Fetch(s.memory, s.pc)) == 0xE)
    ensures ByteRegisters(Step(s, rand))
  {
    var f := Fetched(s);
    var op := f.opcode;
    var a, b := s.V[X(op)], s.V[Y(op)];
    assert Pow2(8) == 256;
    if Family(op) == 0x8 {
      if N(op) == 0x1 {
        OrBound(a, b, 8);
      } else if N(op) == 0x3 {
        XorBound(a, b, 8);
      } else if N(op) == 0x6 {
        assert And(a, 1) <= 1;
      }
    }
  }

  /** Registers leave the byte range after 8XYE on 0xFF: the shift yields 0x1FE. */
  lemma ShiftLeftLeavesBytes(s: State)
    requires WellFormed(s) && X(s.opcode) != Flag && s.V[X(s.opcode)] == 0xFF
    ensures !ByteRegisters(ShiftLeft(s)) && ShiftLeft(s).V[X(s.opcode)] == 0x1FE
  {
    assert ShiftLeft(s).V[X(s.opcode)] == 0x1FE;
  }

  // Index register.

  /**
   * ANNN loads `opcode & 0x0FFF` into I and changes nothing else. I is at
   * most the memory size 0xFFF, so ANFFF points one past the last cell.
   */
  lemma SetIndex(s: State)
    requires WellFormed(s)
    ensures var r := SetI(s);
      && r.index == And(s.opcode, 0x0FFF) && r.index <= MemorySize
      && r == s.(index := r.index)
  {
    FieldsAreMasks(s.opcode);
  }

  /** FX1E reduces modulo 0xFF, so I stays below 255 and a sum of exactly 0xFF wraps to 0. */
  lemma AddToIndexWraps(s: State)
    requires WellFormed(s)
    ensures AddRegToI(s).index < 0xFF
    ensures s.V[X(s.opcode)] + s.index < 0xFF ==> AddRegToI(s).index == s.V[X(s.opcode)] + s.index
    ensures s.V[X(s.opcode)] + s.index == 0xFF ==> AddRegToI(s).index == 0
  {
  }

  /**
   * FX29 points I at the five-byte glyph of the nibble X itself (not of the
   * value in VX); the glyph lies inside the first 0x50 bytes of memory.
   */
  lemma FontGlyph(s: State)
    requires WellFormed(s)
    ensures AddRegToI(s).V == s.V
    ensures SetFont(s).index == X(s.opcode) * GlyphSize
    ensures SetFont(s).index + GlyphSize <= 0x50
    ensures SetFont(s) == s.(index := SetFont(s).index)
  {
  }

  // Screen.

  /** After 00E0 every cell is dark and everything else is as before. */
  lemma ClearScreen(s: State)
    requires WellFormed(s) && s.opcode == 0x00E0
    ensures var r := ClearReturn(s);
      && (forall y, x :: 0 <= y < Rows && 0 <= x < Cols ==> r.gfx[y][x] == 0)
      && r == s.(gfx := r.gfx)
  {
  }

  /** DXYN puts bit 7 - w of sprite row h on cell ((VY + h) mod 32, (VX + w) mod 64), wrapping both edges. */
  lemma DrawnCell(s: State, h: nat, w: nat)
    requires WellFormed(s) && SpriteInMemory(s.index, N(s.opcode)) && h < N(s.opcode) && w < 8
    ensures Draw(s).gfx[TargetRow(s, h)][TargetCol(s, w)] == SpritePixel(s, h, w)
  {
    WrapBack(s.V[Y(s.opcode)], h, Rows);
    WrapBack(s.V[X(s.opcode)], w, Cols);
  }

  /** A cell that changes under DXYN is the target of some sprite pixel. */
  lemma DrawLeavesOthers(s: State, y: nat, x: nat)
    requires WellFormed(s) && SpriteInMemory(s.index, N(s.opcode)) && y < Rows && x < Cols
    ensures Draw(s).gfx[y][x] != s.gfx[y][x] ==>
      exists h, w :: 0 <= h < N(s.opcode) && 0 <= w < 8 && TargetRow(s, h) == y && TargetCol(s, w) == x
  {
    if Covers(s, y, x) {
      var h, w := SpriteRowOf(s, y), SpriteColOf(s, x);
      WrapForward(s.V[Y(s.opcode)], y, Rows);
      WrapForward(s.V[X(s.opcode)], x, Cols);
      assert TargetRow(s, h) == y && TargetCol(s, w) == x;
    }
  }

  /**
   * VF after DXYN with N > 0 is 1 exactly when a 1-bit of the sprite landed
   * on a lit cell; with N = 0 no register changes.
   */
  lemma DrawFlag(s: State)
    requires WellFormed(s) && SpriteInMemory(s.index, N(s.opcode))
    ensures N(s.opcode) == 0 ==> Draw(s).V == s.V
    ensures N(s.opcode) > 0 ==>
      && (Draw(s).V[Flag] == 1 <==>
           exists h, w :: 0 <= h < N(s.opcode) && 0 <= w < 8 && SpritePixel(s, h, w) == 1 &&
             s.gfx[TargetRow(s, h)][TargetCol(s, w)] == 1)
      && Draw(s).V[Flag] <= 1
      && forall i :: 0 <= i < Flag ==> Draw(s).V[i] == s.V[i]
  {
    if N(s.opcode) > 0 && Collides(s) {
      var h: nat, w: nat :| h < N(s.opcode) && w < 8 && Hit(s, h, w);
      assert SpritePixel(s, h, w) == 1 && s.gfx[TargetRow(s, h)][TargetCol(s, w)] == 1;
    }
    if exists h, w :: 0 <= h < N(s.opcode) && 0 <= w < 8 && SpritePixel(s, h, w) == 1 &&
         s.gfx[TargetRow(s, h)][TargetCol(s, w)] == 1 {
      var h, w :| 0 <= h < N(s.opcode) && 0 <= w < 8 && SpritePixel(s, h, w) == 1 &&
         s.gfx[TargetRow(s, h)][TargetCol(s, w)] == 1;
      assert Hit(s, h, w);
    }
  }

  /** A draw on a dark screen reports no collision. */
  lemma DrawOnBlank(s: State)
    requires WellFormed(s) && SpriteInMemory(s.index, N(s.opcode)) && s.gfx == Blank() && N(s.opcode) > 0
    ensures Draw(s).V[Flag] == 0
  {
  }

  /**
   * Drawing the same sprite twice, with neither coordinate register being
   * VF: the second draw leaves the screen as the first left it, and reports
   * a collision exactly when the sprite has a 1-bit.
   */
  lemma DrawTwice(s: State)
    requires WellFormed(s) && SpriteInMemory(s.index, N(s.opcode)) && N(s.opcode) > 0
    requires X(s.opcode) != Flag && Y(s.opcode) != Flag
    ensures Draw(Draw(s)).gfx == Draw(s).gfx
    ensures Draw(Draw(s)).V[Flag] == 1 <==>
      exists h, w :: 0 <= h < N(s.opcode) && 0 <= w < 8 && SpritePixel(s, h, w) == 1
  {
    var t := Draw(s);
    assert t.V[X(s.opcode)] == s.V[X(s.opcode)] && t.V[Y(s.opcode)] == s.V[Y(s.opcode)];
    forall y | 0 <= y < Rows
      ensures Draw(t).gfx[y] == t.gfx[y]
    {
      forall x | 0 <= x < Cols
        ensures Draw(t).gfx[y][x] == t.gfx[y][x]
      {
        assert Covers(t, y, x) == Covers(s, y, x);
      }
    }
    forall h, w | 0 <= h < N(s.opcode) && 0 <= w < 8
      ensures Hit(t, h, w) <==> SpritePixel(s, h, w) == 1
    {
      DrawnCell(s, h, w);
    }
    if exists h, w :: 0 <= h < N(s.opcode) && 0 <= w < 8 && SpritePixel(s, h, w) == 1 {
      var h, w :| 0 <= h < N(s.opcode) && 0 <= w < 8 && SpritePixel(s, h, w) == 1;
      assert Hit(t, h, w);
    }
  }

  // Loading.

  /** An image loaded at 0x200 is the first word `execute_opcode` fetches. */
  lemma LoadThenFetch(memory: seq<byte>, image: seq<byte>)
    requires |memory| == MemorySize && 2 <= |image| && ProgramStart + |image| <= MemorySize
    ensures Fetch(Load(memory, image, ProgramStart), ProgramStart)
            == image[0] as nat * 0x100 + image[1] as nat
  {
  }

  /** Loading the same image twice is loading it once, and loading reads back. */
  lemma LoadIdempotent(memory: seq<byte>, image: seq<byte>, offset: nat)
    requires offset + |image| <= |memory|
    ensures Load(Load(memory, image, offset), image, offset) == Load(memory, image, offset)
    ensures Load(memory, image, offset)[offset..offset + |image|] == image
  {
    var once := Load(memory, image, offset);
    assert Load(once, image, offset) == once;
    assert once[offset..offset + |image|] == image;
  }

  // Worked examples.

  /** 200 + 100 carries (VX = 44, VF = 1); 10 + 20 does not; 1 + 255 loses its carry. */
  lemma CarryExamples(s: State)
    requires WellFormed(s) && s.opcode == 0x8014
    ensures s.V[0] == 200 && s.V[1] == 100 ==> AddRegToReg(s).V[0] == 44 && AddRegToReg(s).V[Flag] == 1
    ensures s.V[0] == 10 && s.V[1] == 20 ==> AddRegToReg(s).V[0] == 30 && AddRegToReg(s).V[Flag] == 0
    ensures s.V[0] == 1 && s.V[1] == 255 ==> AddRegToReg(s).V[0] == 0 && AddRegToReg(s).V[Flag] == 0
  {
  }

  /** 5 - 3 gives 2 with VF = 1; 3 - 5 gives 254 with VF = 0. */
  lemma BorrowExamples(s: State)
    requires WellFormed(s) && s.opcode == 0x8015
    ensures s.V[0] == 5 && s.V[1] == 3 ==> SubYFromX(s).V[0] == 2 && SubYFromX(s).V[Flag] == 1
    ensures s.V[0] == 3 && s.V[1] == 5 ==> SubYFromX(s).V[0] == 254 && SubYFromX(s).V[Flag] == 0
  {
  }

  /** 0x3242 with V2 = 0x42 skips: pc ends 4 past the skip's address. */
  lemma SkipExample(s: State, rand: byte)
    requires WellFormed(s) && s.pc + 1 < MemorySize
    requires s.memory[s.pc] == 0x32 && s.memory[s.pc + 1] == 0x42
    ensures CanStep(s.memory, s.pc, s.sp, s.index)
    ensures Step(s, rand).pc == if s.V[2] == 0x42 then s.pc + 4 else s.pc + 2
  {
    SkipStep(s, rand);
  }

  /** F529 points I at address 25. */
  lemma FontExample(s: State)
    requires WellFormed(s) && s.opcode == 0xF529
    ensures SetFont(s).index == 25
  {
  }
}
