/**
 * The class `C8cpu` of cpu.py: the interpreter's fields updated in place by
 * one method per opcode handler. Every method is proved to leave the object
 * in the state the matching function of module Machine computes from the
 * state before the call.
 */
module Cpu {
  import opened Bits
  import opened Opcode
  import opened Machine

  // Loop specification of `draw`: what the nested pixel loops have done
  // once they stand at sprite row h, column w.

  /** Cell (y, x) lies under a sprite pixel the loops have already written. */
  ghost predicate Drawn(s: State, y: int, x: int, h: nat, w: nat)
    requires WellFormed(s)
  {
    Covers(s, y, x) && (SpriteRowOf(s, y) < h || (SpriteRowOf(s, y) == h && SpriteColOf(s, x) < w))
  }

  /** A collision at one of the sprite pixels the loops have already visited. */
  ghost predicate HitBefore(s: State, h: nat, w: nat)
    requires WellFormed(s) && SpriteInMemory(s.index, N(s.opcode))
  {
    exists h': nat, w': nat :: h' < N(s.opcode) && w' < 8 && (h' < h || (h' == h && w' < w)) && Hit(s, h', w')
  }

  /** Visiting sprite pixel (h, w) writes exactly its own cell, with that pixel's bit. */
  lemma VisitPixel(s: State, y: int, x: int, h: nat, w: nat)
    requires WellFormed(s) && SpriteInMemory(s.index, N(s.opcode))
    requires 0 <= y < Rows && 0 <= x < Cols && h < N(s.opcode) && w < 8
    ensures var cy, cx := (s.V[Y(s.opcode)] + h) % Rows, (s.V[X(s.opcode)] + w) % Cols;
      && Drawn(s, y, x, h, w + 1) == (Drawn(s, y, x, h, w) || (y == cy && x == cx))
      && (y == cy && x == cx ==> !Drawn(s, y, x, h, w) && DrawnPixel(s, y, x) == SpriteBit(s.memory[s.index + h], w))
  {
    var vy, vx := s.V[Y(s.opcode)], s.V[X(s.opcode)];
    WrapBack(vy, h, Rows);
    WrapBack(vx, w, Cols);
    WrapForward(vy, y, Rows);
    WrapForward(vx, x, Cols);
  }

  lemma DoubleShift(b: nat, w: nat)
    ensures b * Pow2(w) * 2 == b * Pow2(w + 1)
  {
    MulAssoc(b, Pow2(w), 2);
  }

  lemma HitBeforeStep(s: State, h: nat, w: nat)
    requires WellFormed(s) && SpriteInMemory(s.index, N(s.opcode))
    requires h < N(s.opcode) && w < 8
    ensures HitBefore(s, h, w + 1) == (HitBefore(s, h, w) || Hit(s, h, w))
  {
    if Hit(s, h, w) {
      assert HitBefore(s, h, w + 1);
    }
  }

  lemma HitBeforeRow(s: State, h: nat)
    requires WellFormed(s) && SpriteInMemory(s.index, N(s.opcode))
    ensures HitBefore(s, h, 8) == HitBefore(s, h + 1, 0)
  {
  }

  /** Cell (y, x) of the framebuffer once the loops stand at sprite row h, column w. */
  ghost function PartialPixel(s: State, h: nat, w: nat, y: int, x: int): bit
    requires WellFormed(s) && SpriteInMemory(s.index, N(s.opcode))
    requires 0 <= y < Rows && 0 <= x < Cols
  {
    if Drawn(s, y, x, h, w) then DrawnPixel(s, y, x) else s.gfx[y][x]
  }

  /** The framebuffer array is the one the loops have produced so far. */
  ghost predicate ShowsPartial(g: array2<bit>, s: State, h: nat, w: nat)
    reads g
    requires WellFormed(s) && SpriteInMemory(s.index, N(s.opcode))
    requires g.Length0 == Rows && g.Length1 == Cols
  {
    forall y, x :: 0 <= y < Rows && 0 <= x < Cols ==> g[y, x] == PartialPixel(s, h, w, y, x)
  }

  /** A framebuffer array as rows of cells, `gfx[y][x]` in cpu.py. */
  ghost function Cells(g: array2<bit>): (c: seq<seq<bit>>)
    reads g
    ensures |c| == g.Length0
    ensures forall y :: 0 <= y < g.Length0 ==> |c[y]| == g.Length1
  {
    seq(g.Length0, (y: int) requires 0 <= y < g.Length0 reads g =>
      seq(g.Length1, (x: int) requires 0 <= x < g.Length1 reads g => g[y, x]))
  }

  /** The framebuffer array holds `rows` cell for cell. */
  ghost predicate Shows(g: array2<bit>, rows: seq<seq<bit>>)
    reads g
  {
    && |rows| == g.Length0
    && (forall y :: 0 <= y < g.Length0 ==> |rows[y]| == g.Length1)
    && forall y, x :: 0 <= y < g.Length0 && 0 <= x < g.Length1 ==> g[y, x] == rows[y][x]
  }

  /** Two framebuffers with the same cells read as the same rows. */
  lemma CellsAre(g: array2<bit>, rows: seq<seq<bit>>)
    requires Shows(g, rows)
    ensures Cells(g) == rows
  {
    forall y | 0 <= y < g.Length0
      ensures Cells(g)[y] == rows[y]
    {
    }
  }

  class C8cpu {
    var opcode: nat
    var memory: array<byte>
    var V: array<nat>
    var index: nat
    var pc: nat
    var stack: array<nat>
    var sp: nat
    var gfx: array2<bit>
    var running: bool
    var cycle: nat

    /** The sizes `__init__` allocates; V and stack are distinct lists. */
    ghost predicate Valid()
      reads this
    {
      && memory.Length == MemorySize
      && V.Length == RegisterCount
      && stack.Length == StackSize
      && V != stack
      && sp <= StackSize
      && gfx.Length0 == Rows
      && gfx.Length1 == Cols
    }

    /** The object's fields as a Machine.State value. */
    ghost function Snapshot(): (s: State)
      reads this, memory, V, stack, gfx
      ensures Valid() ==> WellFormed(s)
    {
      State(opcode, memory[..], V[..], index, pc, stack[..], sp, Cells(gfx), running, cycle)
    }

    /** `__init__`: zeroed memory, registers, stack and screen; pc at 0x200. */
    constructor ()
      ensures Valid() && Snapshot() == Init()
      ensures fresh(memory) && fresh(V) && fresh(stack) && fresh(gfx)
    {
      opcode := 0;
      memory := new byte[MemorySize](_ => 0);
      V := new nat[RegisterCount](_ => 0);
      index := 0;
      pc := ProgramStart;
      stack := new nat[StackSize](_ => 0);
      sp := 0;
      gfx := new bit[Rows, Cols]((_, _) => 0);
      running := true;
      cycle := 0;
      new;
      CellsAre(gfx, Blank());
      assert memory[..] == Init().memory;
      assert V[..] == Init().V;
      assert stack[..] == Init().stack;
    }

    /** `execute_opcode`: fetch the big-endian word at pc, advance pc, dispatch, count. */
    method ExecuteOpcode(rand: byte)
      requires Valid() && CanStep(memory[..], pc, sp, index)
      modifies this, V, stack, gfx
      ensures Valid() && Snapshot() == Step(old(Snapshot()), rand)
      ensures memory == old(memory) && V == old(V) && stack == old(stack) && (gfx == old(gfx) || fresh(gfx))
    {
      ghost var s0 := Snapshot();
      opcode := memory[pc] as nat * 0x100 + memory[pc + 1] as nat;
      pc := pc + 2;
      assert Snapshot() == Fetched(s0);
      Dispatch(rand);
      ghost var done := Snapshot();
      cycle := cycle + 1;
      assert Snapshot() == done.(cycle := done.cycle + 1);
    }

    /** The `opcode_lookup` table of `execute_opcode`: one handler per first nibble. */
    method Dispatch(rand: byte)
      requires Valid() && HandlerDefined(opcode, sp, index)
      modifies this, V, stack, gfx
      ensures Valid() && Snapshot() == Execute(old(Snapshot()), rand)
      ensures memory == old(memory) && V == old(V) && stack == old(stack) && (gfx == old(gfx) || fresh(gfx))
    {
      match Family(opcode)
      case 0x0 => ClearReturn();
      case 0x1 => Jump();
      case 0x2 => Subroutine();
      case 0x3 => SkipIfEqual();
      case 0x4 => SkipIfNotEqual();
      case 0x5 => SkipIfRegisterEqual();
      case 0x6 => MovValToReg();
      case 0x7 => AddValToReg();
      case 0x8 => ExecuteEightsOpcode();
      case 0x9 => SkipIfRegisterNotEqual();
      case 0xA => SetI();
      case 0xB => JumpPlus();
      case 0xC => RandomNumberGen(rand);
      case 0xD => Draw();
      case 0xE => NotHandled();
      case _ => ExecuteFOpcode();
    }

    /** Reports an unimplemented opcode; changes nothing. */
    method NotHandled()
      requires Valid()
      ensures Snapshot() == old(Snapshot())
    {
    }

    /** Reports an illegal opcode; changes nothing. */
    method UnknownOpcode()
      requires Valid()
      ensures Snapshot() == old(Snapshot())
    {
    }

    /** 00E0 / 00EE */
    method ClearReturn()
      requires Valid() && (opcode == 0x00EE ==> 0 < sp)
      modifies this
      ensures Valid() && Snapshot() == Machine.ClearReturn(old(Snapshot()))
      ensures memory == old(memory) && V == old(V) && stack == old(stack) && (gfx == old(gfx) || fresh(gfx))
    {
      if opcode == 0x00E0 {
        gfx := new bit[Rows, Cols]((_, _) => 0);
        CellsAre(gfx, Blank());
      } else if opcode == 0x00EE {
        sp := sp - 1;
        pc := stack[sp];
      }
    }

    /** 1NNN */
    method Jump()
      requires Valid()
      modifies this
      ensures Valid() && Snapshot() == Machine.Jump(old(Snapshot()))
      ensures memory == old(memory) && V == old(V) && stack == old(stack) && gfx == old(gfx)
    {
      if pc - 2 == NNN(opcode) {
        running := false;
      }
      pc := NNN(opcode);
    }

    /** 2NNN */
    method Subroutine()
      requires Valid() && sp < StackSize
      modifies this, stack
      ensures Valid() && Snapshot() == Machine.Subroutine(old(Snapshot()))
      ensures memory == old(memory) && V == old(V) && stack == old(stack) && gfx == old(gfx)
    {
      stack[sp] := pc;
      sp := sp + 1;
      pc := NNN(opcode);
    }

    /** 3XNN */
    method SkipIfEqual()
      requires Valid()
      modifies this
      ensures Valid() && Snapshot() == Machine.SkipIfEqual(old(Snapshot()))
      ensures memory == old(memory) && V == old(V) && stack == old(stack) && gfx == old(gfx)
    {
      var register := V[X(opcode)];
      var value := NN(opcode);
      if register == value {
        pc := pc + 2;
      }
    }

    /** 4XNN */
    method SkipIfNotEqual()
      requires Valid()
      modifies this
      ensures Valid() && Snapshot() == Machine.SkipIfNotEqual(old(Snapshot()))
      ensures memory == old(memory) && V == old(V) && stack == old(stack) && gfx == old(gfx)
    {
      var register := V[X(opcode)];
      var value := NN(opcode);
      if register != value {
        pc := pc + 2;
      }
    }

    /** 5XY0 */
    method SkipIfRegisterEqual()
      requires Valid()
      modifies this
      ensures Valid() && Snapshot() == Machine.SkipIfRegisterEqual(old(Snapshot()))
      ensures memory == old(memory) && V == old(V) && stack == old(stack) && gfx == old(gfx)
    {
      var x := V[X(opcode)];
      var y := V[Y(opcode)];
      if x == y {
        pc := pc + 2;
      }
    }

    /** 6XNN */
    method MovValToReg()
      requires Valid()
      modifies V
      ensures Valid() && Snapshot() == Machine.MovValToReg(old(Snapshot()))
    {
      var register := X(opcode);
      var value := NN(opcode);
      V[register] := value;
    }

    /** 7XNN */
    method AddValToReg()
      requires Valid()
      modifies V
      ensures Valid() && Snapshot() == Machine.AddValToReg(old(Snapshot()))
    {
      var register := X(opcode);
      var value := NN(opcode);
      V[register] := (V[register] + value) % 256;
    }

    /** 8XYN: dispatch on the low nibble. */
    method ExecuteEightsOpcode()
      requires Valid()
      modifies V
      ensures Valid() && Snapshot() == Machine.ExecuteEightsOpcode(old(Snapshot()))
    {
      match N(opcode)
      case 0x0 => CopyRegToReg();
      case 0x1 => BitwiseOr();
      case 0x2 => BitwiseAnd();
      case 0x3 => BitwiseXor();
      case 0x4 => AddRegToReg();
      case 0x5 => SubYFromX();
      case 0x6 => ShiftRight();
      case 0x7 => SubXFromY();
      case 0xE => ShiftLeft();
      case _ => UnknownOpcode();
    }

    /** 8XY0 */
    method CopyRegToReg()
      requires Valid()
      modifies V
      ensures Valid() && Snapshot() == Machine.CopyRegToReg(old(Snapshot()))
    {
      var x := X(opcode);
      var y := Y(opcode);
      V[x] := V[y];
    }

    /** 8XY1 */
    method BitwiseOr()
      requires Valid()
      modifies V
      ensures Valid() && Snapshot() == Machine.BitwiseOr(old(Snapshot()))
    {
      var x := X(opcode);
      var y := Y(opcode);
      V[x] := Or(V[x], V[y]);
    }

    /** 8XY2 */
    method BitwiseAnd()
      requires Valid()
      modifies V
      ensures Valid() && Snapshot() == Machine.BitwiseAnd(old(Snapshot()))
    {
      var x := X(opcode);
      var y := Y(opcode);
      V[x] := And(V[x], V[y]);
    }

    /** 8XY3 */
    method BitwiseXor()
      requires Valid()
      modifies V
      ensures Valid() && Snapshot() == Machine.BitwiseXor(old(Snapshot()))
    {
      var x := X(opcode);
      var y := Y(opcode);
      V[x] := Xor(V[x], V[y]);
    }

    /** 8XY4 */
    method AddRegToReg()
      requires Valid()
      modifies V
      ensures Valid() && Snapshot() == Machine.AddRegToReg(old(Snapshot()))
    {
      var x := X(opcode);
      var y := Y(opcode);
      var result := V[x] + V[y];
      V[Flag] := if result > 256 then 1 else 0;
      V[x] := result % 256;
    }

    /** 8XY5 */
    method SubYFromX()
      requires Valid()
      modifies V
      ensures Valid() && Snapshot() == Machine.SubYFromX(old(Snapshot()))
    {
      var x := X(opcode);
      var y := Y(opcode);
      var result := V[x] as int - V[y];
      V[Flag] := if result > 0 then 1 else 0;
      V[x] := result % 256;
    }

    /** 8XY6 */
    method ShiftRight()
      requires Valid()
      modifies V
      ensures Valid() && Snapshot() == Machine.ShiftRight(old(Snapshot()))
    {
      var x := X(opcode);
      V[Flag] := And(V[x], 1);
      V[x] := V[x] / 2;
    }

    /** 8XY7 */
    method SubXFromY()
      requires Valid()
      modifies V
      ensures Valid() && Snapshot() == Machine.SubXFromY(old(Snapshot()))
    {
      var x := X(opcode);
      var y := Y(opcode);
      var result := V[y] as int - V[x];
      V[Flag] := if result > 0 then 1 else 0;
      V[x] := result % 256;
    }

    /** 8XYE */
    method ShiftLeft()
      requires Valid()
      modifies V
      ensures Valid() && Snapshot() == Machine.ShiftLeft(old(Snapshot()))
    {
      var x := X(opcode);
      V[Flag] := And(V[x], 0x80) / 0x80;
      V[x] := V[x] * 2;
    }

    /** 9XY0 */
    method SkipIfRegisterNotEqual()
      requires Valid()
      modifies this
      ensures Valid() && Snapshot() == Machine.SkipIfRegisterNotEqual(old(Snapshot()))
      ensures memory == old(memory) && V == old(V) && stack == old(stack) && gfx == old(gfx)
    {
      var x := V[X(opcode)];
      var y := V[Y(opcode)];
      if x != y {
        pc := pc + 2;
      }
    }

    /** ANNN */
    method SetI()
      requires Valid()
      modifies this
      ensures Valid() && Snapshot() == Machine.SetI(old(Snapshot()))
      ensures memory == old(memory) && V == old(V) && stack == old(stack) && gfx == old(gfx)
    {
      index := NNN(opcode);
    }

    /** BNNN */
    method JumpPlus()
      requires Valid()
      modifies this
      ensures Valid() && Snapshot() == Machine.JumpPlus(old(Snapshot()))
      ensures memory == old(memory) && V == old(V) && stack == old(stack) && gfx == old(gfx)
    {
      pc := V[0] + NNN(opcode);
    }

    /** CXNN, with the random byte supplied by the caller. */
    method RandomNumberGen(rand: byte)
      requires Valid()
      modifies V
      ensures Valid() && Snapshot() == Machine.RandomNumberGen(old(Snapshot()), rand)
    {
      var register := X(opcode);
      var mask := NN(opcode);
      V[register] := And(rand as nat, mask);
    }

    /** DXYN: read the offsets and the height, then run the pixel loops. */
    method Draw()
      requires Valid() && SpriteInMemory(index, N(opcode))
      modifies V, gfx
      ensures Valid() && Snapshot() == Machine.Draw(old(Snapshot()))
    {
      var regX := X(opcode);
      var regY := Y(opcode);
      var xOffset := V[regX];
      var yOffset := V[regY];
      var height := N(opcode);
      ghost var s0 := Snapshot();
      assert Shows(gfx, s0.gfx);
      assert ShowsPartial(gfx, s0, 0, 0);
      DrawSprite(s0, xOffset, yOffset, height);
      CellsAre(gfx, Machine.Draw(s0).gfx);
    }

    /**
     * The nested loops of `draw`: row h of the sprite goes to screen row
     * (yOffset + h) % 32, its pixel w to column (xOffset + w) % 64, and VF
     * is rewritten after every pixel.
     */
    method DrawSprite(ghost s0: State, xOffset: nat, yOffset: nat, height: nat)
      requires Valid() && WellFormed(s0) && SpriteInMemory(s0.index, N(s0.opcode))
      requires memory[..] == s0.memory && index == s0.index && V[..] == s0.V && Shows(gfx, s0.gfx)
      requires xOffset == s0.V[X(s0.opcode)] && yOffset == s0.V[Y(s0.opcode)] && height == N(s0.opcode)
      modifies V, gfx
      ensures V[..] == Machine.Draw(s0).V && Shows(gfx, Machine.Draw(s0).gfx)
    {
      var flag := 0;
      for h := 0 to height
        invariant flag == (if HitBefore(s0, h, 0) then 1 else 0)
        invariant V[..] == if h == 0 then s0.V else s0.V[Flag := flag]
        invariant ShowsPartial(gfx, s0, h, 0)
      {
        var y := (h + yOffset) % Rows;
        var sprite: nat := memory[index + h] as nat;
        flag := DrawRow(s0, h, y, sprite, xOffset, flag);
      }
      assert HitBefore(s0, height, 0) == Collides(s0);
      forall y, x | 0 <= y < Rows && 0 <= x < Cols
        ensures gfx[y, x] == Machine.Draw(s0).gfx[y][x]
      {
        assert PartialPixel(s0, height, 0, y, x) == DrawnPixel(s0, y, x);
      }
    }

    /** The inner `for w in range(8)` loop of `draw`, for sprite row h at screen row y. */
    method DrawRow(ghost s0: State, h: nat, y: nat, sprite0: nat, xOffset: nat, flag0: nat)
      returns (flag: nat)
      requires Valid() && WellFormed(s0) && SpriteInMemory(s0.index, N(s0.opcode))
      requires h < N(s0.opcode) && sprite0 == s0.memory[s0.index + h] as nat
      requires y == (s0.V[Y(s0.opcode)] + h) % Rows && xOffset == s0.V[X(s0.opcode)]
      requires flag0 == (if HitBefore(s0, h, 0) then 1 else 0)
      requires V[..] == if h == 0 then s0.V else s0.V[Flag := flag0]
      requires ShowsPartial(gfx, s0, h, 0)
      modifies V, gfx
      ensures flag == (if HitBefore(s0, h + 1, 0) then 1 else 0)
      ensures V[..] == s0.V[Flag := flag]
      ensures ShowsPartial(gfx, s0, h + 1, 0)
    {
      flag := flag0;
      var sprite := sprite0;
      for w := 0 to 8
        invariant sprite == sprite0 * Pow2(w)
        invariant flag == (if HitBefore(s0, h, w) then 1 else 0)
        invariant V[..] == if h == 0 && w == 0 then s0.V else s0.V[Flag := flag]
        invariant ShowsPartial(gfx, s0, h, w)
      {
        var x := (w + xOffset) % Cols;
        var pixel := And(sprite, 0x80) / 0x80;
        assert pixel == SpriteBit(sprite0 as byte, w) as int by {
          ShiftedTopBit(sprite0, w);
        }
        assert sprite * 2 == sprite0 * Pow2(w + 1) by {
          DoubleShift(sprite0, w);
        }
        sprite := sprite * 2;
        var was := PlotPixel(s0, h, w, y, x, pixel);
        if pixel == 1 && was == 1 {
          flag := 1;
        }
        if flag == 1 {
          V[Flag] := 1;
        } else if flag == 0 {
          V[Flag] := 0;
        }
        assert flag == (if HitBefore(s0, h, w + 1) then 1 else 0) by {
          HitBeforeStep(s0, h, w);
        }
      }
      HitBeforeRow(s0, h);
      forall y', x' | 0 <= y' < Rows && 0 <= x' < Cols
        ensures gfx[y', x'] == PartialPixel(s0, h + 1, 0, y', x')
      {
        assert Drawn(s0, y', x', h, 8) == Drawn(s0, y', x', h + 1, 0);
      }
    }

    /**
     * One pass of the inner loop body of `draw` on the screen: cell (y, x)
     * takes the sprite bit; the cell's previous value is returned for the
     * collision test.
     */
    method PlotPixel(ghost s0: State, h: nat, w: nat, y: nat, x: nat, pixel: nat) returns (was: bit)
      requires Valid() && WellFormed(s0) && SpriteInMemory(s0.index, N(s0.opcode))
      requires h < N(s0.opcode) && w < 8
      requires y == (s0.V[Y(s0.opcode)] + h) % Rows && x == (s0.V[X(s0.opcode)] + w) % Cols
      requires pixel == SpriteBit(s0.memory[s0.index + h], w) as int
      requires ShowsPartial(gfx, s0, h, w)
      modifies gfx
      ensures was == s0.gfx[y][x] && (was == 1 && pixel == 1 <==> Hit(s0, h, w))
      ensures ShowsPartial(gfx, s0, h, w + 1)
    {
      VisitPixel(s0, y, x, h, w);
      was := gfx[y, x];
      if pixel == 1 {
        gfx[y, x] := 1;
      } else {
        gfx[y, x] := 0;
      }
      forall y', x' | 0 <= y' < Rows && 0 <= x' < Cols
        ensures gfx[y', x'] == PartialPixel(s0, h, w + 1, y', x')
      {
        VisitPixel(s0, y', x', h, w);
        if y' != y || x' != x {
          assert gfx[y', x'] == old(gfx[y', x']);
        }
      }
    }

    /** FXNN: dispatch on the low byte. */
    method ExecuteFOpcode()
      requires Valid()
      modifies this
      ensures Valid() && Snapshot() == Machine.ExecuteFOpcode(old(Snapshot()))
      ensures memory == old(memory) && V == old(V) && stack == old(stack) && gfx == old(gfx)
    {
      match NN(opcode)
      case 0x07 | 0x0A | 0x15 | 0x18 | 0x33 | 0x55 | 0x65 => NotHandled();
      case 0x1E => AddRegToI();
      case 0x29 => SetFont();
      case _ => UnknownOpcode();
    }

    /** FX1E */
    method AddRegToI()
      requires Valid()
      modifies this
      ensures Valid() && Snapshot() == Machine.AddRegToI(old(Snapshot()))
      ensures memory == old(memory) && V == old(V) && stack == old(stack) && gfx == old(gfx)
    {
      var register := X(opcode);
      index := (V[register] + index) % 0xFF;
    }

    /** FX29 */
    method SetFont()
      requires Valid()
      modifies this
      ensures Valid() && Snapshot() == Machine.SetFont(old(Snapshot()))
      ensures memory == old(memory) && V == old(V) && stack == old(stack) && gfx == old(gfx)
    {
      var character := X(opcode);
      index := character * GlyphSize;
    }

    /** The copy loop of `load_rom`: `image` is the file's bytes, `offset` the load address. */
    method LoadRom(image: seq<byte>, offset: nat)
      requires Valid() && offset + |image| <= memory.Length
      modifies memory
      ensures Valid() && Snapshot() == old(Snapshot()).(memory := Load(old(memory[..]), image, offset))
    {
      for i := 0 to |image|
        invariant forall a :: 0 <= a < memory.Length ==>
          memory[a] == if offset <= a < offset + i then image[a - offset] else old(memory[a])
      {
        memory[i + offset] := image[i];
      }
      assert memory[..] == Load(old(memory[..]), image, offset);
    }
  }
}
