/**
 * The interpreter state of cpu.py's `C8cpu` as a value, and the effect of
 * each opcode handler and of one `execute_opcode` step as a function on it.
 * The class in cpu.dfy is proved to update its fields exactly as these
 * functions say; the lemmas in properties.dfy state what they guarantee.
 */
module Machine {
  import opened Bits
  import opened Opcode

  const MemorySize: nat := 0xFFF
  const RegisterCount: nat := 16
  const StackSize: nat := 16
  const Rows: nat := 32
  const Cols: nat := 64
  const ProgramStart: nat := 0x200
  /** VF, the register the flag-setting opcodes write. */
  const Flag: nat := 0xF
  /** Bytes per glyph of the built-in font. */
  const GlyphSize: nat := 5

  /** One framebuffer cell; cpu.py stores the integers 0 and 1. */
  newtype bit = b: int | 0 <= b <= 1

  /**
   * The fields of `C8cpu`. Registers and stack slots are unbounded because
   * Python integers are: 8XYE doubles a register without masking it.
   */
  datatype State = State(
    opcode: nat,
    memory: seq<byte>,
    V: seq<nat>,
    index: nat,
    pc: nat,
    stack: seq<nat>,
    sp: nat,
    gfx: seq<seq<bit>>,
    running: bool,
    cycle: nat)

  /** The fixed sizes `__init__` allocates; sp stays a valid count of stack slots. */
  ghost predicate WellFormed(s: State)
  {
    && |s.memory| == MemorySize
    && |s.V| == RegisterCount
    && |s.stack| == StackSize
    && s.sp <= StackSize
    && |s.gfx| == Rows
    && forall y :: 0 <= y < Rows ==> |s.gfx[y]| == Cols
  }

  /** A 32 x 64 framebuffer of zeros. */
  function Blank(): (g: seq<seq<bit>>)
    ensures |g| == Rows
    ensures forall y :: 0 <= y < Rows ==> |g[y]| == Cols && forall x :: 0 <= x < Cols ==> g[y][x] == 0
  {
    seq(Rows, _ => seq(Cols, _ => 0))
  }

  /** The state `__init__` builds. */
  function Init(): (s: State)
    ensures WellFormed(s) && s.pc == ProgramStart && s.sp == 0 && s.running && s.cycle == 0
    ensures s.opcode == 0 && s.index == 0 && s.gfx == Blank()
    ensures forall a :: 0 <= a < MemorySize ==> s.memory[a] == 0
    ensures forall i :: 0 <= i < RegisterCount ==> s.V[i] == 0
    ensures forall i :: 0 <= i < StackSize ==> s.stack[i] == 0
  {
    State(0, seq(MemorySize, _ => 0), seq(RegisterCount, _ => 0), 0, ProgramStart,
          seq(StackSize, _ => 0), 0, Blank(), true, 0)
  }

  /** The instruction word at pc. */
  function Fetch(memory: seq<byte>, pc: nat): nat
    requires pc + 1 < |memory|
  {
    Word(memory[pc], memory[pc + 1])
  }

  /** Every memory cell that a sprite of `height` rows at `index` reads exists. */
  predicate SpriteInMemory(index: nat, height: nat)
  {
    height == 0 || index + height <= MemorySize
  }

  /**
   * What the handler selected by `op` needs to run without an IndexError
   * or a read of a wrong slot: a return pops from a non-empty stack, a call
   * pushes onto a non-full one, a draw reads sprite rows inside memory.
   */
  predicate HandlerDefined(op: nat, sp: nat, index: nat)
  {
    && (op == 0x00EE ==> 0 < sp)
    && (Family(op) == 0x2 ==> sp < StackSize)
    && (Family(op) == 0xD ==> SpriteInMemory(index, N(op)))
  }

  /** `execute_opcode` can run: both bytes of the word at pc exist and its handler is defined. */
  predicate CanStep(memory: seq<byte>, pc: nat, sp: nat, index: nat)
  {
    && |memory| == MemorySize
    && pc + 1 < MemorySize
    && HandlerDefined(Fetch(memory, pc), sp, index)
  }

  // Handlers. Each takes the state after the fetch: `opcode` holds the word
  // and `pc` has already advanced past it.

  /** 00E0 clears the screen; 00EE pops the return address; other 0NNN words do nothing. */
  function ClearReturn(s: State): (r: State)
    requires WellFormed(s) && (s.opcode == 0x00EE ==> 0 < s.sp)
    ensures WellFormed(r)
  {
    if s.opcode == 0x00E0 then s.(gfx := Blank())
    else if s.opcode == 0x00EE then s.(sp := s.sp - 1, pc := s.stack[s.sp - 1])
    else s
  }

  /** 1NNN: jump; a jump to its own address (pc - 2) also clears `running`. */
  function Jump(s: State): (r: State)
    requires WellFormed(s)
    ensures WellFormed(r)
  {
    s.(running := if s.pc - 2 == NNN(s.opcode) then false else s.running,
       pc := NNN(s.opcode))
  }

  /** 2NNN: push the return address, then jump. */
  function Subroutine(s: State): (r: State)
    requires WellFormed(s) && s.sp < StackSize
    ensures WellFormed(r)
  {
    s.(stack := s.stack[s.sp := s.pc], sp := s.sp + 1, pc := NNN(s.opcode))
  }

  /** 3XNN */
  function SkipIfEqual(s: State): (r: State)
    requires WellFormed(s)
    ensures WellFormed(r)
  {
    if s.V[X(s.opcode)] == NN(s.opcode) then s.(pc := s.pc + 2) else s
  }

  /** 4XNN */
  function SkipIfNotEqual(s: State): (r: State)
    requires WellFormed(s)
    ensures WellFormed(r)
  {
    if s.V[X(s.opcode)] != NN(s.opcode) then s.(pc := s.pc + 2) else s
  }

  /** 5XY0 (the low nibble is not checked). */
  function SkipIfRegisterEqual(s: State): (r: State)
    requires WellFormed(s)
    ensures WellFormed(r)
  {
    if s.V[X(s.opcode)] == s.V[Y(s.opcode)] then s.(pc := s.pc + 2) else s
  }

  /** 6XNN */
  function MovValToReg(s: State): (r: State)
    requires WellFormed(s)
    ensures WellFormed(r)
  {
    s.(V := s.V[X(s.opcode) := NN(s.opcode)])
  }

  /** 7XNN */
  function AddValToReg(s: State): (r: State)
    requires WellFormed(s)
    ensures WellFormed(r)
  {
    var x := X(s.opcode);
    s.(V := s.V[x := (s.V[x] + NN(s.opcode)) % 256])
  }

  /** 8XY0 */
  function CopyRegToReg(s: State): (r: State)
    requires WellFormed(s)
    ensures WellFormed(r)
  {
    s.(V := s.V[X(s.opcode) := s.V[Y(s.opcode)]])
  }

  /** 8XY1 */
  function BitwiseOr(s: State): (r: State)
    requires WellFormed(s)
    ensures WellFormed(r)
  {
    var x := X(s.opcode);
    s.(V := s.V[x := Or(s.V[x], s.V[Y(s.opcode)])])
  }

  /** 8XY2 */
  function BitwiseAnd(s: State): (r: State)
    requires WellFormed(s)
    ensures WellFormed(r)
  {
    var x := X(s.opcode);
    s.(V := s.V[x := And(s.V[x], s.V[Y(s.opcode)])])
  }

  /** 8XY3 */
  function BitwiseXor(s: State): (r: State)
    requires WellFormed(s)
    ensures WellFormed(r)
  {
    var x := X(s.opcode);
    s.(V := s.V[x := Xor(s.V[x], s.V[Y(s.opcode)])])
  }

  /** 8XY4: the sum is taken first, then VF is written, then VX. */
  function AddRegToReg(s: State): (r: State)
    requires WellFormed(s)
    ensures WellFormed(r)
  {
    var x := X(s.opcode);
    var result := s.V[x] + s.V[Y(s.opcode)];
    s.(V := s.V[Flag := if result > 256 then 1 else 0][x := result % 256])
  }

  /** 8XY5: the difference is taken first, then VF is written, then VX. */
  function SubYFromX(s: State): (r: State)
    requires WellFormed(s)
    ensures WellFormed(r)
  {
    var x := X(s.opcode);
    var result := s.V[x] as int - s.V[Y(s.opcode)];
    s.(V := s.V[Flag := if result > 0 then 1 else 0][x := result % 256])
  }

  /** 8XY6: VF is written first and VX is then read again, so 8FY6 shifts the flag. */
  function ShiftRight(s: State): (r: State)
    requires WellFormed(s)
    ensures WellFormed(r)
  {
    var x := X(s.opcode);
    var flagged := s.V[Flag := And(s.V[x], 1)];
    s.(V := flagged[x := flagged[x] / 2])
  }

  /** 8XY7: the difference is taken first, then VF is written, then VX. */
  function SubXFromY(s: State): (r: State)
    requires WellFormed(s)
    ensures WellFormed(r)
  {
    var x := X(s.opcode);
    var result := s.V[Y(s.opcode)] as int - s.V[x];
    s.(V := s.V[Flag := if result > 0 then 1 else 0][x := result % 256])
  }

  /** 8XYE: VF is written first and VX is then read again and doubled, with no mask. */
  function ShiftLeft(s: State): (r: State)
    requires WellFormed(s)
    ensures WellFormed(r)
  {
    var x := X(s.opcode);
    var flagged := s.V[Flag := And(s.V[x], 0x80) / 0x80];
    s.(V := flagged[x := flagged[x] * 2])
  }

  /** 8XYN dispatch on the low nibble; an unlisted nibble is `unknown_opcode`, a no-op. */
  function ExecuteEightsOpcode(s: State): (r: State)
    requires WellFormed(s)
    ensures WellFormed(r)
  {
    match N(s.opcode)
    case 0x0 => CopyRegToReg(s)
    case 0x1 => BitwiseOr(s)
    case 0x2 => BitwiseAnd(s)
    case 0x3 => BitwiseXor(s)
    case 0x4 => AddRegToReg(s)
    case 0x5 => SubYFromX(s)
    case 0x6 => ShiftRight(s)
    case 0x7 => SubXFromY(s)
    case 0xE => ShiftLeft(s)
    case _ => s
  }

  /** 9XY0 (the low nibble is not checked). */
  function SkipIfRegisterNotEqual(s: State): (r: State)
    requires WellFormed(s)
    ensures WellFormed(r)
  {
    if s.V[X(s.opcode)] != s.V[Y(s.opcode)] then s.(pc := s.pc + 2) else s
  }

  /** ANNN */
  function SetI(s: State): (r: State)
    requires WellFormed(s)
    ensures WellFormed(r)
  {
    s.(index := NNN(s.opcode))
  }

  /** BNNN */
  function JumpPlus(s: State): (r: State)
    requires WellFormed(s)
    ensures WellFormed(r)
  {
    s.(pc := s.V[0] + NNN(s.opcode))
  }

  /** CXNN, with the byte `random.randint(0, 255)` would return passed in as `rand`. */
  function RandomNumberGen(s: State, rand: byte): (r: State)
    requires WellFormed(s)
    ensures WellFormed(r)
  {
    s.(V := s.V[X(s.opcode) := And(rand as nat, NN(s.opcode))])
  }

  /** Bit 7 - w of a sprite byte: the pixel for column w of that sprite row. */
  function SpriteBit(b: byte, w: nat): bit
    requires w < 8
  {
    Bit(b as nat, 7 - w) as bit
  }

  /** Pixel (h, w) of the sprite DXYN draws: bit 7 - w of the byte at I + h. */
  function SpritePixel(s: State, h: nat, w: nat): bit
    requires WellFormed(s) && SpriteInMemory(s.index, N(s.opcode))
    requires h < N(s.opcode) && w < 8
  {
    SpriteBit(s.memory[s.index + h], w)
  }

  /** The screen row sprite row h lands on, wrapping at the bottom edge. */
  function TargetRow(s: State, h: nat): (y: nat)
    requires WellFormed(s)
    ensures y < Rows
  {
    (s.V[Y(s.opcode)] + h) % Rows
  }

  /** The screen column sprite column w lands on, wrapping at the right edge. */
  function TargetCol(s: State, w: nat): (x: nat)
    requires WellFormed(s)
    ensures x < Cols
  {
    (s.V[X(s.opcode)] + w) % Cols
  }

  /** The sprite row that lands on screen row y (meaningful when it is below the height). */
  function SpriteRowOf(s: State, y: int): nat
    requires WellFormed(s)
  {
    (y - s.V[Y(s.opcode)]) % Rows
  }

  /** The sprite column that lands on screen column x (meaningful when it is below 8). */
  function SpriteColOf(s: State, x: int): nat
    requires WellFormed(s)
  {
    (x - s.V[X(s.opcode)]) % Cols
  }

  /** Screen cell (y, x) lies under the sprite, wrapping around both edges. */
  predicate Covers(s: State, y: int, x: int)
    requires WellFormed(s)
  {
    SpriteRowOf(s, y) < N(s.opcode) && SpriteColOf(s, x) < 8
  }

  /** The value cell (y, x) has after DXYN. */
  function DrawnPixel(s: State, y: nat, x: nat): bit
    requires WellFormed(s) && SpriteInMemory(s.index, N(s.opcode))
    requires y < Rows && x < Cols
  {
    if Covers(s, y, x) then SpritePixel(s, SpriteRowOf(s, y), SpriteColOf(s, x))
    else s.gfx[y][x]
  }

  /** Sprite pixel (h, w) is 1 and lands on a cell that is already 1. */
  predicate Hit(s: State, h: nat, w: nat)
    requires WellFormed(s) && SpriteInMemory(s.index, N(s.opcode))
    requires h < N(s.opcode) && w < 8
  {
    && SpritePixel(s, h, w) == 1
    && s.gfx[TargetRow(s, h)][TargetCol(s, w)] == 1
  }

  /** Some pixel of the sprite collides with a lit cell. */
  predicate Collides(s: State)
    requires WellFormed(s) && SpriteInMemory(s.index, N(s.opcode))
  {
    exists h: nat, w: nat :: h < N(s.opcode) && w < 8 && Hit(s, h, w)
  }

  /**
   * DXYN: every cell under the sprite takes the sprite's bit (a 0-bit
   * clears a lit cell, a 1-bit lights it); VF reports a collision, and is
   * left alone when the height is 0 because cpu.py writes it inside the
   * pixel loop.
   */
  function Draw(s: State): (r: State)
    requires WellFormed(s) && SpriteInMemory(s.index, N(s.opcode))
    ensures WellFormed(r)
  {
    s.(gfx := seq(Rows, (y: int) requires 0 <= y < Rows =>
                    seq(Cols, (x: int) requires 0 <= x < Cols => DrawnPixel(s, y, x))),
       V := if N(s.opcode) == 0 then s.V
            else s.V[Flag := if Collides(s) then 1 else 0])
  }

  /** FX1E: the sum is reduced modulo 0xFF, as written. */
  function AddRegToI(s: State): (r: State)
    requires WellFormed(s)
    ensures WellFormed(r)
  {
    s.(index := (s.V[X(s.opcode)] + s.index) % 0xFF)
  }

  /** FX29: the glyph address is computed from the nibble X itself, not from VX. */
  function SetFont(s: State): (r: State)
    requires WellFormed(s)
    ensures WellFormed(r)
  {
    s.(index := X(s.opcode) * GlyphSize)
  }

  /**
   * FXNN dispatch on the low byte. Timers, key wait, BCD and register
   * block transfer are `not_handled`; any other byte is `unknown_opcode`;
   * both only report.
   */
  function ExecuteFOpcode(s: State): (r: State)
    requires WellFormed(s)
    ensures WellFormed(r)
  {
    match NN(s.opcode)
    case 0x07 | 0x0A | 0x15 | 0x18 | 0x33 | 0x55 | 0x65 => s
    case 0x1E => AddRegToI(s)
    case 0x29 => SetFont(s)
    case _ => s
  }

  /** The first-nibble dispatch of `execute_opcode`; family E is `not_handled`. */
  function Execute(s: State, rand: byte): (r: State)
    requires WellFormed(s) && HandlerDefined(s.opcode, s.sp, s.index)
    ensures WellFormed(r)
  {
    match Family(s.opcode)
    case 0x0 => ClearReturn(s)
    case 0x1 => Jump(s)
    case 0x2 => Subroutine(s)
    case 0x3 => SkipIfEqual(s)
    case 0x4 => SkipIfNotEqual(s)
    case 0x5 => SkipIfRegisterEqual(s)
    case 0x6 => MovValToReg(s)
    case 0x7 => AddValToReg(s)
    case 0x8 => ExecuteEightsOpcode(s)
    case 0x9 => SkipIfRegisterNotEqual(s)
    case 0xA => SetI(s)
    case 0xB => JumpPlus(s)
    case 0xC => RandomNumberGen(s, rand)
    case 0xD => Draw(s)
    case 0xE => s
    case _ => ExecuteFOpcode(s)
  }

  /** The state the handlers see: the word at pc in `opcode`, pc advanced past it. */
  function Fetched(s: State): (r: State)
    requires WellFormed(s) && s.pc + 1 < MemorySize
    ensures WellFormed(r) && r.pc == s.pc + 2
    ensures r.opcode == s.memory[s.pc] as nat * 0x100 + s.memory[s.pc + 1] as nat
  {
    s.(opcode := Fetch(s.memory, s.pc), pc := s.pc + 2)
  }

  /** One `execute_opcode`: fetch, advance pc by 2, run the handler, count the cycle. */
  function Step(s: State, rand: byte): (r: State)
    requires WellFormed(s) && CanStep(s.memory, s.pc, s.sp, s.index)
    ensures WellFormed(r) && r.memory == s.memory && r.cycle == s.cycle + 1
    ensures r.opcode == s.memory[s.pc] as nat * 0x100 + s.memory[s.pc + 1] as nat
  {
    var done := Execute(Fetched(s), rand);
    done.(cycle := done.cycle + 1)
  }

  /** `load_rom`'s copy loop: `image` lands at `offset`, every other cell is kept. */
  function Load(memory: seq<byte>, image: seq<byte>, offset: nat): (r: seq<byte>)
    requires offset + |image| <= |memory|
    ensures |r| == |memory|
    ensures forall a :: 0 <= a < |memory| ==>
      r[a] == if offset <= a < offset + |image| then image[a - offset] else memory[a]
  {
    memory[..offset] + image + memory[offset + |image|..]
  }
}
