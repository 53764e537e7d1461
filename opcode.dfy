/**
 * The 16-bit CHIP-8 instruction word and its bit fields. Each field is
 * computed arithmetically; lemma FieldsAreMasks ties it to the
 * mask-and-shift expression cpu.py writes, e.g. `(opcode & 0x0F00) >> 8`
 * for X.
 */
module Opcode {
  import opened Bits

  /** One memory cell: `f.read()` only ever yields values in 0..255. */
  newtype byte = b: int | 0 <= b < 256

  /** The big-endian word `(hi << 8) + lo` fetched from two memory cells. */
  function Word(hi: byte, lo: byte): (op: nat)
    ensures op < 0x10000
    ensures Family(op) == hi as nat / 16 && X(op) == hi as nat % 16
    ensures Y(op) == lo as nat / 16 && N(op) == lo as nat % 16
    ensures NN(op) == lo as nat && NNN(op) == (hi as nat % 16) * 0x100 + lo as nat
  {
    WordFields(hi as nat, lo as nat);
    hi as nat * 0x100 + lo as nat
  }

  /** The fields of `(hi << 8) + lo` are the nibbles and bytes of hi and lo. */
  lemma WordFields(hi: nat, lo: nat)
    requires hi < 256 && lo < 256
    ensures var op := hi * 0x100 + lo;
      && Family(op) == hi / 16 && X(op) == hi % 16
      && Y(op) == lo / 16 && N(op) == lo % 16
      && NN(op) == lo && NNN(op) == (hi % 16) * 0x100 + lo
  {
    var op := hi * 0x100 + lo;
    DivModUnique(op, 0x1000, hi / 16, (hi % 16) * 0x100 + lo);
    DivModUnique(hi / 16, 16, 0, hi / 16);
    DivModUnique(op, 0x100, hi, lo);
    DivModUnique(hi, 16, hi / 16, hi % 16);
    DivModUnique(op, 0x10, hi * 16 + lo / 16, lo % 16);
    DivModUnique(hi * 16 + lo / 16, 16, hi, lo / 16);
  }

  /** First nibble, `(opcode & 0xF000) >> 12`: selects the instruction family. */
  function Family(op: nat): (f: nat)
    ensures f < 16
  {
    (op / 0x1000) % 16
  }

  /** Register index X, `(opcode & 0x0F00) >> 8`. */
  function X(op: nat): (x: nat)
    ensures x < 16
  {
    (op / 0x100) % 16
  }

  /** Register index Y, `(opcode & 0x00F0) >> 4`. */
  function Y(op: nat): (y: nat)
    ensures y < 16
  {
    (op / 0x10) % 16
  }

  /** Low nibble, `opcode & 0x000F`: the 8-family selector and the sprite height. */
  function N(op: nat): (n: nat)
    ensures n < 16
  {
    op % 16
  }

  /** Low byte, `opcode & 0x00FF`: an immediate value or the F-family selector. */
  function NN(op: nat): (nn: nat)
    ensures nn < 256
  {
    op % 256
  }

  /** Low 12 bits, `opcode & 0x0FFF`: an address. */
  function NNN(op: nat): (nnn: nat)
    ensures nnn < 0x1000
  {
    op % 0x1000
  }

  /** Each field is the source's mask-and-shift of the word. */
  lemma FieldsAreMasks(op: nat)
    ensures Family(op) == And(op, 0xF000) / 0x1000
    ensures X(op) == And(op, 0x0F00) / 0x100
    ensures Y(op) == And(op, 0x00F0) / 0x10
    ensures N(op) == And(op, 0x000F)
    ensures NN(op) == And(op, 0x00FF)
    ensures NNN(op) == And(op, 0x0FFF)
  {
    assert Pow2(4) == 16 && Pow2(8) == 0x100 && Pow2(12) == 0x1000;
    ShiftedField(op, 12, 4, 0x1000, 16);
    ShiftedField(op, 8, 4, 0x100, 16);
    ShiftedField(op, 4, 4, 0x10, 16);
    LowMask(op, 4);
    LowMask(op, 8);
    LowMask(op, 12);
  }

  /** `(n & M) >> k` for M the w one-bits at bit k, with p = 2^k and q = 2^w named. */
  lemma ShiftedField(n: nat, k: nat, w: nat, p: nat, q: nat)
    requires p == Pow2(k) && q == Pow2(w)
    ensures And(n, p * (q - 1)) / p == (n / p) % q
  {
    MaskField(n, k, w);
    DivModUnique(p * ((n / p) % q), p, (n / p) % q, 0);
  }

  /** The four nibbles of a 16-bit word put back together give the word. */
  lemma Reassemble(op: nat)
    requires op < 0x10000
    ensures op == Family(op) * 0x1000 + X(op) * 0x100 + Y(op) * 0x10 + N(op)
    ensures NNN(op) == X(op) * 0x100 + NN(op) && NN(op) == Y(op) * 0x10 + N(op)
  {
    var hi, lo := op / 0x100, op % 0x100;
    assert op == Word(hi as byte, lo as byte);
  }
}
