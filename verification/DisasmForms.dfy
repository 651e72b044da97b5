// The instructions src/programs/m680x0dis/main.c and its comments name, by their
// encodings, and whether the disassembler takes the words each of them has.
module DisasmForms {
  import opened Word32
  import opened Disasm

  // The size of an operation in bytes: byte, word and long are 0, 1 and 2.
  function Operation(size: nat): nat {
    if size == 0 then 1 else if size == 1 then 2 else if size == 2 then 4 else 0
  }

  // The first word of an instruction: 4, 3, 3, 3 and 3 bits.
  datatype Fields = Fields(line: nat, x: nat, m: nat, mode: nat, reg: nat)

  predicate InRange(f: Fields) { f.line < 16 && f.x < 8 && f.m < 8 && f.mode < 8 && f.reg < 8 }

  function Packed(f: Fields): nat { 0x1000 * f.line + 0x200 * f.x + 0x40 * f.m + 8 * f.mode + f.reg }

  lemma Product(k: int, d: nat)
    ensures k > 0 ==> k * d >= d
    ensures k < 0 ==> -(k * d) >= d
  {
  }

  lemma Quotient(w: nat, d: nat, q: nat, r: nat)
    requires w == q * d + r && r < d
    ensures w / d == q && w % d == r
  {
    var k := w / d - q;
    assert w == (w / d) * d + w % d;
    assert k * d == r - w % d by {
      assert k * d == (w / d) * d - q * d;
    }
    Product(k, d);
  }

  // `bits` with q above them and r below.
  lemma {:induction false} BitsAre(w: nat, lo: nat, n: nat, q: nat, bits: nat, r: nat)
    requires w == (q * Pow2(n) + bits) * Pow2(lo) + r && bits < Pow2(n) && r < Pow2(lo)
    ensures Bits(w, lo, n) == bits
    decreases lo
  {
    if lo == 0 {
      Quotient(w, Pow2(n), q, bits);
    } else {
      var h, p := q * Pow2(n) + bits, Pow2(lo - 1);
      assert h * Pow2(lo) == 2 * (h * p);
      assert (2 * (h * p) + r) / 2 == h * p + r / 2;
      BitsAre(w / 2, lo - 1, n, q, bits, r / 2);
    }
  }

  // The groups of bits the decoder looks at, in a word that has these fields.
  predicate LowSplit(op: nat, f: Fields) {
    && Bits(op, 12, 4) == f.line && Bits(op, 9, 3) == f.x && OpMode(op) == f.m && Mode(op) == f.mode && Reg(op) == f.reg
    && Size(op) == f.m % 4 && Bits(op, 6, 1) == f.m % 2 && Bits(op, 8, 1) == f.m / 4
    && Bits(op, 9, 2) == f.x % 4 && Bits(op, 8, 2) == 2 * (f.x % 2) + f.m / 4 && Bits(op, 11, 1) == f.x / 4
    && Bits(op, 3, 5) == 8 * (f.m % 4) + f.mode && Bits(op, 0, 8) == 64 * (f.m % 4) + 8 * f.mode + f.reg
  }

  predicate HighSplit(op: nat, f: Fields) {
    var h := 64 * f.line + 8 * f.x + f.m;
    && Bits(op, 11, 5) == 2 * f.line + f.x / 4 && Bits(op, 12, 2) == f.line % 4
    && Bits(op, 8, 8) == 16 * f.line + 2 * f.x + f.m / 4 && Bits(op, 9, 7) == 8 * f.line + f.x
    && Bits(op, 6, 10) == h && Bits(op, 3, 13) == 8 * h + f.mode && Bits(op, 4, 12) == 4 * h + f.mode / 2
  }

  lemma PowersOfTwo()
    ensures Pow2(0) == 1 && Pow2(1) == 2 && Pow2(2) == 4 && Pow2(3) == 8 && Pow2(4) == 16 && Pow2(5) == 32
    ensures Pow2(6) == 64 && Pow2(7) == 128 && Pow2(8) == 256 && Pow2(9) == 512 && Pow2(10) == 1024
    ensures Pow2(11) == 2048 && Pow2(12) == 4096 && Pow2(13) == 8192
  {
  }

  lemma PackedLow(f: Fields)
    requires InRange(f)
    ensures LowSplit(Packed(f), f)
  {
    PowersOfTwo();
    var op, low := Packed(f), 8 * f.mode + f.reg;
    var top := 8 * f.line + f.x;
    BitsAre(op, 12, 4, 0, f.line, 0x200 * f.x + 0x40 * f.m + low);
    BitsAre(op, 9, 3, f.line, f.x, 0x40 * f.m + low);
    BitsAre(op, 6, 3, top, f.m, low);
    BitsAre(op, 3, 3, 8 * top + f.m, f.mode, f.reg);
    BitsAre(op, 0, 3, 64 * top + 8 * f.m + f.mode, f.reg, 0);
    BitsAre(op, 6, 2, 2 * top + f.m / 4, f.m % 4, low);
    BitsAre(op, 6, 1, 4 * top + f.m / 2, f.m % 2, low);
    BitsAre(op, 8, 1, top, f.m / 4, 64 * (f.m % 4) + low);
    BitsAre(op, 9, 2, 2 * f.line + f.x / 4, f.x % 4, 64 * f.m + low);
    BitsAre(op, 8, 2, 4 * f.line + f.x / 2, 2 * (f.x % 2) + f.m / 4, 64 * (f.m % 4) + low);
    BitsAre(op, 11, 1, f.line, f.x / 4, 0x200 * (f.x % 4) + 64 * f.m + low);
    BitsAre(op, 3, 5, 2 * top + f.m / 4, 8 * (f.m % 4) + f.mode, f.reg);
    BitsAre(op, 0, 8, 2 * top + f.m / 4, 64 * (f.m % 4) + low, 0);
  }

  lemma PackedHigh(f: Fields)
    requires InRange(f)
    ensures HighSplit(Packed(f), f)
  {
    PowersOfTwo();
    var op, low := Packed(f), 8 * f.mode + f.reg;
    var h := 64 * f.line + 8 * f.x + f.m;
    BitsAre(op, 11, 5, 0, 2 * f.line + f.x / 4, 0x200 * (f.x % 4) + 64 * f.m + low);
    BitsAre(op, 12, 2, f.line / 4, f.line % 4, 0x200 * f.x + 64 * f.m + low);
    BitsAre(op, 8, 8, 0, 16 * f.line + 2 * f.x + f.m / 4, 64 * (f.m % 4) + low);
    BitsAre(op, 9, 7, 0, 8 * f.line + f.x, 64 * f.m + low);
    BitsAre(op, 6, 10, 0, h, low);
    BitsAre(op, 3, 13, 0, 8 * h + f.mode, f.reg);
    BitsAre(op, 4, 12, 0, 4 * h + f.mode / 2, 8 * (f.mode % 2) + f.reg);
  }

  // ----- group 0000 and MOVE ---------------------------------------------------------

  datatype Low =
    | ToStatus(kind: nat, word: bool)                             // ORI, ANDI, EORI to CCR or SR
    | Chk2(size: nat, mode: nat, reg: nat)                        // CHK2, CMP2
    | Immediate(kind: nat, size: nat, mode: nat, reg: nat)        // ORI to CMPI
    | Movep(dn: nat, opmode: nat, reg: nat)
    | BitDynamic(dn: nat, kind: nat, mode: nat, reg: nat)         // BTST to BSET, by register
    | BitStatic(kind: nat, mode: nat, reg: nat)                   // BTST to BSET, immediate
    | Cas(size: nat, mode: nat, reg: nat)                         // byte, word and long for 1, 2 and 3
    | Move(size: nat, dstReg: nat, dstMode: nat, mode: nat, reg: nat)

  function LowFields(i: Low): Fields {
    match i
    case ToStatus(kind, word) => Fields(0, kind, if word then 1 else 0, 7, 4)
    case Chk2(size, mode, reg) => Fields(0, size, 3, mode, reg)
    case Immediate(kind, size, mode, reg) => Fields(0, kind, size, mode, reg)
    case Movep(dn, opmode, reg) => Fields(0, dn, opmode, 1, reg)
    case BitDynamic(dn, kind, mode, reg) => Fields(0, dn, 4 + kind, mode, reg)
    case BitStatic(kind, mode, reg) => Fields(0, 4, kind, mode, reg)
    case Cas(size, mode, reg) => Fields(0, 4 + size, 3, mode, reg)
    case Move(size, dstReg, dstMode, mode, reg) => Fields(size, dstReg, dstMode, mode, reg)
  }

  predicate LowLegal(i: Low) {
    InRange(LowFields(i)) &&
    match i
    case ToStatus(kind, _) => kind in {0, 1, 5}
    case Chk2(size, _, _) => size < 3
    case Immediate(kind, size, mode, reg) =>
      kind in {0, 1, 2, 3, 5, 6} && size < 3 && !(kind in {0, 1, 5} && size < 2 && mode == 7 && reg == 4)
    case Movep(_, opmode, _) => opmode >= 4
    case BitDynamic(_, kind, mode, _) => kind < 4 && mode != 1
    case BitStatic(kind, _, _) => kind < 4
    case Cas(size, mode, reg) => 1 <= size <= 3 && mode >= 2 && !(mode == 7 && reg >= 2)
    case Move(size, _, _, _, _) => 1 <= size <= 3
  }

  function LowNeeds(i: Low): seq<Part> {
    match i
    case ToStatus(_, _) => [Word]
    case Chk2(size, mode, reg) => [Word, Ea(mode, reg, Operation(size))]
    case Immediate(_, size, mode, reg) => [if size == 2 then Long else Word, Ea(mode, reg, Operation(size))]
    case Movep(_, _, _) => [Word]
    case BitDynamic(_, _, mode, reg) => [Ea(mode, reg, 1)]
    case BitStatic(_, mode, reg) => [Word, Ea(mode, reg, 1)]
    case Cas(size, mode, reg) => [Word, Ea(mode, reg, if size == 1 then 1 else if size == 2 then 2 else 4)]
    case Move(size, dstReg, dstMode, mode, reg) =>
      var bytes := if size == 1 then 1 else if size == 3 then 2 else 4;
      [Ea(mode, reg, bytes), Ea(dstMode, dstReg, bytes)]
  }

  // The six words that are told apart by themselves.
  predicate IsStatus(f: Fields) { f.x in {0, 1, 5} && f.m < 2 && f.mode == 7 && f.reg == 4 }

  lemma StatusWords(f: Fields)
    requires InRange(f) && f.line == 0
    ensures Packed(f) in {0x003C, 0x007C, 0x023C, 0x027C, 0x0A3C, 0x0A7C} <==> IsStatus(f)
  {
  }

  lemma LowPlan(op: nat, i: Low)
    requires !i.BitStatic? && !i.Cas? && LowLegal(i) && LowSplit(op, LowFields(i)) && HighSplit(op, LowFields(i))
    requires !i.Move? ==> (op in {0x003C, 0x007C, 0x023C, 0x027C, 0x0A3C, 0x0A7C} <==> IsStatus(LowFields(i)))
    ensures Plan(op) == LowNeeds(i)
  {
  }

  // The immediate bit operations, and CAS.B with them.
  lemma StaticPlan(op: nat, f: Fields)
    requires f.line == 0 && ((f.x == 4 && f.m < 4) || (f.x == 5 && f.m == 3))
    requires LowSplit(op, f) && HighSplit(op, f)
    requires op !in {0x003C, 0x007C, 0x023C, 0x027C, 0x0A3C, 0x0A7C}
    ensures Plan(op) == [Word, Ea(f.mode, f.reg, 1)]
  {
    assert Bits(op, 8, 8) == 2 * f.x;
  }

  // Where CAS.W and CAS.L come out: nowhere.
  lemma CasPlan(op: nat, f: Fields)
    requires f.line == 0 && f.x in {6, 7} && f.m == 3
    requires LowSplit(op, f) && HighSplit(op, f)
    requires op !in {0x003C, 0x007C, 0x023C, 0x027C, 0x0A3C, 0x0A7C}
    ensures Plan(op) == []
  {
    assert Bits(op, 8, 8) == 2 * f.x;
  }

  // CAS.W and CAS.L are missed: no test is for CAS, and of its three sizes only
  // the byte falls under the one for the immediate bit operations.
  lemma LowTaken(i: Low)
    requires LowLegal(i)
    ensures Plan(Packed(LowFields(i))) == LowNeeds(i) <==> (i.Cas? ==> i.size == 1)
  {
    var f := LowFields(i);
    PackedLow(f);
    PackedHigh(f);
    if !i.Move? {
      StatusWords(f);
    }
    if i.BitStatic? || (i.Cas? && i.size == 1) {
      StaticPlan(Packed(f), f);
    } else if i.Cas? {
      CasPlan(Packed(f), f);
    } else {
      LowPlan(Packed(f), i);
    }
  }

  // ----- group 0100 -----------------------------------------------------------------

  datatype Misc =
    | Single(code: nat)                                           // RESET, NOP, RTE, RTS, TRAPV, RTR
    | WithWord(code: nat)                                         // STOP, RTD
    | Illegal
    | Status(kind: nat, mode: nat, reg: nat)                      // MOVE from and to SR and CCR
    | Unary(kind: nat, size: nat, mode: nat, reg: nat)            // NEGX, CLR, NEG, NOT
    | Tst(size: nat, mode: nat, reg: nat)
    | Tas(mode: nat, reg: nat)
    | Swap(reg: nat)
    | Pea(mode: nat, reg: nat)
    | Extend(opmode: nat, reg: nat)                               // EXT.W, EXT.L, EXTB.L
    | LinkWord(reg: nat) | LinkLong(reg: nat) | Unlk(reg: nat)
    | MoveUsp(from: bool, reg: nat)
    | Nbcd(mode: nat, reg: nat)
    | Jump(kind: nat, mode: nat, reg: nat)                        // JSR, JMP
    | MovemLong(load: bool, mode: nat, reg: nat)
    | MovemWord(load: bool, mode: nat, reg: nat)
    | Lea(an: nat, mode: nat, reg: nat)
    | MulDivLong(divide: bool, mode: nat, reg: nat)
    | Chk(dn: nat, long: bool, mode: nat, reg: nat)
    | Trap(vector: nat)

  function MiscFields(i: Misc): Fields {
    match i
    case Single(code) => Fields(4, 7, 1, 6, code)
    case WithWord(code) => Fields(4, 7, 1, 6, code)
    case Illegal => Fields(4, 5, 3, 7, 4)
    case Status(kind, mode, reg) => Fields(4, kind, 3, mode, reg)
    case Unary(kind, size, mode, reg) => Fields(4, kind, size, mode, reg)
    case Tst(size, mode, reg) => Fields(4, 5, size, mode, reg)
    case Tas(mode, reg) => Fields(4, 5, 3, mode, reg)
    case Swap(reg) => Fields(4, 4, 1, 0, reg)
    case Pea(mode, reg) => Fields(4, 4, 1, mode, reg)
    case Extend(opmode, reg) => Fields(4, 4, opmode, 0, reg)
    case LinkWord(reg) => Fields(4, 7, 1, 2, reg)
    case LinkLong(reg) => Fields(4, 4, 0, 1, reg)
    case Unlk(reg) => Fields(4, 7, 1, 3, reg)
    case MoveUsp(from, reg) => Fields(4, 7, 1, if from then 5 else 4, reg)
    case Nbcd(mode, reg) => Fields(4, 4, 0, mode, reg)
    case Jump(kind, mode, reg) => Fields(4, 7, 2 + kind, mode, reg)
    case MovemLong(load, mode, reg) => Fields(4, if load then 6 else 4, 3, mode, reg)
    case MovemWord(load, mode, reg) => Fields(4, if load then 6 else 4, 2, mode, reg)
    case Lea(an, mode, reg) => Fields(4, an, 7, mode, reg)
    case MulDivLong(divide, mode, reg) => Fields(4, 6, if divide then 1 else 0, mode, reg)
    case Chk(dn, long, mode, reg) => Fields(4, dn, if long then 4 else 6, mode, reg)
    case Trap(vector) => Fields(4, 7, 1, vector / 8, vector % 8)
  }

  // Modes the encodings of other instructions use do not occur.
  predicate MiscLegal(i: Misc) {
    InRange(MiscFields(i)) &&
    match i
    case Single(code) => code !in {2, 4}
    case WithWord(code) => code in {2, 4}
    case Status(kind, _, _) => kind < 4
    case Unary(kind, size, _, _) => kind < 4 && size < 3
    case Tst(size, _, _) => size < 3
    case Tas(mode, reg) => !(mode == 7 && reg == 4)
    case Pea(mode, _) => mode != 0
    case Extend(opmode, _) => opmode in {2, 3, 7}
    case Nbcd(mode, _) => mode != 1
    case Jump(kind, _, _) => kind < 2
    case MovemLong(_, mode, _) => mode >= 2
    case MovemWord(_, mode, _) => mode >= 2
    case Lea(_, mode, _) => mode != 0
    case Trap(vector) => vector < 16
    case _ => true
  }

  function MiscNeeds(i: Misc): seq<Part> {
    match i
    case WithWord(_) => [Word]
    case Status(_, mode, reg) => [Ea(mode, reg, 2)]
    case Unary(_, size, mode, reg) => [Ea(mode, reg, Operation(size))]
    case Tst(size, mode, reg) => [Ea(mode, reg, Operation(size))]
    case Tas(mode, reg) => [Ea(mode, reg, 1)]
    case Pea(mode, reg) => [Ea(mode, reg, 4)]
    case LinkWord(_) => [Word]
    case LinkLong(_) => [Long]
    case Nbcd(mode, reg) => [Ea(mode, reg, 1)]
    case Jump(_, mode, reg) => [Ea(mode, reg, 4)]
    case MovemLong(_, mode, reg) => [Word, Ea(mode, reg, 4)]
    case MovemWord(_, mode, reg) => [Word, Ea(mode, reg, 4)]
    case Lea(_, mode, reg) => [Ea(mode, reg, 4)]
    case MulDivLong(_, mode, reg) => [Word, Ea(mode, reg, 4)]
    case Chk(_, long, mode, reg) => [Ea(mode, reg, if long then 4 else 2)]
    case _ => []
  }

  // The nine words that are told apart by themselves: with a word behind them,
  // and without.
  predicate IsWithWord(f: Fields) { f.x == 7 && f.m == 1 && f.mode == 6 && f.reg in {2, 4} }

  predicate IsSingle(f: Fields) {
    (f.x == 7 && f.m == 1 && f.mode == 6 && f.reg !in {2, 4}) || (f.x == 5 && f.m == 3 && f.mode == 7 && f.reg == 4)
  }

  lemma SingleWords(f: Fields)
    requires InRange(f) && f.line == 4
    ensures Packed(f) in {0x4E70, 0x4E71, 0x4E73, 0x4E75, 0x4E76, 0x4E77, 0x4AFC} <==> IsSingle(f)
    ensures Packed(f) in {0x4E72, 0x4E74} <==> IsWithWord(f)
  {
  }

  // Where MOVEM.W comes out: nowhere.
  lemma MovemPlan(op: nat, f: Fields)
    requires f.line == 4 && f.x in {4, 6} && f.m == 2 && f.mode >= 2 && LowSplit(op, f) && HighSplit(op, f)
    requires op !in {0x4E70, 0x4E71, 0x4E73, 0x4E75, 0x4E76, 0x4E77, 0x4AFC, 0x4E72, 0x4E74}
    ensures Plan(op) == []
  {
  }

  lemma HighMiscPlan(op: nat, i: Misc)
    requires MiscLegal(i) && LowSplit(op, MiscFields(i)) && HighSplit(op, MiscFields(i))
    requires op in {0x4E70, 0x4E71, 0x4E73, 0x4E75, 0x4E76, 0x4E77, 0x4AFC} <==> IsSingle(MiscFields(i))
    requires op in {0x4E72, 0x4E74} <==> IsWithWord(MiscFields(i))
    requires MiscFields(i).x == 7
    ensures Plan(op) == MiscNeeds(i)
  {
  }

  lemma ChkPlan(op: nat, i: Misc)
    requires MiscLegal(i) && LowSplit(op, MiscFields(i)) && HighSplit(op, MiscFields(i))
    requires op in {0x4E70, 0x4E71, 0x4E73, 0x4E75, 0x4E76, 0x4E77, 0x4AFC} <==> IsSingle(MiscFields(i))
    requires op in {0x4E72, 0x4E74} <==> IsWithWord(MiscFields(i))
    requires MiscFields(i).x != 7 && MiscFields(i).m >= 4
    ensures Plan(op) == MiscNeeds(i)
  {
  }

  lemma LowMiscPlan(op: nat, i: Misc)
    requires MiscLegal(i) && LowSplit(op, MiscFields(i)) && HighSplit(op, MiscFields(i))
    requires op in {0x4E70, 0x4E71, 0x4E73, 0x4E75, 0x4E76, 0x4E77, 0x4AFC} <==> IsSingle(MiscFields(i))
    requires op in {0x4E72, 0x4E74} <==> IsWithWord(MiscFields(i))
    requires MiscFields(i).x != 7 && MiscFields(i).m < 4 && !i.MovemWord?
    ensures Plan(op) == MiscNeeds(i)
  {
  }

  lemma MiscPlan(op: nat, i: Misc)
    requires MiscLegal(i) && LowSplit(op, MiscFields(i)) && HighSplit(op, MiscFields(i))
    requires op in {0x4E70, 0x4E71, 0x4E73, 0x4E75, 0x4E76, 0x4E77, 0x4AFC} <==> IsSingle(MiscFields(i))
    requires op in {0x4E72, 0x4E74} <==> IsWithWord(MiscFields(i))
    ensures Plan(op) == MiscNeeds(i) <==> !i.MovemWord?
  {
    if MiscFields(i).x == 7 {
      HighMiscPlan(op, i);
    } else if MiscFields(i).m >= 4 {
      ChkPlan(op, i);
    } else if i.MovemWord? {
      MovemPlan(op, MiscFields(i));
    } else {
      LowMiscPlan(op, i);
    }
  }

  // MOVEM.W is the one that is missed: the decoder takes bits 7 and 6 of a MOVEM
  // for size and a constant, and they are the other way round.
  lemma MiscTaken(i: Misc)
    requires MiscLegal(i)
    ensures Plan(Packed(MiscFields(i))) == MiscNeeds(i) <==> !i.MovemWord?
  {
    var f := MiscFields(i);
    PackedLow(f);
    PackedHigh(f);
    SingleWords(f);
    MiscPlan(Packed(f), i);
  }

  // ----- groups 0101 to 0111, 1010 and 1111 ------------------------------------------

  // A condition in four bits: three of them, and the last.
  datatype Condition = Condition(high: nat, odd: bool)

  // A byte in the low end of the word.
  datatype Octal = Octal(a: nat, b: nat, c: nat) {
    function Value(): nat { 64 * a + 8 * b + c }
  }

  datatype Short =
    | Quick(amount: nat, subtract: bool, size: nat, mode: nat, reg: nat)   // ADDQ, SUBQ
    | Dbcc(cc: Condition, reg: nat)
    | Trapcc(cc: Condition, operand: nat)
    | Scc(cc: Condition, mode: nat, reg: nat)
    | Branch(cc: Condition, displacement: Octal)                  // BRA, BSR, Bcc
    | Moveq(dn: nat, data: Octal)
    | NotDecoded(f: Fields)                                       // lines A and F

  function ShortFields(i: Short): Fields {
    match i
    case Quick(amount, subtract, size, mode, reg) => Fields(5, amount, (if subtract then 4 else 0) + size, mode, reg)
    case Dbcc(cc, reg) => Fields(5, cc.high, if cc.odd then 7 else 3, 1, reg)
    case Trapcc(cc, operand) => Fields(5, cc.high, if cc.odd then 7 else 3, 7, operand)
    case Scc(cc, mode, reg) => Fields(5, cc.high, if cc.odd then 7 else 3, mode, reg)
    case Branch(cc, d) => Fields(6, cc.high, (if cc.odd then 4 else 0) + d.a, d.b, d.c)
    case Moveq(dn, data) => Fields(7, dn, data.a, data.b, data.c)
    case NotDecoded(f) => f
  }

  predicate ShortLegal(i: Short) {
    InRange(ShortFields(i)) &&
    match i
    case Quick(_, _, size, _, _) => size < 3
    case Trapcc(_, operand) => 2 <= operand <= 4
    case Scc(_, mode, reg) => mode != 1 && !(mode == 7 && 2 <= reg <= 4)
    case Branch(_, d) => d.a < 4
    case Moveq(_, data) => data.a < 4
    case NotDecoded(f) => f.line == 10 || f.line == 15
    case Dbcc(_, _) => true
  }

  function ShortNeeds(i: Short): seq<Part> {
    match i
    case Quick(_, _, size, mode, reg) => [Ea(mode, reg, Operation(size))]
    case Dbcc(_, _) => [Word]
    case Trapcc(_, operand) => if operand == 2 then [Word] else if operand == 3 then [Long] else []
    case Scc(_, mode, reg) => [Ea(mode, reg, 1)]
    case Branch(_, d) => if d.Value() == 0 then [Word] else if d.Value() == 255 then [Long] else []
    case Moveq(_, _) => []
    case NotDecoded(_) => []
  }

  lemma QuickPlan(op: nat, i: Short)
    requires i.Quick? && ShortLegal(i) && LowSplit(op, ShortFields(i))
    ensures Plan(op) == ShortNeeds(i)
  {
    assert Size(op) == i.size;
  }

  lemma ConditionPlan(op: nat, i: Short)
    requires (i.Dbcc? || i.Trapcc? || i.Scc?) && ShortLegal(i) && LowSplit(op, ShortFields(i))
    ensures Plan(op) == ShortNeeds(i)
  {
    assert Size(op) == 3;
  }

  lemma LowTwo(odd: bool, a: nat)
    requires a < 4
    ensures ((if odd then 4 else 0) + a) % 4 == a
  {
  }

  lemma BranchPlan(op: nat, i: Short)
    requires i.Branch? && ShortLegal(i) && LowSplit(op, ShortFields(i))
    ensures Plan(op) == ShortNeeds(i)
  {
    LowTwo(i.cc.odd, i.displacement.a);
    assert Bits(op, 0, 8) == i.displacement.Value();
    assert Bits(op, 12, 4) == 6;
  }

  lemma NonePlan(op: nat, i: Short)
    requires (i.Moveq? || i.NotDecoded?) && ShortLegal(i) && LowSplit(op, ShortFields(i))
    ensures Plan(op) == ShortNeeds(i)
  {
    assert Bits(op, 12, 4) in {7, 10, 15};
  }

  lemma ShortTaken(i: Short)
    requires ShortLegal(i)
    ensures Plan(Packed(ShortFields(i))) == ShortNeeds(i)
  {
    PackedLow(ShortFields(i));
    match i
    case Quick(_, _, _, _, _) => QuickPlan(Packed(ShortFields(i)), i);
    case Dbcc(_, _) => ConditionPlan(Packed(ShortFields(i)), i);
    case Trapcc(_, _) => ConditionPlan(Packed(ShortFields(i)), i);
    case Scc(_, _, _) => ConditionPlan(Packed(ShortFields(i)), i);
    case Branch(_, _) => BranchPlan(Packed(ShortFields(i)), i);
    case _ => NonePlan(Packed(ShortFields(i)), i);
  }

  // ----- groups 1000 to 1110 -------------------------------------------------------------

  datatype Arithmetic =
    | Address(line: nat, an: nat, long: bool, mode: nat, reg: nat)        // SUBA, CMPA, ADDA
    | MulDivWord(line: nat, dn: nat, signed: bool, mode: nat, reg: nat)
    | ToRegister(line: nat, dn: nat, size: nat, mode: nat, reg: nat)      // OR, SUB, CMP, AND, ADD
    | FromRegister(line: nat, dn: nat, size: nat, mode: nat, reg: nat)    // OR, SUB, EOR, AND, ADD
    | Extended(line: nat, x: nat, size: nat, memory: bool, y: nat)        // SUBX, ADDX
    | Cmpm(x: nat, size: nat, y: nat)
    | Bcd(line: nat, x: nat, memory: bool, y: nat)                        // SBCD, ABCD
    | Pack(unpack: bool, x: nat, memory: bool, y: nat)
    | Exg(kind: nat, x: nat, y: nat)
    | ShiftRegister(count: nat, left: bool, size: nat, kind: nat, reg: nat)
    | ShiftMemory(kind: nat, left: bool, mode: nat, reg: nat)
    | BitField(kind: nat, mode: nat, reg: nat)

  function ArithmeticFields(i: Arithmetic): Fields {
    match i
    case Address(line, an, long, mode, reg) => Fields(line, an, if long then 7 else 3, mode, reg)
    case MulDivWord(line, dn, signed, mode, reg) => Fields(line, dn, if signed then 7 else 3, mode, reg)
    case ToRegister(line, dn, size, mode, reg) => Fields(line, dn, size, mode, reg)
    case FromRegister(line, dn, size, mode, reg) => Fields(line, dn, 4 + size, mode, reg)
    case Extended(line, x, size, memory, y) => Fields(line, x, 4 + size, if memory then 1 else 0, y)
    case Cmpm(x, size, y) => Fields(11, x, 4 + size, 1, y)
    case Bcd(line, x, memory, y) => Fields(line, x, 4, if memory then 1 else 0, y)
    case Pack(unpack, x, memory, y) => Fields(8, x, if unpack then 6 else 5, if memory then 1 else 0, y)
    case Exg(kind, x, y) => Fields(12, x, if kind == 2 then 6 else 5, if kind == 0 then 0 else 1, y)
    case ShiftRegister(count, left, size, kind, reg) => Fields(14, count, (if left then 4 else 0) + size, kind, reg)
    case ShiftMemory(kind, left, mode, reg) => Fields(14, kind, if left then 7 else 3, mode, reg)
    case BitField(kind, mode, reg) => Fields(14, 4 + kind / 2, 4 * (kind % 2) + 3, mode, reg)
  }

  predicate ArithmeticLegal(i: Arithmetic) {
    InRange(ArithmeticFields(i)) &&
    match i
    case Address(line, _, _, _, _) => line in {9, 11, 13}
    case MulDivWord(line, _, _, _, _) => line in {8, 12}
    case ToRegister(line, _, size, _, _) => line in {8, 9, 11, 12, 13} && size < 3
    case FromRegister(line, _, size, mode, _) =>
      line in {8, 9, 11, 12, 13} && size < 3 && mode != 1 && (line != 11 ==> mode != 0)
    case Extended(line, _, size, _, _) => line in {9, 13} && size < 3
    case Cmpm(_, size, _) => size < 3
    case Bcd(line, _, _, _) => line in {8, 12}
    case Exg(kind, _, _) => kind < 3
    case ShiftRegister(_, _, size, _, _) => size < 3
    case ShiftMemory(kind, _, _, _) => kind < 4
    case BitField(kind, _, _) => kind < 8
    case Pack(_, _, _, _) => true
  }

  function ArithmeticNeeds(i: Arithmetic): seq<Part> {
    match i
    case Address(_, _, long, mode, reg) => [Ea(mode, reg, if long then 4 else 2)]
    case MulDivWord(_, _, _, mode, reg) => [Ea(mode, reg, 2)]
    case ToRegister(_, _, size, mode, reg) => [Ea(mode, reg, Operation(size))]
    case FromRegister(_, _, size, mode, reg) => [Ea(mode, reg, Operation(size))]
    case Pack(_, _, _, _) => [Word]
    case ShiftMemory(_, _, mode, reg) => [Ea(mode, reg, 2)]
    case BitField(_, mode, reg) => [Word, Ea(mode, reg, 1)]
    case _ => []
  }

  lemma ArithmeticPlan(op: nat, i: Arithmetic)
    requires ArithmeticLegal(i) && LowSplit(op, ArithmeticFields(i))
    ensures Plan(op) == ArithmeticNeeds(i)
  {
  }

  lemma ArithmeticTaken(i: Arithmetic)
    requires ArithmeticLegal(i)
    ensures Plan(Packed(ArithmeticFields(i))) == ArithmeticNeeds(i)
  {
    PackedLow(ArithmeticFields(i));
    ArithmeticPlan(Packed(ArithmeticFields(i)), i);
  }
}
