// How the disassembler of src/programs/m680x0dis/main.c walks through a buffer:
// which words each instruction takes, and the listing made of them.
module Disasm {
  import opened Word32

  type Byte = b: nat | b < 256

  type Buffer = seq<Byte>

  type Word16 = w: nat | w < 0x10000

  // `n` bits of a word, the lowest of them at `lo`.
  function Bits(w: nat, lo: nat, n: nat): nat
    decreases w, lo
  {
    if lo == 0 then w % Pow2(n) else Bits(w / 2, lo - 1, n)
  }

  // ----- fetching -------------------------------------------------------------------

  datatype Cursor = Cursor(pos: nat, truncated: bool)

  // The word at the cursor, or zero behind the end.
  function WordAt(buf: Buffer, p: nat): Word16 {
    if p + 2 <= |buf| then 256 * (buf[p] as int) + buf[p + 1] as int else 0
  }

  // What fetching from c to d can have done to the cursor, with at most n bytes.
  predicate Moved(buf: Buffer, c: Cursor, d: Cursor, n: nat) {
    && c.pos <= d.pos <= c.pos + n
    && (d.pos - c.pos) % 2 == 0
    && (c.pos <= |buf| ==> d.pos <= |buf|)
    && (c.truncated ==> d.truncated)
  }

  function Next(buf: Buffer, c: Cursor): (d: Cursor)
    ensures Moved(buf, c, d, 2)
  {
    if c.pos + 2 <= |buf| then Cursor(c.pos + 2, c.truncated) else Cursor(c.pos, true)
  }

  function NextLong(buf: Buffer, c: Cursor): (d: Cursor)
    ensures Moved(buf, c, d, 4)
  {
    Next(buf, Next(buf, c))
  }

  // A displacement by its size field: a word, a long or none.
  function Displacement(buf: Buffer, c: Cursor, size: nat): (d: Cursor)
    ensures Moved(buf, c, d, 4)
  {
    if size == 2 then Next(buf, c) else if size == 3 then NextLong(buf, c) else c
  }

  // An extension word with what it announces: nothing, when it is a brief one,
  // else a base displacement and, for memory indirection, an outer one.
  function Extension(buf: Buffer, c: Cursor): (d: Cursor)
    ensures Moved(buf, c, d, 10)
  {
    var ext := WordAt(buf, c.pos);
    var word := Next(buf, c);
    if Bits(ext, 8, 1) == 0 then word
    else
      var base := Displacement(buf, word, Bits(ext, 4, 2));
      if Bits(ext, 0, 3) == 0 then base else Displacement(buf, base, Bits(ext, 0, 2))
  }

  // What an instruction takes behind its first word.
  datatype Part = Word | Long | Ea(mode: nat, reg: nat, size: nat)

  function Address(buf: Buffer, c: Cursor, mode: nat, reg: nat, size: nat): (d: Cursor)
    ensures Moved(buf, c, d, 10)
  {
    if mode == 5 then Next(buf, c)
    else if mode == 6 then Extension(buf, c)
    else if mode != 7 then c
    else if reg == 0 || reg == 2 then Next(buf, c)
    else if reg == 1 then NextLong(buf, c)
    else if reg == 3 then Extension(buf, c)
    else if reg == 4 then if size == 1 || size == 2 then Next(buf, c) else NextLong(buf, c)
    else c
  }

  function Taken(buf: Buffer, c: Cursor, part: Part): (d: Cursor)
    ensures Moved(buf, c, d, 10)
  {
    match part
    case Word => Next(buf, c)
    case Long => NextLong(buf, c)
    case Ea(mode, reg, size) => Address(buf, c, mode, reg, size)
  }

  function AllTaken(buf: Buffer, c: Cursor, parts: seq<Part>): Cursor
    decreases parts
  {
    if parts == [] then c else AllTaken(buf, Taken(buf, c, parts[0]), parts[1..])
  }

  lemma AllTakenFrom(buf: Buffer, c: Cursor, d: Cursor, parts: seq<Part>)
    requires parts != [] && Taken(buf, c, parts[0]) == d
    ensures AllTaken(buf, c, parts) == AllTaken(buf, d, parts[1..])
  {
  }

  lemma MovedOn(buf: Buffer, c: Cursor, d: Cursor, e: Cursor, m: nat, n: nat)
    requires Moved(buf, c, d, m) && Moved(buf, d, e, n)
    ensures Moved(buf, c, e, m + n)
  {
  }

  lemma {:induction false} AllTakenMoved(buf: Buffer, c: Cursor, parts: seq<Part>)
    ensures Moved(buf, c, AllTaken(buf, c, parts), 10 * |parts|)
    decreases parts
  {
    if parts != [] {
      var d := Taken(buf, c, parts[0]);
      AllTakenMoved(buf, d, parts[1..]);
      MovedOn(buf, c, d, AllTaken(buf, d, parts[1..]), 10, 10 * (|parts| - 1));
    }
  }

  // ----- the instruction set ------------------------------------------------------------

  function Mode(op: nat): nat { Bits(op, 3, 3) }
  function Reg(op: nat): nat { Bits(op, 0, 3) }
  function Size(op: nat): nat { Bits(op, 6, 2) }
  function OpMode(op: nat): nat { Bits(op, 6, 3) }

  // The operand in the low six bits.
  function Operand(op: nat, size: nat): Part { Ea(Mode(op), Reg(op), size) }

  // A size field in bytes.
  function Bytes(field: nat): nat { if field == 0 then 1 else if field == 1 then 2 else 4 }

  // Immediate and bit operations, MOVEP, CHK2 and CMP2.
  function Plan0000(op: nat): (parts: seq<Part>)
    ensures |parts| <= 2
  {
    if op in {0x003C, 0x007C, 0x023C, 0x027C, 0x0A3C, 0x0A7C} then [Word]
    else if Bits(op, 11, 5) == 0 && Bits(op, 8, 1) == 0 && Size(op) == 3 && Bits(op, 9, 2) != 3 then
      [Word, Operand(op, Bytes(Bits(op, 9, 2)))]
    else if Bits(op, 11, 5) <= 1 && Bits(op, 8, 1) == 0 && Bits(op, 9, 3) !in {4, 7} && Size(op) != 3 then
      [if Size(op) == 2 then Long else Word, Operand(op, Bytes(Size(op)))]
    else if Mode(op) == 1 && Bits(op, 8, 1) != 0 && OpMode(op) >= 4 then [Word]
    else if Bits(op, 8, 1) != 0 then [Operand(op, 1)]
    else if 0x08 <= Bits(op, 8, 8) <= 0x0B then [Word, Operand(op, 1)]
    else []
  }

  // MOVE: the source operand first.
  function PlanMove(op: nat): (parts: seq<Part>)
    ensures |parts| <= 2
  {
    var size := if Bits(op, 12, 2) == 1 then 1 else if Bits(op, 12, 2) == 3 then 2 else 4;
    [Operand(op, size), Ea(Bits(op, 6, 3), Bits(op, 9, 3), size)]
  }

  // Miscellaneous; the order of the tests matters.
  function Plan0100(op: nat): (parts: seq<Part>)
    ensures |parts| <= 2
  {
    if op in {0x4E70, 0x4E71, 0x4E73, 0x4E75, 0x4E76, 0x4E77, 0x4AFC} then []
    else if op in {0x4E72, 0x4E74} then [Word]
    else if Bits(op, 6, 10) in {0x103, 0x10B, 0x113, 0x11B} then [Operand(op, 2)]
    else if Bits(op, 11, 5) == 8 && Bits(op, 8, 1) == 0 && Size(op) != 3 then [Operand(op, Bytes(Size(op)))]
    else if Bits(op, 8, 8) == 0x4A then [Operand(op, if Size(op) != 3 then Bytes(Size(op)) else 1)]
    else if Bits(op, 3, 13) == 0x908 then []
    else if Bits(op, 6, 10) == 0x121 then [Operand(op, 4)]
    else if Bits(op, 9, 7) == 0x24 && Mode(op) == 0 && OpMode(op) in {2, 3, 7} then []
    else if Bits(op, 3, 13) == 0x9CA then [Word]
    else if Bits(op, 3, 13) == 0x901 then [Long]
    else if Bits(op, 3, 13) == 0x9CB || Bits(op, 4, 12) == 0x4E6 then []
    else if Bits(op, 6, 10) == 0x120 then [Operand(op, 1)]
    else if Bits(op, 6, 10) in {0x13A, 0x13B} then [Operand(op, 4)]
    else if Bits(op, 11, 5) == 9 && Bits(op, 8, 2) == 0 && Bits(op, 6, 1) == 1 then [Word, Operand(op, 4)]
    else if Bits(op, 8, 1) == 1 && Size(op) == 3 then [Operand(op, 4)]
    else if Bits(op, 6, 10) in {0x130, 0x131} then [Word, Operand(op, 4)]
    else if OpMode(op) == 6 then [Operand(op, 2)]
    else if OpMode(op) == 4 then [Operand(op, 4)]
    else []
  }

  // ADDQ and SUBQ, Scc, DBcc and TRAPcc.
  function Plan0101(op: nat): (parts: seq<Part>)
    ensures |parts| <= 2
  {
    if Size(op) != 3 then [Operand(op, Bytes(Size(op)))]
    else if Mode(op) == 1 then [Word]
    else if Mode(op) == 7 && Reg(op) == 2 then [Word]
    else if Mode(op) == 7 && Reg(op) == 3 then [Long]
    else if Mode(op) == 7 && Reg(op) == 4 then []
    else [Operand(op, 1)]
  }

  // The branches.
  function Plan0110(op: nat): (parts: seq<Part>)
    ensures |parts| <= 2
  {
    if Bits(op, 0, 8) == 0 then [Word] else if Bits(op, 0, 8) == 0xFF then [Long] else []
  }

  // ADD, SUB, AND, OR, CMP and EOR; with register-to-register forms of their
  // own (`extended`), or with CMPM among them (`compare`).
  function PlanAlu(op: nat, extended: bool, compare: bool): (parts: seq<Part>)
    ensures |parts| <= 2
  {
    var opmode := OpMode(op);
    if opmode == 3 then [Operand(op, 2)]
    else if opmode == 7 then [Operand(op, 4)]
    else if opmode >= 4 && extended && (Mode(op) == 0 || Mode(op) == 1) then []
    else if opmode >= 4 && compare && Mode(op) == 1 then []
    else [Operand(op, if opmode == 0 || opmode == 4 then 1 else if opmode == 1 || opmode == 5 then 2 else 4)]
  }

  // OR and DIV, SBCD, PACK and UNPK.
  function Plan1000(op: nat): (parts: seq<Part>)
    ensures |parts| <= 2
  {
    var opmode, registers := OpMode(op), Mode(op) == 0 || Mode(op) == 1;
    if opmode == 3 || opmode == 7 then [Operand(op, 2)]
    else if opmode == 4 && registers then []
    else if (opmode == 5 || opmode == 6) && registers then [Word]
    else PlanAlu(op, false, false)
  }

  // AND and MUL, ABCD and EXG.
  function Plan1100(op: nat): (parts: seq<Part>)
    ensures |parts| <= 2
  {
    var opmode, registers := OpMode(op), Mode(op) == 0 || Mode(op) == 1;
    if opmode == 3 || opmode == 7 then [Operand(op, 2)]
    else if opmode == 4 && registers then []
    else if Bits(op, 8, 1) == 1 && Bits(op, 3, 5) in {8, 9, 17} then []
    else PlanAlu(op, true, false)
  }

  // Shifts, rotates and bit fields.
  function Plan1110(op: nat): (parts: seq<Part>)
    ensures |parts| <= 2
  {
    if Size(op) != 3 then []
    else if Bits(op, 11, 1) == 1 then [Word, Operand(op, 1)]
    else [Operand(op, 2)]
  }

  function Plan(op: nat): (parts: seq<Part>)
    ensures |parts| <= 2
  {
    var top := Bits(op, 12, 4);
    if top == 0 then Plan0000(op)
    else if 1 <= top <= 3 then PlanMove(op)
    else if top == 4 then Plan0100(op)
    else if top == 5 then Plan0101(op)
    else if top == 6 then Plan0110(op)
    else if top == 8 then Plan1000(op)
    else if top == 9 || top == 13 then PlanAlu(op, true, false)
    else if top == 11 then PlanAlu(op, false, true)
    else if top == 12 then Plan1100(op)
    else if top == 14 then Plan1110(op)
    else []
  }

  // ----- locality --------------------------------------------------------------------------

  // n bytes of a from i on are those of b from j on.
  predicate Same(a: Buffer, i: nat, b: Buffer, j: nat, n: nat) {
    i + n <= |a| && j + n <= |b| && a[i..i + n] == b[j..j + n]
  }

  lemma SliceOfSlice(a: Buffer, i: nat, n: nat, from: nat, k: nat)
    requires i + n <= |a| && from + k <= n
    ensures a[i..i + n][from..from + k] == a[i + from..i + from + k]
  {
    var x, y := a[i..i + n][from..from + k], a[i + from..i + from + k];
    forall t | 0 <= t < k ensures x[t] == y[t] {
      assert x[t] == a[i..i + n][from + t];
    }
  }

  lemma SamePart(a: Buffer, i: nat, b: Buffer, j: nat, n: nat, from: nat, k: nat)
    requires Same(a, i, b, j, n) && from + k <= n
    ensures Same(a, i + from, b, j + from, k)
  {
    SliceOfSlice(a, i, n, from, k);
    SliceOfSlice(b, j, n, from, k);
  }

  lemma SameSplit(a: Buffer, i: nat, b: Buffer, j: nat, n: nat, k: nat)
    requires Same(a, i, b, j, n) && k <= n
    ensures Same(a, i, b, j, k) && Same(a, i + k, b, j + k, n - k)
  {
    SamePart(a, i, b, j, n, 0, k);
    SamePart(a, i, b, j, n, k, n - k);
  }

  lemma SameWord(a: Buffer, i: nat, b: Buffer, j: nat, n: nat, from: nat)
    requires Same(a, i, b, j, n) && from + 2 <= n
    ensures WordAt(a, i + from) == WordAt(b, j + from)
  {
    assert a[i + from] == a[i..i + n][from] && a[i + from + 1] == a[i..i + n][from + 1];
    assert b[j + from] == b[j..j + n][from] && b[j + from + 1] == b[j..j + n][from + 1];
  }

  // A fetch that went well in one buffer goes the same way in another that has
  // the same bytes, wherever it has them.
  lemma DisplacementLocal(a: Buffer, i: nat, b: Buffer, j: nat, size: nat)
    requires var d := Displacement(a, Cursor(i, false), size); !d.truncated && Same(a, i, b, j, d.pos - i)
    ensures var n := Displacement(a, Cursor(i, false), size).pos - i;
            Displacement(b, Cursor(j, false), size) == Cursor(j + n, false)
  {
  }

  // An extension word that announces more is its own word and two displacements.
  lemma ExtensionParts(buf: Buffer, i: nat) returns (base: Cursor)
    requires !Extension(buf, Cursor(i, false)).truncated && Bits(WordAt(buf, i), 8, 1) != 0
    ensures i + 2 <= |buf| && base == Displacement(buf, Cursor(i + 2, false), Bits(WordAt(buf, i), 4, 2))
    ensures !base.truncated && i + 2 <= base.pos <= Extension(buf, Cursor(i, false)).pos
    ensures Extension(buf, Cursor(i, false))
         == if Bits(WordAt(buf, i), 0, 3) == 0 then base else Displacement(buf, base, Bits(WordAt(buf, i), 0, 2))
  {
    base := Displacement(buf, Cursor(i + 2, false), Bits(WordAt(buf, i), 4, 2));
  }

  lemma OuterLocal(a: Buffer, i: nat, b: Buffer, j: nat, base: nat, size: nat, n: nat)
    requires i <= base <= i + n && Same(a, i, b, j, n)
    requires Displacement(a, Cursor(base, false), size) == Cursor(i + n, false)
    ensures Displacement(b, Cursor(j + base - i, false), size) == Cursor(j + n, false)
  {
    SamePart(a, i, b, j, n, base - i, i + n - base);
    DisplacementLocal(a, base, b, j + base - i, size);
  }

  lemma BaseLocal(a: Buffer, i: nat, b: Buffer, j: nat, base: nat, size: nat, n: nat)
    requires i + 2 <= base <= i + n && Same(a, i, b, j, n)
    requires Displacement(a, Cursor(i + 2, false), size) == Cursor(base, false)
    ensures Next(b, Cursor(j, false)) == Cursor(j + 2, false)
    ensures Displacement(b, Cursor(j + 2, false), size) == Cursor(j + base - i, false)
  {
    SamePart(a, i, b, j, n, 2, base - i - 2);
    DisplacementLocal(a, i + 2, b, j + 2, size);
  }

  lemma ExtensionLocal(a: Buffer, i: nat, b: Buffer, j: nat)
    requires var d := Extension(a, Cursor(i, false)); !d.truncated && Same(a, i, b, j, d.pos - i)
    ensures Extension(b, Cursor(j, false)) == Cursor(j + Extension(a, Cursor(i, false)).pos - i, false)
  {
    var n := Extension(a, Cursor(i, false)).pos - i;
    SameWord(a, i, b, j, n, 0);
    var ext := WordAt(a, i);
    if Bits(ext, 8, 1) != 0 {
      var base := ExtensionParts(a, i);
      BaseLocal(a, i, b, j, base.pos, Bits(ext, 4, 2), n);
      if Bits(ext, 0, 3) != 0 {
        OuterLocal(a, i, b, j, base.pos, Bits(ext, 0, 2), n);
      }
    }
  }

  lemma PartLocal(a: Buffer, i: nat, m: nat, b: Buffer, j: nat, part: Part)
    requires Taken(a, Cursor(i, false), part) == Cursor(m, false) && i <= m && Same(a, i, b, j, m - i)
    ensures Taken(b, Cursor(j, false), part) == Cursor(j + (m - i), false)
  {
    if part.Ea? && (part.mode == 6 || (part.mode == 7 && part.reg == 3)) {
      ExtensionLocal(a, i, b, j);
    }
  }

  lemma FirstPart(a: Buffer, i: nat, parts: seq<Part>, e: nat) returns (m: nat)
    requires parts != [] && AllTaken(a, Cursor(i, false), parts) == Cursor(e, false)
    ensures Taken(a, Cursor(i, false), parts[0]) == Cursor(m, false) && i <= m <= e
    ensures AllTaken(a, Cursor(m, false), parts[1..]) == Cursor(e, false)
  {
    var first := Taken(a, Cursor(i, false), parts[0]);
    AllTakenMoved(a, first, parts[1..]);
    m := first.pos;
  }

  lemma FirstMoved(a: Buffer, i: nat, m: nat, e: nat, b: Buffer, j: nat, parts: seq<Part>)
    requires parts != [] && Taken(a, Cursor(i, false), parts[0]) == Cursor(m, false)
    requires i <= m <= e && Same(a, i, b, j, e - i)
    ensures Same(a, m, b, j + (m - i), e - m)
    ensures AllTaken(b, Cursor(j, false), parts) == AllTaken(b, Cursor(j + (m - i), false), parts[1..])
  {
    SameSplit(a, i, b, j, e - i, m - i);
    PartLocal(a, i, m, b, j, parts[0]);
    AllTakenFrom(b, Cursor(j, false), Cursor(j + (m - i), false), parts);
  }

  // The first part in both buffers, and what is left.
  lemma FirstLocal(a: Buffer, i: nat, e: nat, b: Buffer, j: nat, parts: seq<Part>) returns (m: nat)
    requires parts != [] && AllTaken(a, Cursor(i, false), parts) == Cursor(e, false)
    requires i <= e && Same(a, i, b, j, e - i)
    ensures i <= m <= e && Same(a, m, b, j + (m - i), e - m)
    ensures AllTaken(a, Cursor(m, false), parts[1..]) == Cursor(e, false)
    ensures AllTaken(b, Cursor(j, false), parts) == AllTaken(b, Cursor(j + (m - i), false), parts[1..])
  {
    m := FirstPart(a, i, parts, e);
    FirstMoved(a, i, m, e, b, j, parts);
  }

  lemma NoneTaken(buf: Buffer, c: Cursor)
    ensures AllTaken(buf, c, []) == c
  {
  }

  // From i to e in one buffer, and from j to f in the other.
  lemma {:induction false} PartsLocal(a: Buffer, i: nat, e: nat, b: Buffer, j: nat, f: nat, parts: seq<Part>)
    requires AllTaken(a, Cursor(i, false), parts) == Cursor(e, false)
    requires i <= e && f == j + (e - i) && Same(a, i, b, j, e - i)
    ensures AllTaken(b, Cursor(j, false), parts) == Cursor(f, false)
    decreases parts
  {
    if parts == [] {
      NoneTaken(a, Cursor(i, false));
      NoneTaken(b, Cursor(j, false));
    } else {
      var m := FirstLocal(a, i, e, b, j, parts);
      PartsLocal(a, m, e, b, j + (m - i), f, parts[1..]);
    }
  }

  // ----- the listing -------------------------------------------------------------------------

  // A line: the address, the words and whether the buffer broke off within the
  // instruction, which is then listed as one raw word.
  datatype Line = Line(pc: nat, words: seq<Word16>, cut: bool)

  function Words(buf: Buffer, from: nat, upto: nat): (ws: seq<Word16>)
    requires from <= upto <= |buf| && (upto - from) % 2 == 0
    ensures |ws| == (upto - from) / 2
    decreases upto - from
  {
    if from == upto then [] else [WordAt(buf, from)] + Words(buf, from + 2, upto)
  }

  // Which words each first word asks for. How a listing runs does not depend on it.
  type Table = t: nat -> seq<Part> | forall op: nat :: |t(op)| <= 2
    witness (op: nat) => []

  const FORMATS: Table := (op: nat) => Plan(op)

  // Where decoding the instruction at p ends, and where the next line begins.
  function Decoded(t: Table, buf: Buffer, p: nat): (d: Cursor)
    requires p + 2 <= |buf|
    ensures Moved(buf, Cursor(p + 2, false), d, 20)
  {
    var c, parts := Cursor(p + 2, false), t(WordAt(buf, p));
    AllTakenMoved(buf, c, parts);
    AllTaken(buf, c, parts)
  }

  function End(t: Table, buf: Buffer, p: nat): (q: nat)
    requires p + 2 <= |buf|
    ensures p + 2 <= q <= p + 22 && q <= |buf| && (q - p) % 2 == 0
  {
    var d := Decoded(t, buf, p);
    if d.truncated then p + 2 else d.pos
  }

  function LineAt(t: Table, buf: Buffer, base: nat, p: nat): Line
    requires p + 2 <= |buf|
  {
    Line((base + p) % TWO32, Words(buf, p, End(t, buf, p)), Decoded(t, buf, p).truncated)
  }

  function Listing(t: Table, buf: Buffer, base: nat, p: nat): seq<Line>
    decreases |buf| - p
  {
    if p + 2 > |buf| then [] else [LineAt(t, buf, base, p)] + Listing(t, buf, base, End(t, buf, p))
  }

  function AllWords(lines: seq<Line>): seq<Word16> {
    if lines == [] then [] else lines[0].words + AllWords(lines[1..])
  }

  lemma {:induction false} WordsSplit(buf: Buffer, from: nat, mid: nat, upto: nat)
    requires from <= mid <= upto <= |buf| && (mid - from) % 2 == 0 && (upto - mid) % 2 == 0
    ensures Words(buf, from, upto) == Words(buf, from, mid) + Words(buf, mid, upto)
    decreases mid - from
  {
    if from < mid {
      WordsSplit(buf, from + 2, mid, upto);
    }
  }

  // The buffer from p on without an odd last byte.
  function EvenEnd(buf: Buffer, p: nat): (q: nat)
    requires p <= |buf|
    ensures p <= q <= |buf| && q + 1 >= |buf| && (q - p) % 2 == 0
  {
    |buf| - (|buf| - p) % 2
  }

  lemma SameEnd(buf: Buffer, p: nat, q: nat)
    requires p <= q <= |buf| && (q - p) % 2 == 0
    ensures EvenEnd(buf, q) == EvenEnd(buf, p)
  {
  }

  lemma AllWordsMore(x: Line, l: seq<Line>)
    ensures AllWords([x] + l) == x.words + AllWords(l)
  {
    assert ([x] + l)[1..] == l;
  }

  lemma TilesStep(buf: Buffer, p: nat, q: nat, x: Line, rest: seq<Line>)
    requires p <= q <= |buf| && (q - p) % 2 == 0 && x.words == Words(buf, p, q)
    requires AllWords(rest) == Words(buf, q, EvenEnd(buf, q))
    ensures AllWords([x] + rest) == Words(buf, p, EvenEnd(buf, p))
  {
    SameEnd(buf, p, q);
    WordsSplit(buf, p, q, EvenEnd(buf, p));
    AllWordsMore(x, rest);
  }

  // The lines tile the even part of the buffer: no word is left out or listed
  // twice, whatever is decoded.
  lemma {:induction false} ListingTiles(t: Table, buf: Buffer, base: nat, p: nat)
    requires p <= |buf|
    ensures AllWords(Listing(t, buf, base, p)) == Words(buf, p, EvenEnd(buf, p))
    decreases |buf| - p
  {
    if p + 2 <= |buf| {
      var x, q := LineAt(t, buf, base, p), End(t, buf, p);
      var rest := Listing(t, buf, base, q);
      ListingTiles(t, buf, base, q);
      TilesStep(buf, p, q, x, rest);
      assert Listing(t, buf, base, p) == [x] + rest;
    }
  }

  lemma LineSize(t: Table, buf: Buffer, base: nat, p: nat)
    requires p + 2 <= |buf|
    ensures var line := LineAt(t, buf, base, p);
            && 1 <= |line.words| <= 11
            && line.pc == (base + p) % TWO32
            && End(t, buf, p) == p + 2 * |line.words|
  {
  }

  lemma WordsBefore(x: Line, l: seq<Line>, i: nat)
    requires i <= |l|
    ensures AllWords(([x] + l)[..i + 1]) == x.words + AllWords(l[..i])
  {
    assert ([x] + l)[..i + 1] == [x] + l[..i];
    AllWordsMore(x, l[..i]);
  }

  // A line of a list has 1 to 11 words, and the address of what is before it.
  ghost predicate InPlace(l: seq<Line>, at: nat, i: nat)
    requires i < |l|
  {
    1 <= |l[i].words| <= 11 && l[i].pc == (at + 2 * |AllWords(l[..i])|) % TWO32
  }

  lemma InPlaceBehind(x: Line, rest: seq<Line>, at: nat, i: nat)
    requires i < |rest| && InPlace(rest, at + 2 * |x.words|, i)
    ensures InPlace([x] + rest, at, i + 1)
  {
    WordsBefore(x, rest, i);
  }

  // All of them, each behind the one before.
  ghost predicate AllInPlace(l: seq<Line>, at: nat)
    decreases l
  {
    l == [] || (1 <= |l[0].words| <= 11 && l[0].pc == at % TWO32 && AllInPlace(l[1..], at + 2 * |l[0].words|))
  }

  lemma {:induction false} EachInPlace(l: seq<Line>, at: nat, i: nat)
    requires AllInPlace(l, at) && i < |l|
    ensures InPlace(l, at, i)
    decreases l
  {
    if i == 0 {
      assert l[..0] == [];
    } else {
      EachInPlace(l[1..], at + 2 * |l[0].words|, i - 1);
      InPlaceBehind(l[0], l[1..], at, i - 1);
      assert l == [l[0]] + l[1..];
    }
  }

  lemma {:induction false} ListingInPlace(t: Table, buf: Buffer, base: nat, p: nat, at: nat)
    requires at == base + p
    ensures AllInPlace(Listing(t, buf, base, p), at)
    decreases |buf| - p
  {
    if p + 2 <= |buf| {
      LineSize(t, buf, base, p);
      var x, q := LineAt(t, buf, base, p), End(t, buf, p);
      ListingInPlace(t, buf, base, q, at + 2 * |x.words|);
      var rest := Listing(t, buf, base, q);
      assert ([x] + rest)[1..] == rest;
    }
  }

  // Every line has 1 to 11 words and stands at the address of its first one.
  lemma LineSizes(t: Table, buf: Buffer, base: nat, p: nat, i: nat)
    requires i < |Listing(t, buf, base, p)|
    ensures InPlace(Listing(t, buf, base, p), base + p, i)
  {
    ListingInPlace(t, buf, base, p, base + p);
    EachInPlace(Listing(t, buf, base, p), base + p, i);
  }

  lemma LongBits()
    ensures Bits(0x0133, 8, 1) == 1 && Bits(0x0133, 4, 2) == 3 && Bits(0x0133, 0, 3) == 3 && Bits(0x0133, 0, 2) == 3
  {
  }

  lemma LongTaken(buf: Buffer, p: nat)
    requires p + 4 <= |buf|
    ensures NextLong(buf, Cursor(p, false)) == Cursor(p + 4, false)
  {
  }

  lemma LongExtension(buf: Buffer, p: nat)
    requires p + 10 <= |buf| && WordAt(buf, p) == 0x0133
    ensures Extension(buf, Cursor(p, false)) == Cursor(p + 10, false)
  {
    LongBits();
    LongTaken(buf, p + 2);
    LongTaken(buf, p + 6);
  }

  lemma LongestBits()
    ensures Bits(0x2DB0, 12, 4) == 2 && Bits(0x2DB0, 12, 2) == 2 && Bits(0x2DB0, 9, 3) == 6
    ensures Bits(0x2DB0, 6, 3) == 6 && Bits(0x2DB0, 3, 3) == 6 && Bits(0x2DB0, 0, 3) == 0
  {
  }

  // MOVE.L with both operands indexed.
  lemma LongestMove()
    ensures PlanMove(0x2DB0) == [Ea(6, 0, 4), Ea(6, 6, 4)]
  {
    LongestBits();
  }

  lemma LongestPlan()
    ensures FORMATS(0x2DB0) == [Ea(6, 0, 4), Ea(6, 6, 4)]
  {
    LongestMove();
    LongestBits();
    assert Plan(0x2DB0) == PlanMove(0x2DB0);
  }

  lemma TwoTaken(buf: Buffer, c: Cursor, first: Part, second: Part)
    ensures AllTaken(buf, c, [first, second]) == Taken(buf, Taken(buf, c, first), second)
  {
    var d := Taken(buf, c, first);
    assert [first, second][1..] == [second] && [second][1..] == [];
    assert AllTaken(buf, d, [second]) == AllTaken(buf, Taken(buf, d, second), []);
  }

  lemma WholeOf(t: Table, buf: Buffer, base: nat, p: nat, q: nat)
    requires p + 2 <= q <= |buf| && (q - p) % 2 == 0
    requires AllTaken(buf, Cursor(p + 2, false), t(WordAt(buf, p))) == Cursor(q, false)
    ensures |LineAt(t, buf, base, p).words| == (q - p) / 2 && !LineAt(t, buf, base, p).cut
  {
    assert Decoded(t, buf, p) == Cursor(q, false);
  }

  lemma LongestTaken(buf: Buffer)
    requires |buf| >= 22 && WordAt(buf, 2) == 0x0133 && WordAt(buf, 12) == 0x0133
    ensures AllTaken(buf, Cursor(2, false), [Ea(6, 0, 4), Ea(6, 6, 4)]) == Cursor(22, false)
  {
    LongExtension(buf, 2);
    LongExtension(buf, 12);
    TwoTaken(buf, Cursor(2, false), Ea(6, 0, 4), Ea(6, 6, 4));
  }

  lemma LongestFor(t: Table, buf: Buffer, base: nat)
    requires |buf| >= 22 && WordAt(buf, 0) == 0x2DB0 && t(0x2DB0) == [Ea(6, 0, 4), Ea(6, 6, 4)]
    requires WordAt(buf, 2) == 0x0133 && WordAt(buf, 12) == 0x0133
    ensures |LineAt(t, buf, base, 0).words| == 11 && !LineAt(t, buf, base, 0).cut
  {
    LongestTaken(buf);
    WholeOf(t, buf, base, 0, 22);
  }

  // The bound is met: a move between two operands with long displacements.
  lemma LongestLine(buf: Buffer, base: nat)
    requires |buf| >= 22 && WordAt(buf, 0) == 0x2DB0
    requires WordAt(buf, 2) == 0x0133 && WordAt(buf, 12) == 0x0133
    ensures |LineAt(FORMATS, buf, base, 0).words| == 11 && !LineAt(FORMATS, buf, base, 0).cut
  {
    LongestPlan();
    LongestFor(FORMATS, buf, base);
  }

  // ----- listing a part, or more ------------------------------------------------------------------

  lemma DecodedLocal(t: Table, a: Buffer, i: nat, b: Buffer, j: nat)
    requires i + 2 <= |a| && !Decoded(t, a, i).truncated && Same(a, i, b, j, End(t, a, i) - i)
    ensures Decoded(t, b, j) == Cursor(j + End(t, a, i) - i, false)
  {
    var n := End(t, a, i) - i;
    SameWord(a, i, b, j, n, 0);
    SamePart(a, i, b, j, n, 2, n - 2);
    PartsLocal(a, i + 2, i + n, b, j + 2, j + n, t(WordAt(a, i)));
  }

  lemma {:induction false} WordsLocal(a: Buffer, i: nat, b: Buffer, j: nat, n: nat)
    requires Same(a, i, b, j, n) && n % 2 == 0
    ensures Words(a, i, i + n) == Words(b, j, j + n)
    decreases n
  {
    if n > 0 {
      SameWord(a, i, b, j, n, 0);
      SamePart(a, i, b, j, n, 2, n - 2);
      WordsLocal(a, i + 2, b, j + 2, n - 2);
    }
  }

  lemma LineLocal(t: Table, a: Buffer, i: nat, b: Buffer, j: nat, base: nat, base': nat)
    requires i + 2 <= |a| && !Decoded(t, a, i).truncated && Same(a, i, b, j, End(t, a, i) - i)
    requires base + i == base' + j
    ensures j + 2 <= |b| && End(t, b, j) - j == End(t, a, i) - i && LineAt(t, a, base, i) == LineAt(t, b, base', j)
  {
    DecodedLocal(t, a, i, b, j);
    WordsLocal(a, i, b, j, End(t, a, i) - i);
  }

  lemma SameRest(buf: Buffer, k: nat, q: nat, n: nat)
    requires k + q + n <= |buf|
    ensures Same(buf, k + q, buf[k..], q, n) && Same(buf[k..], q, buf, k + q, n)
  {
    assert buf[k..][q..q + n] == buf[k + q..k + q + n];
  }

  lemma StillCut(t: Table, buf: Buffer, p: nat, k: nat)
    requires k <= p && p + 2 <= |buf| && Decoded(t, buf, p).truncated
    ensures Decoded(t, buf[k..], p - k).truncated
  {
    if !Decoded(t, buf[k..], p - k).truncated {
      SameRest(buf, k, p - k, End(t, buf[k..], p - k) - (p - k));
      DecodedLocal(t, buf[k..], p - k, buf, p);
    }
  }

  lemma CutShift(t: Table, buf: Buffer, base: nat, p: nat, k: nat)
    requires k <= p && p + 2 <= |buf| && Decoded(t, buf, p).truncated
    ensures End(t, buf[k..], p - k) == p + 2 - k && End(t, buf, p) == p + 2
    ensures LineAt(t, buf[k..], base + k, p - k) == LineAt(t, buf, base, p)
  {
    StillCut(t, buf, p, k);
    SameRest(buf, k, p - k, 2);
    WordsLocal(buf, p, buf[k..], p - k, 2);
  }

  // The line at p of a buffer is the line at p - k of what follows its first k bytes.
  lemma LineShift(t: Table, buf: Buffer, base: nat, p: nat, k: nat)
    requires k <= p && p + 2 <= |buf|
    ensures End(t, buf[k..], p - k) == End(t, buf, p) - k
    ensures LineAt(t, buf[k..], base + k, p - k) == LineAt(t, buf, base, p)
  {
    if Decoded(t, buf, p).truncated {
      CutShift(t, buf, base, p, k);
    } else {
      SameRest(buf, k, p - k, End(t, buf, p) - p);
      LineLocal(t, buf, p, buf[k..], p - k, base, base + k);
    }
  }

  // From any line on, the listing is that of the rest of the buffer, listed on
  // its own at its own address.
  lemma {:induction false} Relisting(t: Table, buf: Buffer, base: nat, p: nat, k: nat)
    requires k <= p <= |buf|
    ensures Listing(t, buf, base, p) == Listing(t, buf[k..], base + k, p - k)
    decreases |buf| - p
  {
    if p + 2 <= |buf| {
      LineShift(t, buf, base, p, k);
      Relisting(t, buf, base, End(t, buf, p), k);
    }
  }

  // The lines before the first one that is cut.
  function Uncut(lines: seq<Line>): (n: nat)
    ensures n <= |lines|
  {
    if lines == [] || lines[0].cut then 0 else 1 + Uncut(lines[1..])
  }

  predicate Agree(l: seq<Line>, m: seq<Line>, n: nat) {
    n <= |l| && n <= |m| && l[..n] == m[..n]
  }

  lemma AgreeMore(x: Line, l: seq<Line>, m: seq<Line>, n: nat)
    requires Agree(l, m, n)
    ensures Agree([x] + l, [x] + m, n + 1)
  {
    assert ([x] + l)[..n + 1] == [x] + l[..n] && ([x] + m)[..n + 1] == [x] + m[..n];
  }

  lemma LineAppended(t: Table, buf: Buffer, more: Buffer, base: nat, p: nat)
    requires p + 2 <= |buf| && !Decoded(t, buf, p).truncated
    ensures LineAt(t, buf + more, base, p) == LineAt(t, buf, base, p) && End(t, buf + more, p) == End(t, buf, p)
  {
    assert (buf + more)[p..End(t, buf, p)] == buf[p..End(t, buf, p)];
    LineLocal(t, buf, p, buf + more, p, base, base);
  }

  // More bytes behind the buffer change none of the lines before the first one
  // that is cut.
  lemma {:induction false} Appending(t: Table, buf: Buffer, more: Buffer, base: nat, p: nat)
    requires p <= |buf|
    ensures Agree(Listing(t, buf + more, base, p), Listing(t, buf, base, p), Uncut(Listing(t, buf, base, p)))
    decreases |buf| - p
  {
    if p + 2 <= |buf| && !Decoded(t, buf, p).truncated {
      var q := End(t, buf, p);
      LineAppended(t, buf, more, base, p);
      Appending(t, buf, more, base, q);
      var rest := Listing(t, buf, base, q);
      assert ([LineAt(t, buf, base, p)] + rest)[1..] == rest;
      AgreeMore(LineAt(t, buf, base, p), Listing(t, buf + more, base, q), rest, Uncut(rest));
    }
  }

  // ----- the program ---------------------------------------------------------------------------------

  const FIELD: nat := 64

  function HexDigit(v: nat): char
    requires v < 16
  {
    if v < 10 then '0' + v as char else 'A' + (v - 10) as char
  }

  // Four digits and a space.
  function HexWord(hi: Byte, lo: Byte): string {
    [HexDigit(hi / 16), HexDigit(hi % 16), HexDigit(lo / 16), HexDigit(lo % 16), ' ']
  }

  function HexText(ws: seq<Word16>): (s: string)
    ensures |s| == 5 * |ws|
  {
    if ws == [] then ""
    else HexText(ws[..|ws| - 1]) + HexWord((ws[|ws| - 1] as int) / 256, (ws[|ws| - 1] as int) % 256)
  }

  const DIGITS := "0123456789ABCDEF"

  lemma DigitIs(v: nat)
    requires v < 16
    ensures HexDigit(v) == DIGITS[v]
  {
  }

  // The four digits of a word.
  lemma Nibbles(w: nat)
    ensures w / 256 / 16 == w / 4096 && w % 256 / 16 == w / 16 % 16 && w % 256 % 16 == w % 16
  {
  }

  lemma HexWordIs(w: Word16)
    ensures HexWord((w as int) / 256, (w as int) % 256)
         == [DIGITS[w / 4096], DIGITS[w / 256 % 16], DIGITS[w / 16 % 16], DIGITS[w % 16], ' ']
  {
    Nibbles(w);
    DigitIs((w as int) / 4096);
    DigitIs((w as int) / 256 % 16);
    DigitIs((w as int) / 16 % 16);
    DigitIs((w as int) % 16);
  }

  // Each word is printed as its four hexadecimal digits and a space.
  lemma {:induction false} TextAt(ws: seq<Word16>, i: nat)
    requires i < |ws|
    ensures var w := ws[i];
            HexText(ws)[5 * i..5 * i + 5]
            == [DIGITS[w / 4096], DIGITS[w / 256 % 16], DIGITS[w / 16 % 16], DIGITS[w % 16], ' ']
  {
    var n := |ws| - 1;
    if i == n {
      HexWordIs(ws[n]);
    } else {
      TextAt(ws[..n], i);
      assert HexText(ws)[5 * i..5 * i + 5] == HexText(ws[..n])[5 * i..5 * i + 5];
    }
  }

  // The text of k words.
  function Field(buf: Buffer, from: nat, k: nat): (s: string)
    requires from + 2 * k <= |buf|
    ensures |s| == 5 * k
  {
    HexText(Words(buf, from, from + 2 * k))
  }

  lemma WordsMore(buf: Buffer, from: nat, i: nat)
    requires from <= i && i + 2 <= |buf| && (i - from) % 2 == 0
    ensures Words(buf, from, i + 2) == Words(buf, from, i) + [WordAt(buf, i)]
  {
    WordsSplit(buf, from, i, i + 2);
    assert Words(buf, i, i + 2) == [WordAt(buf, i)] + Words(buf, i + 2, i + 2);
  }

  lemma TextMore(ws: seq<Word16>, hi: Byte, lo: Byte, w: Word16)
    requires w as int == 256 * (hi as int) + lo as int
    ensures HexText(ws + [w]) == HexText(ws) + HexWord(hi, lo)
  {
    assert (ws + [w])[..|ws|] == ws;
  }

  lemma HexMore(buf: Buffer, from: nat, k: nat)
    requires from + 2 * k + 2 <= |buf|
    ensures var i := from + 2 * k; Field(buf, from, k + 1) == Field(buf, from, k) + HexWord(buf[i], buf[i + 1])
  {
    var i := from + 2 * k;
    WordsMore(buf, from, i);
    TextMore(Words(buf, from, i), buf[i], buf[i + 1], WordAt(buf, i));
  }

  lemma Regroup(a: seq<Line>, x: Line, b: seq<Line>)
    ensures a + ([x] + b) == (a + [x]) + b
  {
  }

  class Disassembler {
    const buf: Buffer
    const table: Table
    var pos: nat
    var truncated: bool

    ghost function State(): Cursor
      reads this
    {
      Cursor(pos, truncated)
    }

    constructor (buf: Buffer)
      ensures this.buf == buf && table == FORMATS && State() == Cursor(0, false)
    {
      this.buf := buf;
      table := FORMATS;
      pos := 0;
      truncated := false;
    }

    method Fetch16() returns (v: nat)
      modifies this
      ensures v == WordAt(buf, old(pos)) && State() == Next(buf, old(State()))
    {
      if pos + 2 > |buf| {
        truncated := true;
        return 0;
      }
      v := 256 * (buf[pos] as int) + buf[pos + 1] as int;
      pos := pos + 2;
    }

    method Fetch32() returns (v: nat)
      modifies this
      ensures State() == NextLong(buf, old(State()))
      ensures v == 0x10000 * WordAt(buf, old(pos)) + WordAt(buf, Next(buf, old(State())).pos)
    {
      var hi := Fetch16();
      var lo := Fetch16();
      v := 0x10000 * hi + lo;
    }

    method FetchDisplacement(size: nat)
      modifies this
      ensures State() == Displacement(buf, old(State()), size)
    {
      if size == 2 {
        var v := Fetch16();
      } else if size == 3 {
        var v := Fetch32();
      }
    }

    // decode_ext_word
    method DecodeExtWord()
      modifies this
      ensures State() == Extension(buf, old(State()))
    {
      var ext := Fetch16();
      if Bits(ext, 8, 1) == 0 {
        return;
      }
      FetchDisplacement(Bits(ext, 4, 2));
      if Bits(ext, 0, 3) == 0 {
        return;
      }
      FetchDisplacement(Bits(ext, 0, 2));
    }

    // ea_str
    method DecodeAddress(mode: nat, reg: nat, size: nat)
      modifies this
      ensures State() == Address(buf, old(State()), mode, reg, size)
    {
      if mode == 5 {
        var disp := Fetch16();
      } else if mode == 6 {
        DecodeExtWord();
      } else if mode == 7 {
        if reg == 0 || reg == 2 {
          var v := Fetch16();
        } else if reg == 1 {
          var v := Fetch32();
        } else if reg == 3 {
          DecodeExtWord();
        } else if reg == 4 {
          if size == 1 || size == 2 {
            var v := Fetch16();
          } else {
            var v := Fetch32();
          }
        }
      }
    }

    // decode: what is fetched after the first word, in order.
    method Decode(op: nat)
      modifies this
      ensures State() == AllTaken(buf, old(State()), table(op))
    {
      var parts := table(op);
      ghost var target := AllTaken(buf, State(), parts);
      for i := 0 to |parts|
        invariant AllTaken(buf, State(), parts[i..]) == target
      {
        match parts[i] {
          case Word => var v := Fetch16();
          case Long => var v := Fetch32();
          case Ea(mode, reg, size) => DecodeAddress(mode, reg, size);
        }
        assert parts[i..][1..] == parts[i + 1..];
      }
    }

    method DecodeAt(ghost start: nat, op: nat)
      requires start + 2 <= |buf| && op == WordAt(buf, start) && State() == Cursor(start + 2, false)
      modifies this
      ensures State() == Decoded(table, buf, start)
    {
      Decode(op);
    }

    // One round of the loop of main.
    method DecodeLine(base: nat) returns (line: Line)
      requires pos + 2 <= |buf| && !truncated
      modifies this
      ensures line == LineAt(table, buf, base, old(pos)) && State() == Cursor(End(table, buf, old(pos)), false)
    {
      var start := pos;
      var pc := (base + pos) % TWO32;
      var op := Fetch16();
      DecodeAt(start, op);
      var cut := truncated;
      if truncated {
        pos := start + 2;
        truncated := false;
      }
      line := Line(pc, Words(buf, start, pos), cut);
    }

    // The loop of main.
    method List(base: nat) returns (lines: seq<Line>)
      requires State() == Cursor(0, false)
      modifies this
      ensures lines == Listing(table, buf, base, 0)
    {
      lines := [];
      while pos + 2 <= |buf|
        invariant pos <= |buf| && !truncated
        invariant Listing(table, buf, base, 0) == lines + Listing(table, buf, base, pos)
        decreases |buf| - pos
      {
        var line := DecodeLine(base);
        Regroup(lines, line, Listing(table, buf, base, pos));
        lines := lines + [line];
      }
    }

    // The loop of print_hexbytes: with no more than 11 words to print, the size
    // of the field cuts none off.
    method FillField(start: nat, n: nat) returns (text: string)
      requires start + 2 * n <= |buf| && n <= 11
      ensures text == Field(buf, start, n)
    {
      text := "";
      var i := start;
      ghost var k := 0;
      while i < start + 2 * n && |text| + 5 < FIELD
        invariant k <= n && i == start + 2 * k && |text| == 5 * k
        invariant text == Field(buf, start, k)
      {
        HexMore(buf, start, k);
        text := text + HexWord(buf[i], buf[i + 1]);
        i := i + 2;
        k := k + 1;
      }
    }

    // print_hexbytes
    method PrintHexBytes(start: nat, n: nat) returns (text: string)
      requires start + 2 * n <= |buf| && n <= 11
      ensures text == if n > 0 then Field(buf, start, n)[..5 * n - 1] else ""
    {
      text := FillField(start, n);
      if |text| > 0 {
        text := text[..|text| - 1];
      }
    }
  }

  // main, from the buffer it has read on.
  method Disassemble(buf: Buffer, base: nat) returns (lines: seq<Line>)
    ensures lines == Listing(FORMATS, buf, base, 0)
  {
    var dis := new Disassembler(buf);
    lines := dis.List(base);
  }
}
