// An assembler of operands and instructions, as the 68030's manual lays them out,
// and the listing of what it writes.
module DisasmAssembler {
  import opened Word32
  import opened Disasm
  import opened DisasmForms

  // ----- operands ---------------------------------------------------------------------

  // A displacement of no words, of one, or of two.
  datatype Displaced = Null | ByWord(w: Word16) | ByLong(hi: Word16, lo: Word16)

  // Index register, its size and its scale take the upper seven bits of an
  // extension word. A brief one holds a displacement of a byte; a full one says
  // which displacements follow, and whether the operand is found through memory.
  datatype Indexing =
    | Brief(index: nat, displacement: Byte)
    | Full(index: nat, noBase: bool, noIndex: bool, base: Displaced)
    | Indirect(index: nat, noBase: bool, noIndex: bool, base: Displaced, after: bool, outer: Displaced)

  datatype Operand =
    | Data(reg: nat) | Addr(reg: nat) | At(reg: nat) | Postincrement(reg: nat) | Predecrement(reg: nat)
    | WithDisplacement(reg: nat, d: Word16) | WithIndex(reg: nat, x: Indexing)
    | AbsoluteShort(w: Word16) | AbsoluteLong(hi: Word16, lo: Word16)
    | PcDisplacement(d: Word16) | PcIndex(x: Indexing)
    | ImmediateWord(w: Word16) | ImmediateLong(hi: Word16, lo: Word16)

  function DisplacementWords(d: Displaced): seq<Word16> {
    match d
    case Null => []
    case ByWord(w) => [w]
    case ByLong(hi, lo) => [hi, lo]
  }

  function SizeCode(d: Displaced): nat {
    match d
    case Null => 1
    case ByWord(_) => 2
    case ByLong(_, _) => 3
  }

  function FullWord(index: nat, noBase: bool, noIndex: bool, base: Displaced, indirection: nat): (w: Word16)
    requires index < 128 && indirection < 8
  {
    512 * index + 256 + (if noBase then 128 else 0) + (if noIndex then 64 else 0) + 16 * SizeCode(base) + indirection
  }

  function IndexWords(x: Indexing): seq<Word16>
    requires x.index < 128
  {
    match x
    case Brief(index, d) => [512 * index + d as int]
    case Full(index, noBase, noIndex, base) => [FullWord(index, noBase, noIndex, base, 0)] + DisplacementWords(base)
    case Indirect(index, noBase, noIndex, base, after, outer) =>
      [FullWord(index, noBase, noIndex, base, (if after then 4 else 0) + SizeCode(outer))]
      + (DisplacementWords(base) + DisplacementWords(outer))
  }

  predicate Legal(o: Operand) {
    match o
    case WithIndex(reg, x) => reg < 8 && x.index < 128
    case PcIndex(x) => x.index < 128
    case AbsoluteShort(_) => true
    case AbsoluteLong(_, _) => true
    case PcDisplacement(_) => true
    case ImmediateWord(_) => true
    case ImmediateLong(_, _) => true
    case _ => o.reg < 8
  }

  function ModeOf(o: Operand): nat {
    match o
    case Data(_) => 0
    case Addr(_) => 1
    case At(_) => 2
    case Postincrement(_) => 3
    case Predecrement(_) => 4
    case WithDisplacement(_, _) => 5
    case WithIndex(_, _) => 6
    case _ => 7
  }

  function RegOf(o: Operand): nat {
    match o
    case AbsoluteShort(_) => 0
    case AbsoluteLong(_, _) => 1
    case PcDisplacement(_) => 2
    case PcIndex(_) => 3
    case ImmediateWord(_) => 4
    case ImmediateLong(_, _) => 4
    case _ => o.reg
  }

  // The words that follow for this operand.
  function OperandWords(o: Operand): seq<Word16>
    requires Legal(o)
  {
    match o
    case WithDisplacement(_, d) => [d]
    case WithIndex(_, x) => IndexWords(x)
    case AbsoluteShort(w) => [w]
    case AbsoluteLong(hi, lo) => [hi, lo]
    case PcDisplacement(d) => [d]
    case PcIndex(x) => IndexWords(x)
    case ImmediateWord(w) => [w]
    case ImmediateLong(hi, lo) => [hi, lo]
    case _ => []
  }

  // Immediate bytes and words take a word, longs take two.
  predicate OfSize(o: Operand, size: nat) {
    (o.ImmediateWord? ==> size == 1 || size == 2) && (o.ImmediateLong? ==> size == 4)
  }

  // ----- words in a buffer ------------------------------------------------------------

  // Words as bytes, the upper half first.
  function Big(ws: seq<Word16>): (bytes: seq<Byte>)
    ensures |bytes| == 2 * |ws|
  {
    if ws == [] then [] else [(ws[0] as int) / 256, (ws[0] as int) % 256] + Big(ws[1..])
  }

  // They stand in the buffer from p on.
  predicate Written(buf: Buffer, p: nat, ws: seq<Word16>)
    decreases ws
  {
    if ws == [] then p <= |buf|
    else
      p + 2 <= |buf| && buf[p] as int == (ws[0] as int) / 256 && buf[p + 1] as int == (ws[0] as int) % 256
      && Written(buf, p + 2, ws[1..])
  }

  lemma WrittenStart(buf: Buffer, p: nat, ws: seq<Word16>)
    ensures Written(buf, p, ws) ==> p <= |buf|
  {
  }

  lemma {:induction false} WrittenParts(buf: Buffer, p: nat, a: seq<Word16>, b: seq<Word16>)
    ensures Written(buf, p, a + b) <==> Written(buf, p, a) && Written(buf, p + 2 * |a|, b)
    decreases a
  {
    if a == [] {
      assert a + b == b;
      WrittenStart(buf, p, b);
    } else {
      assert (a + b)[1..] == a[1..] + b;
      WrittenParts(buf, p + 2, a[1..], b);
    }
  }

  lemma {:induction false} WrittenLength(buf: Buffer, p: nat, ws: seq<Word16>)
    requires Written(buf, p, ws)
    ensures p + 2 * |ws| <= |buf|
    decreases ws
  {
    if ws != [] { WrittenLength(buf, p + 2, ws[1..]); }
  }

  lemma FirstWritten(buf: Buffer, p: nat, w: Word16, rest: seq<Word16>)
    requires Written(buf, p, [w] + rest)
    ensures p + 2 <= |buf| && WordAt(buf, p) == w && Written(buf, p + 2, rest)
  {
    assert ([w] + rest)[1..] == rest;
  }

  lemma {:induction false} WordsWritten(buf: Buffer, p: nat, ws: seq<Word16>)
    requires Written(buf, p, ws)
    ensures p + 2 * |ws| <= |buf| && Words(buf, p, p + 2 * |ws|) == ws
    decreases ws
  {
    if ws != [] {
      WordsWritten(buf, p + 2, ws[1..]);
      assert ws == [ws[0]] + ws[1..];
    }
  }

  lemma {:induction false} BigWritten(before: seq<Byte>, ws: seq<Word16>)
    ensures Written(before + Big(ws), |before|, ws)
    decreases ws
  {
    if ws != [] {
      var first: seq<Byte> := [(ws[0] as int) / 256, (ws[0] as int) % 256];
      assert before + Big(ws) == (before + first) + Big(ws[1..]);
      BigWritten(before + first, ws[1..]);
    }
  }

  // ----- fetching what was written ----------------------------------------------------

  // Reading on from p over n words goes well.
  predicate Reaches(d: Cursor, p: nat, n: nat) { d == Cursor(p + 2 * n, false) }

  lemma DisplacementFetched(buf: Buffer, p: nat, d: Displaced, rest: seq<Word16>)
    requires Written(buf, p, DisplacementWords(d) + rest)
    ensures Reaches(Displacement(buf, Cursor(p, false), SizeCode(d)), p, |DisplacementWords(d)|)
    ensures Written(buf, p + 2 * |DisplacementWords(d)|, rest)
  {
    WrittenParts(buf, p, DisplacementWords(d), rest);
  }

  lemma FullBits(index: nat, k: nat, size: nat, indirection: nat)
    requires k < 4 && 1 <= size <= 3 && indirection < 8
    ensures var w := 512 * index + 256 + 64 * k + 16 * size + indirection;
            && Bits(w, 8, 1) == 1 && Bits(w, 4, 2) == size
            && Bits(w, 0, 3) == indirection && Bits(w, 0, 2) == indirection % 4
  {
    PowersOfTwo();
    var w := 512 * index + 256 + 64 * k + 16 * size + indirection;
    BitsAre(w, 8, 1, index, 1, 64 * k + 16 * size + indirection);
    BitsAre(w, 4, 2, 8 * index + 4 + k, size, indirection);
    BitsAre(w, 0, 3, 64 * index + 32 + 8 * k + 2 * size, indirection, 0);
    BitsAre(w, 0, 2, 128 * index + 64 + 16 * k + 4 * size + indirection / 4, indirection % 4, 0);
  }

  lemma BriefBits(index: nat, d: Byte)
    ensures Bits(512 * index + d as int, 8, 1) == 0
  {
    PowersOfTwo();
    BitsAre(512 * index + d as int, 8, 1, index, 0, d);
  }

  lemma FullWordBits(index: nat, noBase: bool, noIndex: bool, base: Displaced, indirection: nat)
    requires index < 128 && indirection < 8
    ensures var w := FullWord(index, noBase, noIndex, base, indirection);
            && Bits(w, 8, 1) == 1 && Bits(w, 4, 2) == SizeCode(base)
            && Bits(w, 0, 3) == indirection && Bits(w, 0, 2) == indirection % 4
  {
    FullBits(index, (if noBase then 2 else 0) + (if noIndex then 1 else 0), SizeCode(base), indirection);
  }

  // What an extension word with these groups of bits makes the decoder fetch.
  lemma ExtensionIs(buf: Buffer, p: nat, w: Word16)
    requires p + 2 <= |buf| && WordAt(buf, p) == w
    ensures var d := Extension(buf, Cursor(p, false));
            if Bits(w, 8, 1) == 0 then d == Cursor(p + 2, false)
            else
              var b := Displacement(buf, Cursor(p + 2, false), Bits(w, 4, 2));
              d == if Bits(w, 0, 3) == 0 then b else Displacement(buf, b, Bits(w, 0, 2))
  {
  }

  lemma FullFetched(buf: Buffer, p: nat, w: Word16, base: Displaced)
    requires Written(buf, p, [w] + DisplacementWords(base))
    requires Bits(w, 8, 1) == 1 && Bits(w, 4, 2) == SizeCode(base) && Bits(w, 0, 3) == 0
    ensures Reaches(Extension(buf, Cursor(p, false)), p, 1 + |DisplacementWords(base)|)
  {
    FirstWritten(buf, p, w, DisplacementWords(base));
    assert DisplacementWords(base) == DisplacementWords(base) + [];
    DisplacementFetched(buf, p + 2, base, []);
    ExtensionIs(buf, p, w);
  }

  lemma TwoFetched(buf: Buffer, p: nat, base: Displaced, outer: Displaced)
    requires Written(buf, p, DisplacementWords(base) + DisplacementWords(outer))
    ensures var b := Displacement(buf, Cursor(p, false), SizeCode(base));
            Reaches(Displacement(buf, b, SizeCode(outer)), p, |DisplacementWords(base)| + |DisplacementWords(outer)|)
  {
    DisplacementFetched(buf, p, base, DisplacementWords(outer));
    assert DisplacementWords(outer) == DisplacementWords(outer) + [];
    DisplacementFetched(buf, p + 2 * |DisplacementWords(base)|, outer, []);
  }

  lemma IndirectFetched(buf: Buffer, p: nat, w: Word16, base: Displaced, outer: Displaced, k: nat)
    requires Written(buf, p, [w] + (DisplacementWords(base) + DisplacementWords(outer)))
    requires Bits(w, 8, 1) == 1 && Bits(w, 4, 2) == SizeCode(base)
    requires Bits(w, 0, 3) == k && k > 0 && Bits(w, 0, 2) == SizeCode(outer)
    ensures Reaches(Extension(buf, Cursor(p, false)), p, 1 + |DisplacementWords(base)| + |DisplacementWords(outer)|)
  {
    FirstWritten(buf, p, w, DisplacementWords(base) + DisplacementWords(outer));
    TwoFetched(buf, p + 2, base, outer);
    ExtensionIs(buf, p, w);
  }

  lemma BriefFetched(buf: Buffer, p: nat, x: Indexing)
    requires x.index < 128 && x.Brief? && Written(buf, p, IndexWords(x))
    ensures Reaches(Extension(buf, Cursor(p, false)), p, |IndexWords(x)|)
  {
    BriefBits(x.index, x.displacement);
    assert IndexWords(x) == IndexWords(x) + [];
    FirstWritten(buf, p, 512 * x.index + x.displacement as int, []);
    ExtensionIs(buf, p, 512 * x.index + x.displacement as int);
  }

  lemma IndexFetched(buf: Buffer, p: nat, x: Indexing)
    requires x.index < 128 && Written(buf, p, IndexWords(x))
    ensures Reaches(Extension(buf, Cursor(p, false)), p, |IndexWords(x)|)
  {
    match x
    case Brief(_, _) => BriefFetched(buf, p, x);
    case Full(index, noBase, noIndex, base) =>
      FullWordBits(index, noBase, noIndex, base, 0);
      FullFetched(buf, p, FullWord(index, noBase, noIndex, base, 0), base);
    case Indirect(index, noBase, noIndex, base, after, outer) =>
      var k := (if after then 4 else 0) + SizeCode(outer);
      FullWordBits(index, noBase, noIndex, base, k);
      IndirectFetched(buf, p, FullWord(index, noBase, noIndex, base, k), base, outer, k);
  }

  // An operand takes exactly the words written for it.
  lemma OperandFetched(buf: Buffer, p: nat, o: Operand, size: nat)
    requires Legal(o) && OfSize(o, size) && Written(buf, p, OperandWords(o))
    ensures Reaches(Taken(buf, Cursor(p, false), Ea(ModeOf(o), RegOf(o), size)), p, |OperandWords(o)|)
  {
    match o
    case WithIndex(_, x) => IndexFetched(buf, p, x);
    case PcIndex(x) => IndexFetched(buf, p, x);
    case _ =>
  }

  // ----- instructions -----------------------------------------------------------------

  // What stands behind the first word, piece by piece.
  datatype Argument = AWord(w: Word16) | ALong(hi: Word16, lo: Word16) | AnOperand(o: Operand)

  predicate Suits(a: Argument, part: Part) {
    match part
    case Word => a.AWord?
    case Long => a.ALong?
    case Ea(mode, reg, size) =>
      a.AnOperand? && Legal(a.o) && OfSize(a.o, size) && ModeOf(a.o) == mode && RegOf(a.o) == reg
  }

  function ArgumentWords(a: Argument): seq<Word16>
    requires a.AnOperand? ==> Legal(a.o)
  {
    match a
    case AWord(w) => [w]
    case ALong(hi, lo) => [hi, lo]
    case AnOperand(o) => OperandWords(o)
  }

  predicate AllSuit(args: seq<Argument>, parts: seq<Part>)
    decreases args
  {
    if args == [] then parts == [] else parts != [] && Suits(args[0], parts[0]) && AllSuit(args[1..], parts[1..])
  }

  predicate AllLegal(args: seq<Argument>) {
    args == [] || ((args[0].AnOperand? ==> Legal(args[0].o)) && AllLegal(args[1..]))
  }

  function ArgumentsWords(args: seq<Argument>): seq<Word16>
    requires AllLegal(args)
  {
    if args == [] then [] else ArgumentWords(args[0]) + ArgumentsWords(args[1..])
  }

  lemma ArgumentFetched(buf: Buffer, p: nat, a: Argument, part: Part)
    requires Suits(a, part) && Written(buf, p, ArgumentWords(a))
    ensures Reaches(Taken(buf, Cursor(p, false), part), p, |ArgumentWords(a)|)
  {
    if part.Ea? { OperandFetched(buf, p, a.o, part.size); }
  }

  lemma ArgumentsStep(buf: Buffer, p: nat, a: Argument, m: nat, parts: seq<Part>, q: nat)
    requires parts != [] && Suits(a, parts[0]) && Written(buf, p, ArgumentWords(a)) && m == p + 2 * |ArgumentWords(a)|
    requires AllTaken(buf, Cursor(m, false), parts[1..]) == Cursor(q, false)
    ensures AllTaken(buf, Cursor(p, false), parts) == Cursor(q, false)
  {
    ArgumentFetched(buf, p, a, parts[0]);
    AllTakenFrom(buf, Cursor(p, false), Cursor(m, false), parts);
  }

  lemma ArgumentsFirst(args: seq<Argument>) returns (first: seq<Word16>, rest: seq<Word16>)
    requires args != [] && AllLegal(args)
    ensures AllLegal(args[1..]) && (args[0].AnOperand? ==> Legal(args[0].o))
    ensures first == ArgumentWords(args[0]) && rest == ArgumentsWords(args[1..])
    ensures ArgumentsWords(args) == first + rest && |ArgumentsWords(args)| == |first| + |rest|
  {
    first, rest := ArgumentWords(args[0]), ArgumentsWords(args[1..]);
  }

  lemma {:induction false} ArgumentsFetched(buf: Buffer, p: nat, args: seq<Argument>, parts: seq<Part>, q: nat)
    requires AllSuit(args, parts) && AllLegal(args) && Written(buf, p, ArgumentsWords(args))
    requires q == p + 2 * |ArgumentsWords(args)|
    ensures AllTaken(buf, Cursor(p, false), parts) == Cursor(q, false)
    decreases args
  {
    if args != [] {
      var first, rest := ArgumentsFirst(args);
      var m := p + 2 * |first|;
      WrittenParts(buf, p, first, rest);
      ArgumentsFetched(buf, m, args[1..], parts[1..], q);
      ArgumentsStep(buf, p, args[0], m, parts, q);
    }
  }

  // ----- lines ------------------------------------------------------------------------

  ghost predicate TakesAll(t: Table, buf: Buffer, p: nat, n: nat) {
    p + 2 <= |buf| && p + 2 * n <= |buf| && Reaches(Decoded(t, buf, p), p, n)
  }

  // Wherever these words are written, decoding takes exactly them.
  ghost predicate Whole(t: Table, ws: seq<Word16>) {
    ws != [] && forall buf: Buffer, p: nat | Written(buf, p, ws) :: TakesAll(t, buf, p, |ws|)
  }

  // A first word and what suits the parts it asks for.
  lemma Fetched(t: Table, buf: Buffer, p: nat, op: Word16, args: seq<Argument>)
    requires AllSuit(args, t(op)) && AllLegal(args) && Written(buf, p, [op] + ArgumentsWords(args))
    ensures TakesAll(t, buf, p, 1 + |ArgumentsWords(args)|)
  {
    var rest := ArgumentsWords(args);
    WrittenLength(buf, p, [op] + rest);
    FirstWritten(buf, p, op, rest);
    ArgumentsFetched(buf, p + 2, args, t(op), p + 2 + 2 * |rest|);
  }

  lemma WholeInstruction(t: Table, op: Word16, args: seq<Argument>)
    requires AllSuit(args, t(op)) && AllLegal(args)
    ensures Whole(t, [op] + ArgumentsWords(args))
  {
    var ws := [op] + ArgumentsWords(args);
    forall buf: Buffer, p: nat | Written(buf, p, ws) ensures TakesAll(t, buf, p, |ws|) {
      Fetched(t, buf, p, op, args);
    }
  }

  // A line all of whose words are there.
  lemma WholeLine(t: Table, buf: Buffer, base: nat, p: nat, ws: seq<Word16>, x: Line)
    requires Whole(t, ws) && Written(buf, p, ws) && x == Line((base + p) % TWO32, ws, false)
    ensures p + 2 <= |buf| && End(t, buf, p) == p + 2 * |ws| && LineAt(t, buf, base, p) == x
  {
    assert TakesAll(t, buf, p, |ws|);
    WordsWritten(buf, p, ws);
  }

  function Code(wss: seq<seq<Word16>>): seq<Word16> {
    if wss == [] then [] else wss[0] + Code(wss[1..])
  }

  // One line for each, at its address.
  function Lines(wss: seq<seq<Word16>>, at: nat): seq<Line>
    decreases wss
  {
    if wss == [] then [] else [Line(at % TWO32, wss[0], false)] + Lines(wss[1..], at + 2 * |wss[0]|)
  }

  ghost predicate AllWhole(t: Table, wss: seq<seq<Word16>>) {
    wss == [] || (Whole(t, wss[0]) && AllWhole(t, wss[1..]))
  }

  // The decoder finds these lines from p on, to the end of the buffer.
  ghost predicate Found(t: Table, buf: Buffer, base: nat, p: nat, lines: seq<Line>)
    decreases lines
  {
    if lines == [] then p == |buf|
    else
      && p + 2 <= |buf| && LineAt(t, buf, base, p) == lines[0] && End(t, buf, p) == p + 2 * |lines[0].words|
      && Found(t, buf, base, p + 2 * |lines[0].words|, lines[1..])
  }

  lemma FoundStep(t: Table, buf: Buffer, base: nat, p: nat, x: Line, q: nat, tail: seq<Line>, lines: seq<Line>)
    requires p + 2 <= |buf| && LineAt(t, buf, base, p) == x && End(t, buf, p) == q == p + 2 * |x.words|
    requires Found(t, buf, base, q, tail) && lines == [x] + tail
    ensures Found(t, buf, base, p, lines)
  {
    assert ([x] + tail)[1..] == tail;
  }

  lemma LinesStep(wss: seq<seq<Word16>>, at: nat, x: Line, n: nat)
    requires wss != [] && x == Line(at % TWO32, wss[0], false) && n == 2 * |wss[0]|
    ensures Lines(wss, at) == [x] + Lines(wss[1..], at + n) && Code(wss) == wss[0] + Code(wss[1..])
  {
  }

  lemma {:induction false} LinesFound(t: Table, buf: Buffer, base: nat, p: nat, at: nat, wss: seq<seq<Word16>>,
                                      code: seq<Word16>, lines: seq<Line>)
    requires AllWhole(t, wss) && code == Code(wss) && lines == Lines(wss, at) && at == base + p
    requires Written(buf, p, code) && p + 2 * |code| == |buf|
    ensures Found(t, buf, base, p, lines)
    decreases wss
  {
    if wss != [] {
      var ws, rest, n := wss[0], Code(wss[1..]), 2 * |wss[0]|;
      var x, tail := Line(at % TWO32, ws, false), Lines(wss[1..], at + n);
      LinesStep(wss, at, x, n);
      WrittenParts(buf, p, ws, rest);
      LinesFound(t, buf, base, p + n, at + n, wss[1..], rest, tail);
      WholeLine(t, buf, base, p, ws, x);
      FoundStep(t, buf, base, p, x, p + n, tail, lines);
    }
  }

  lemma ListingStep(t: Table, buf: Buffer, base: nat, p: nat, x: Line, q: nat, tail: seq<Line>)
    requires p + 2 <= |buf| && LineAt(t, buf, base, p) == x && End(t, buf, p) == q
    requires Listing(t, buf, base, q) == tail
    ensures Listing(t, buf, base, p) == [x] + tail
  {
  }

  lemma {:induction false} FoundListed(t: Table, buf: Buffer, base: nat, p: nat, lines: seq<Line>)
    requires Found(t, buf, base, p, lines)
    ensures Listing(t, buf, base, p) == lines
    decreases lines
  {
    if lines != [] {
      var q := p + 2 * |lines[0].words|;
      FoundListed(t, buf, base, q, lines[1..]);
      ListingStep(t, buf, base, p, lines[0], q, lines[1..]);
      assert lines == [lines[0]] + lines[1..];
    }
  }

  // ----- programs ---------------------------------------------------------------------

  datatype Form = OfLow(low: Low) | OfMisc(misc: Misc) | OfShort(short: Short) | OfArithmetic(arithmetic: Arithmetic)

  function FieldsOf(f: Form): Fields {
    match f
    case OfLow(i) => LowFields(i)
    case OfMisc(i) => MiscFields(i)
    case OfShort(i) => ShortFields(i)
    case OfArithmetic(i) => ArithmeticFields(i)
  }

  function NeedsOf(f: Form): seq<Part> {
    match f
    case OfLow(i) => LowNeeds(i)
    case OfMisc(i) => MiscNeeds(i)
    case OfShort(i) => ShortNeeds(i)
    case OfArithmetic(i) => ArithmeticNeeds(i)
  }

  // Every form but the three that are missed.
  predicate Known(f: Form) {
    match f
    case OfLow(i) => LowLegal(i) && (i.Cas? ==> i.size == 1)
    case OfMisc(i) => MiscLegal(i) && !i.MovemWord?
    case OfShort(i) => ShortLegal(i)
    case OfArithmetic(i) => ArithmeticLegal(i)
  }

  lemma FormTaken(f: Form)
    requires Known(f)
    ensures InRange(FieldsOf(f)) && Plan(Packed(FieldsOf(f))) == NeedsOf(f)
  {
    match f
    case OfLow(i) => LowTaken(i);
    case OfMisc(i) => MiscTaken(i);
    case OfShort(i) => ShortTaken(i);
    case OfArithmetic(i) => ArithmeticTaken(i);
  }

  datatype Instruction = Instruction(form: Form, args: seq<Argument>) {
    predicate Ok() { Known(form) && AllSuit(args, NeedsOf(form)) && AllLegal(args) }
  }

  // The words of an instruction: its first one, and those of its arguments.
  function Assembled(i: Instruction): seq<Word16>
    requires i.Ok()
  {
    FormTaken(i.form);
    [Packed(FieldsOf(i.form))] + ArgumentsWords(i.args)
  }

  lemma AssembledWhole(i: Instruction)
    requires i.Ok()
    ensures Whole(FORMATS, Assembled(i))
  {
    FormTaken(i.form);
    WholeInstruction(FORMATS, Packed(FieldsOf(i.form)), i.args);
  }

  predicate AllOk(program: seq<Instruction>) { program == [] || (program[0].Ok() && AllOk(program[1..])) }

  function AllAssembled(program: seq<Instruction>): seq<seq<Word16>>
    requires AllOk(program)
  {
    if program == [] then [] else [Assembled(program[0])] + AllAssembled(program[1..])
  }

  lemma {:induction false} ProgramWhole(program: seq<Instruction>)
    requires AllOk(program)
    ensures AllWhole(FORMATS, AllAssembled(program))
  {
    if program != [] {
      AssembledWhole(program[0]);
      ProgramWhole(program[1..]);
      assert AllAssembled(program)[1..] == AllAssembled(program[1..]);
    }
  }

  lemma ProgramListed(program: seq<Instruction>, base: nat)
    requires AllOk(program)
    ensures var wss := AllAssembled(program); Listing(FORMATS, Big(Code(wss)), base, 0) == Lines(wss, base)
  {
    var wss := AllAssembled(program);
    ProgramWhole(program);
    BigWritten([], Code(wss));
    assert [] + Big(Code(wss)) == Big(Code(wss));
    LinesFound(FORMATS, Big(Code(wss)), base, 0, base, wss, Code(wss), Lines(wss, base));
    FoundListed(FORMATS, Big(Code(wss)), base, 0, Lines(wss, base));
  }

  // The disassembler lists a program as it was assembled: line by line, each with
  // the words written for the instruction, at its address.
  method ListProgram(program: seq<Instruction>, base: nat) returns (lines: seq<Line>)
    requires AllOk(program)
    ensures lines == Lines(AllAssembled(program), base)
  {
    ProgramListed(program, base);
    lines := Disassemble(Big(Code(AllAssembled(program))), base);
  }

  // The forms that are missed: MOVEM.W, CAS.W and CAS.L.
  predicate Missed(f: Form) {
    (f.OfLow? && LowLegal(f.low) && f.low.Cas? && f.low.size != 1)
    || (f.OfMisc? && MiscLegal(f.misc) && f.misc.MovemWord?)
  }

  lemma MissedCas(fields: Fields, i: Low)
    requires LowLegal(i) && i.Cas? && i.size != 1 && fields == LowFields(i)
    ensures Packed(fields) < 0x10000 && Plan(Packed(fields)) == []
  {
    PackedLow(fields);
    PackedHigh(fields);
    StatusWords(fields);
    CasPlan(Packed(fields), fields);
  }

  lemma MissedMovem(fields: Fields, i: Misc)
    requires MiscLegal(i) && i.MovemWord? && fields == MiscFields(i)
    ensures Packed(fields) < 0x10000 && Plan(Packed(fields)) == []
  {
    PackedLow(fields);
    PackedHigh(fields);
    SingleWords(fields);
    MovemPlan(Packed(fields), fields);
  }

  lemma MissedPlan(f: Form)
    requires Missed(f)
    ensures Packed(FieldsOf(f)) < 0x10000 && Plan(Packed(FieldsOf(f))) == []
  {
    if f.OfLow? {
      MissedCas(FieldsOf(f), f.low);
    } else {
      MissedMovem(FieldsOf(f), f.misc);
    }
  }

  // Their first word is listed as a line of its own, and not as broken off; what
  // belongs to it is taken for further instructions.
  lemma MissedListed(f: Form, buf: Buffer, base: nat, p: nat)
    requires Missed(f) && p + 2 <= |buf| && WordAt(buf, p) as int == Packed(FieldsOf(f))
    ensures LineAt(FORMATS, buf, base, p) == Line((base + p) % TWO32, [WordAt(buf, p)], false)
    ensures End(FORMATS, buf, p) == p + 2
  {
    MissedPlan(f);
    assert FORMATS(WordAt(buf, p)) == [];
    assert Decoded(FORMATS, buf, p) == Cursor(p + 2, false);
    assert Words(buf, p, p + 2) == [WordAt(buf, p)] + Words(buf, p + 2, p + 2);
  }
}
