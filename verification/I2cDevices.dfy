// What the devices on the bus make of the dialogues: the DS1307 clock chip and the
// SH1107 display, each with its own idea of addresses, directions and registers.
module I2cDevices {
  import opened I2c

  // ----- the clock chip ---------------------------------------------------------------

  // Behind a START the chip waits for its address, whose low bit gives the
  // direction; the first byte written is a register number.
  datatype Phase = Idle | Addressing | Pointing | Storing | Shifting

  // 64 registers and the register pointer, which wraps round.
  datatype Chip = Chip(regs: seq<Byte>, at: nat, phase: Phase) {
    ghost predicate Ok() { |regs| == 64 && at < 64 }
  }

  // A byte that the chip does not acknowledge is one it does not take; when the
  // master refuses a byte of the chip's, the chip shifts no more out.
  ghost function Hears(c: Chip, s: Symbol): (d: Chip)
    requires c.Ok()
    ensures d.Ok()
  {
    match s
    case Start => c.(phase := Addressing)
    case Stop => c.(phase := Idle)
    case Violation => c.(phase := Idle)
    case Frame(v, nack) =>
      match c.phase
      case Idle => c
      case Addressing =>
        c.(phase := if nack then Idle else if v == 0xD0 then Pointing else if v == 0xD1 then Shifting else Idle)
      case Pointing => if nack || v >= 64 then c.(phase := Idle) else c.(at := v, phase := Storing)
      case Storing => if nack || v >= 256 then c else c.(regs := c.regs[c.at := v], at := (c.at + 1) % 64)
      case Shifting => c.(at := (c.at + 1) % 64, phase := if nack then Idle else Shifting)
  }

  ghost function After(c: Chip, heard: seq<Symbol>): (d: Chip)
    requires c.Ok()
    ensures d.Ok()
  {
    if heard == [] then c else Hears(After(c, heard[..|heard| - 1]), heard[|heard| - 1])
  }

  ghost predicate Speaks(c: Chip, heard: seq<Symbol>, k: nat)
    requires c.Ok() && k < |heard|
  {
    var d := After(c, heard[..k]);
    d.phase.Shifting? && heard[k].Frame? ==> heard[k].value == d.regs[d.at]
  }

  // Wherever it is the chip's turn, what is heard is the register it points at.
  ghost predicate Honest(c: Chip, heard: seq<Symbol>)
    requires c.Ok()
  {
    forall k | 0 <= k < |heard| :: Speaks(c, heard, k)
  }

  lemma AfterMore(c: Chip, heard: seq<Symbol>, s: Symbol)
    requires c.Ok()
    ensures After(c, heard + [s]) == Hears(After(c, heard), s)
  {
    assert (heard + [s])[..|heard|] == heard;
  }

  // ----- writing registers ------------------------------------------------------------

  // What is in register i once `bytes` have been stored from register `addr` on:
  // the last of those that fell on it.
  ghost function Stored(regs: seq<Byte>, addr: nat, bytes: seq<Byte>, i: nat): Byte
    requires |regs| == 64 && addr < 64 && i < 64
  {
    var d := (i + 64 - addr) % 64;
    if d >= |bytes| then regs[i] else bytes[d + 64 * ((|bytes| - 1 - d) / 64)]
  }

  lemma Turns(n: nat, d: nat)
    requires d < 64 && d <= n
    ensures n % 64 != d ==> n > d && d + 64 * ((n - d) / 64) == d + 64 * ((n - 1 - d) / 64)
    ensures n % 64 == d ==> d + 64 * ((n - d) / 64) == n
  {
  }

  lemma Place(addr: nat, n: nat, i: nat)
    requires addr < 64 && i < 64
    ensures i == (addr + n) % 64 <==> n % 64 == (i + 64 - addr) % 64
  {
  }

  // One more byte.
  lemma StoredMore(regs: seq<Byte>, addr: nat, bytes: seq<Byte>, b: Byte, i: nat)
    requires |regs| == 64 && addr < 64 && i < 64
    ensures Stored(regs, addr, bytes + [b], i)
         == if i == (addr + |bytes|) % 64 then b else Stored(regs, addr, bytes, i)
  {
    var n, d := |bytes|, (i + 64 - addr) % 64;
    Place(addr, n, i);
    if d <= n {
      Turns(n, d);
    }
  }

  ghost predicate Holds(c: Chip, regs: seq<Byte>, addr: nat, bytes: seq<Byte>)
    requires c.Ok() && |regs| == 64 && addr < 64
  {
    forall i | 0 <= i < 64 :: c.regs[i] == Stored(regs, addr, bytes, i)
  }

  // The chip is in the middle of a write to `addr` on, `bytes` stored so far.
  ghost predicate Wrote(c: Chip, d: Chip, addr: nat, bytes: seq<Byte>)
    requires c.Ok() && d.Ok() && addr < 64
  {
    d.phase == Storing && d.at == (addr + |bytes|) % 64 && Holds(d, c.regs, addr, bytes)
  }

  lemma NextPlace(x: nat)
    ensures (x % 64 + 1) % 64 == (x + 1) % 64
  {
  }

  lemma HoldsMore(regs: seq<Byte>, next: seq<Byte>, start: seq<Byte>, addr: nat, bytes: seq<Byte>, b: Byte)
    requires |regs| == |next| == |start| == 64 && addr < 64
    requires next == regs[(addr + |bytes|) % 64 := b]
    requires forall i | 0 <= i < 64 :: regs[i] == Stored(start, addr, bytes, i)
    ensures forall i | 0 <= i < 64 :: next[i] == Stored(start, addr, bytes + [b], i)
  {
    forall i | 0 <= i < 64 ensures next[i] == Stored(start, addr, bytes + [b], i) {
      StoredMore(start, addr, bytes, b, i);
    }
  }

  lemma WroteMore(c: Chip, d: Chip, addr: nat, bytes: seq<Byte>, b: Byte)
    requires c.Ok() && d.Ok() && addr < 64 && Wrote(c, d, addr, bytes)
    ensures Wrote(c, Hears(d, Frame(b, false)), addr, bytes + [b])
  {
    var e := d.(regs := d.regs[d.at := b], at := (d.at + 1) % 64);
    assert Hears(d, Frame(b, false)) == e;
    NextPlace(addr + |bytes|);
    HoldsMore(d.regs, e.regs, c.regs, addr, bytes, b);
  }

  // The address and the register number.
  lemma Pointed(c: Chip, addr: nat)
    requires c.Ok() && addr < 64
    ensures After(c, [Start, Frame(0xD0, false), Frame(addr, false)]) == c.(at := addr, phase := Storing)
  {
    var a, b := Frame(0xD0, false), Frame(addr, false);
    AfterMore(c, [], Start);
    assert [] + [Start] == [Start];
    AfterMore(c, [Start], a);
    assert [Start] + [a] == [Start, a];
    AfterMore(c, [Start, a], b);
    assert [Start, a] + [b] == [Start, a, b];
  }

  lemma NothingWritten(c: Chip, addr: nat)
    requires c.Ok() && addr < 64
    ensures Wrote(c, c.(at := addr, phase := Storing), addr, [])
  {
  }

  // A write to register `addr`: the address with the low bit clear, the register
  // number, the bytes.
  function WriteBytes(addr: nat, buf: seq<Byte>): seq<Byte>
    requires addr < 64
  {
    [0xD0, addr] + buf
  }

  lemma SentMore(bytes: seq<Byte>, acks: nat -> bool, k: nat)
    requires k < |bytes|
    ensures [Start] + Frames(bytes[..k + 1], acks)
         == [Start] + Frames(bytes[..k], acks) + [Frame(bytes[k], !acks(k))]
  {
    FramesMore(bytes, acks, k);
  }

  lemma WritingBegins(c: Chip, addr: nat, buf: seq<Byte>, acks: nat -> bool)
    requires c.Ok() && addr < 64 && acks(0) && acks(1)
    ensures Wrote(c, After(c, [Start] + Frames(WriteBytes(addr, buf)[..2], acks)), addr, [])
  {
    FramesOf2(WriteBytes(addr, buf), acks);
    Pointed(c, addr);
    NothingWritten(c, addr);
    assert [Start] + [Frame(0xD0, false), Frame(addr, false)] == [Start, Frame(0xD0, false), Frame(addr, false)];
  }

  lemma WritingStep(c: Chip, heard: seq<Symbol>, addr: nat, done: seq<Byte>, b: Byte)
    requires c.Ok() && addr < 64 && Wrote(c, After(c, heard), addr, done)
    ensures Wrote(c, After(c, heard + [Frame(b, false)]), addr, done + [b])
  {
    AfterMore(c, heard, Frame(b, false));
    WroteMore(c, After(c, heard), addr, done, b);
  }

  lemma {:induction false} Writing(c: Chip, addr: nat, buf: seq<Byte>, acks: nat -> bool, k: nat)
    requires c.Ok() && addr < 64 && k <= |buf| && forall j | 0 <= j < k + 2 :: acks(j)
    ensures Wrote(c, After(c, [Start] + Frames(WriteBytes(addr, buf)[..k + 2], acks)), addr, buf[..k])
  {
    if k == 0 {
      WritingBegins(c, addr, buf, acks);
    } else {
      var bytes := WriteBytes(addr, buf);
      Writing(c, addr, buf, acks, k - 1);
      SentMore(bytes, acks, k + 1);
      WritingStep(c, [Start] + Frames(bytes[..k + 1], acks), addr, buf[..k - 1], buf[k - 1]);
      assert buf[..k - 1] + [buf[k - 1]] == buf[..k];
    }
  }

  lemma WritingIs(addr: nat, buf: seq<Byte>, acks: nat -> bool)
    requires addr < 64 && acks(0) && acks(1)
    ensures WritingClock(addr, buf, acks) == [Start] + Frames(WriteBytes(addr, buf), acks) + [Stop]
  {
    var bytes := WriteBytes(addr, buf);
    assert bytes[..|bytes|] == bytes;
  }

  // A register write that is acknowledged throughout puts exactly those bytes
  // where the pointer goes, and leaves every other register alone.
  lemma WriteStores(c: Chip, addr: nat, buf: seq<Byte>, acks: nat -> bool)
    requires c.Ok() && addr < 64 && forall j | 0 <= j < |buf| + 2 :: acks(j)
    ensures var d := After(c, WritingClock(addr, buf, acks));
            d.phase == Idle && Holds(d, c.regs, addr, buf)
  {
    var bytes := WriteBytes(addr, buf);
    var heard := [Start] + Frames(bytes, acks);
    WritingIs(addr, buf, acks);
    Writing(c, addr, buf, acks, |buf|);
    assert bytes[..|buf| + 2] == bytes && buf[..|buf|] == buf;
    assert Wrote(c, After(c, heard), addr, buf);
    AfterMore(c, heard, Stop);
  }

  // As long as they fit behind it: register addr + j holds byte j.
  lemma StoredPlainly(regs: seq<Byte>, addr: nat, buf: seq<Byte>, i: nat)
    requires |regs| == 64 && addr + |buf| <= 64 && addr < 64 && i < 64
    ensures Stored(regs, addr, buf, i) == if addr <= i < addr + |buf| then buf[i - addr] else regs[i]
  {
    var d := (i + 64 - addr) % 64;
    assert if i >= addr then d == i - addr else d == i + 64 - addr;
  }

  // A byte the chip does not acknowledge is lost, and the caller is not told.
  lemma WriteLost(c: Chip, addr: nat, b: Byte, acks: nat -> bool)
    requires c.Ok() && addr < 64 && acks(0) && acks(1) && !acks(2)
    ensures After(c, WritingClock(addr, [b], acks)).regs == c.regs
  {
    var bytes := WriteBytes(addr, [b]);
    Writing(c, addr, [b], acks, 0);
    assert [b][..0] == [];
    var heard := [Start] + Frames(bytes[..2], acks);
    FramesMore(bytes, acks, 2);
    AfterMore(c, heard, Frame(b, true));
    AfterMore(c, heard + [Frame(b, true)], Stop);
    assert bytes[..3] == bytes;
    assert WritingClock(addr, [b], acks) == heard + [Frame(b, true)] + [Stop];
    assert After(c, heard).regs == c.regs;
  }

  // Nor does a refused address or register number change anything.
  lemma WriteRefused(c: Chip, addr: nat, buf: seq<Byte>, acks: nat -> bool)
    requires c.Ok() && addr < 64 && !(acks(0) && acks(1))
    ensures After(c, WritingClock(addr, buf, acks)).regs == c.regs
  {
    var bytes := WriteBytes(addr, buf);
    FramesOf2(bytes, acks);
    var a, b := Frame(0xD0, !acks(0)), Frame(addr, !acks(1));
    AfterMore(c, [], Start);
    AfterMore(c, [] + [Start], a);
    if acks(0) {
      AfterMore(c, [] + [Start] + [a], b);
      AfterMore(c, [] + [Start] + [a] + [b], Stop);
      assert WritingClock(addr, buf, acks) == [] + [Start] + [a] + [b] + [Stop];
    } else {
      AfterMore(c, [] + [Start] + [a], Stop);
      assert WritingClock(addr, buf, acks) == [] + [Start] + [a] + [Stop];
    }
  }

  // ----- reading registers ------------------------------------------------------------

  // The dialogue that points the chip at register `addr` and turns it round.
  function Opening(addr: nat): seq<Symbol> {
    [Start, Frame(0xD0, false), Frame(addr, false), Start, Frame(0xD1, false)]
  }

  lemma Opened(c: Chip, addr: nat)
    requires c.Ok() && addr < 64
    ensures After(c, Opening(addr)) == c.(at := addr, phase := Shifting)
    ensures Honest(c, Opening(addr))
  {
    var a, b, d := Frame(0xD0, false), Frame(addr, false), Frame(0xD1, false);
    AfterMore(c, [], Start);
    assert [] + [Start] == [Start];
    AfterMore(c, [Start], a);
    assert [Start] + [a] == [Start, a];
    Pointed(c, addr);
    AfterMore(c, [Start, a, b], Start);
    assert [Start, a, b] + [Start] == [Start, a, b, Start];
    AfterMore(c, [Start, a, b, Start], d);
    assert [Start, a, b, Start] + [d] == Opening(addr);
    var all := Opening(addr);
    assert all[..0] == [] && all[..1] == [Start] && all[..2] == [Start, a] && all[..3] == [Start, a, b];
    assert all[..4] == [Start, a, b, Start];
    assert Speaks(c, all, 0) && Speaks(c, all, 1) && Speaks(c, all, 2) && Speaks(c, all, 3) && Speaks(c, all, 4);
  }

  lemma HonestMore(c: Chip, heard: seq<Symbol>, s: Symbol)
    requires c.Ok()
    ensures Honest(c, heard + [s]) <==> Honest(c, heard) && Speaks(c, heard + [s], |heard|)
  {
    forall k | 0 <= k < |heard| ensures Speaks(c, heard + [s], k) <==> Speaks(c, heard, k) {
      assert (heard + [s])[..k] == heard[..k];
    }
    if Honest(c, heard + [s]) {
      assert forall k | 0 <= k < |heard| :: Speaks(c, heard + [s], k);
    }
  }

  // The chip after i of the n bytes of a read.
  ghost function Shifted(c: Chip, addr: nat, i: nat, n: nat): Chip
    requires c.Ok() && addr < 64
  {
    c.(at := (addr + i) % 64, phase := if i > 0 && i == n then Idle else Shifting)
  }

  lemma ShiftedMore(c: Chip, addr: nat, i: nat, n: nat, v: nat)
    requires c.Ok() && addr < 64 && i < n
    ensures Hears(Shifted(c, addr, i, n), Frame(v, i + 1 == n)) == Shifted(c, addr, i + 1, n)
  {
  }

  lemma ReadStep(c: Chip, heard: seq<Symbol>, addr: nat, i: nat, n: nat, v: nat)
    requires c.Ok() && addr < 64 && i < n && After(c, heard) == Shifted(c, addr, i, n)
    ensures After(c, heard + [Frame(v, i + 1 == n)]) == Shifted(c, addr, i + 1, n)
    ensures Honest(c, heard + [Frame(v, i + 1 == n)]) <==> Honest(c, heard) && v == c.regs[(addr + i) % 64]
  {
    var s := Frame(v, i + 1 == n);
    AfterMore(c, heard, s);
    ShiftedMore(c, addr, i, n, v);
    HonestMore(c, heard, s);
    assert (heard + [s])[..|heard|] == heard;
  }

  // What is shifted out is the first n registers from `addr` on.
  ghost predicate Answers(c: Chip, addr: nat, data: nat -> Byte, n: nat)
    requires c.Ok() && addr < 64
  {
    forall k | 0 <= k < n :: data(k) == c.regs[(addr + k) % 64]
  }

  lemma AnswersMore(c: Chip, addr: nat, data: nat -> Byte, i: nat)
    requires c.Ok() && addr < 64
    ensures Answers(c, addr, data, i + 1) <==> Answers(c, addr, data, i) && data(i) == c.regs[(addr + i) % 64]
  {
  }

  lemma ReadsMore(addr: nat, data: nat -> Byte, i: nat, n: nat)
    requires i < n
    ensures Opening(addr) + Reads(data, i + 1, n) == Opening(addr) + Reads(data, i, n) + [Frame(data(i), i + 1 == n)]
  {
  }

  lemma ReadBegins(c: Chip, addr: nat, data: nat -> Byte, n: nat)
    requires c.Ok() && addr < 64
    ensures After(c, Opening(addr) + Reads(data, 0, n)) == Shifted(c, addr, 0, n)
    ensures Honest(c, Opening(addr) + Reads(data, 0, n))
  {
    Opened(c, addr);
    assert Opening(addr) + Reads(data, 0, n) == Opening(addr);
  }

  // While the bytes go over the wire.
  lemma {:induction false} Reading(c: Chip, addr: nat, data: nat -> Byte, i: nat, n: nat, heard: seq<Symbol>)
    requires c.Ok() && addr < 64 && i <= n && heard == Opening(addr) + Reads(data, i, n)
    ensures After(c, heard) == Shifted(c, addr, i, n)
    ensures Honest(c, heard) <==> Answers(c, addr, data, i)
  {
    if i == 0 {
      ReadBegins(c, addr, data, n);
    } else {
      var before := Opening(addr) + Reads(data, i - 1, n);
      Reading(c, addr, data, i - 1, n, before);
      ReadsMore(addr, data, i - 1, n);
      ReadStep(c, before, addr, i - 1, n, data(i - 1));
      AnswersMore(c, addr, data, i - 1);
    }
  }

  // The last byte before register 64 ends a read.
  function ReadLength(addr: nat, n: nat): nat
    requires addr < 64
  {
    if addr + n > 64 then 64 - addr else n
  }

  lemma ReadingIs(addr: nat, n: nat, acks: nat -> bool, data: nat -> Byte)
    requires addr < 64 && acks(0) && acks(1) && acks(2)
    ensures var m := ReadLength(addr, n);
            ReadingClock(addr, n, acks, data)
            == Opening(addr) + Reads(data, m, m) + (if m == 0 && !Bit(data(0), 7) then [] else [Stop])
  {
    var m := ReadLength(addr, n);
    var bytes: seq<Byte> := [2 * DS1307_ADDR, addr];
    assert bytes[..2] == bytes;
    FramesOf2(bytes, acks);
    var stop := if m == 0 && !Bit(data(0), 7) then [] else [Stop];
    assert [Start] + [Frame(0xD0, false), Frame(addr, false)] + ([Start, Frame(0xD1, false)] + Reads(data, m, m) + stop)
        == Opening(addr) + Reads(data, m, m) + stop;
  }

  lemma Ended(c: Chip, heard: seq<Symbol>, stop: seq<Symbol>)
    requires c.Ok() && (stop == [] || stop == [Stop])
    ensures Honest(c, heard + stop) <==> Honest(c, heard)
    ensures After(c, heard + stop).regs == After(c, heard).regs
  {
    if stop == [] {
      assert heard + stop == heard;
    } else {
      AfterMore(c, heard, Stop);
      HonestMore(c, heard, Stop);
    }
  }

  // A read fits what the chip holds exactly when the bytes shifted out are its
  // registers from that one on, and it changes none of them.
  lemma ReadFits(c: Chip, addr: nat, n: nat, acks: nat -> bool, data: nat -> Byte)
    requires c.Ok() && addr < 64 && acks(0) && acks(1) && acks(2)
    ensures Honest(c, ReadingClock(addr, n, acks, data)) <==> Answers(c, addr, data, ReadLength(addr, n))
    ensures After(c, ReadingClock(addr, n, acks, data)).regs == c.regs
  {
    var m := ReadLength(addr, n);
    ReadingIs(addr, n, acks, data);
    Reading(c, addr, data, m, m, Opening(addr) + Reads(data, m, m));
    Ended(c, Opening(addr) + Reads(data, m, m), if m == 0 && !Bit(data(0), 7) then [] else [Stop]);
  }

  // ----- the clock on the bus ---------------------------------------------------------

  // What the chip has made of everything heard since `before`.
  ghost predicate Now(bus: Bus, before: seq<Symbol>, c: Chip, d: Chip)
    requires c.Ok()
    reads bus
  {
    before <= bus.Heard() && d == After(c, bus.Heard()[|before|..])
  }

  lemma WrittenOver(c: Chip, d: Chip, addr: nat, buf: seq<Byte>)
    requires c.Ok() && d.Ok() && addr < 64 && addr + |buf| <= 64 && Holds(d, c.regs, addr, buf)
    ensures d.regs == c.regs[..addr] + buf + c.regs[addr + |buf|..]
  {
    var whole := c.regs[..addr] + buf + c.regs[addr + |buf|..];
    forall i | 0 <= i < 64 ensures d.regs[i] == whole[i] {
      StoredPlainly(c.regs, addr, buf, i);
    }
  }

  // The registers from `addr` on are sent, without a step back to the first.
  ghost predicate Sends(c: Chip, addr: nat, data: nat -> Byte, n: nat)
    requires c.Ok() && addr + n <= 64
  {
    forall k | 0 <= k < n :: data(k) == c.regs[addr + k]
  }

  lemma PlainAnswers(c: Chip, addr: nat, data: nat -> Byte, n: nat)
    requires c.Ok() && addr + n <= 64 && addr < 64 && Answers(c, addr, data, n)
    ensures Sends(c, addr, data, n)
  {
    forall k | 0 <= k < n ensures data(k) == c.regs[addr + k] {
      assert (addr + k) % 64 == addr + k;
    }
  }

  lemma Untouched(before: seq<Symbol>, more: seq<Symbol>)
    ensures before <= before + more && (before + more)[|before|..] == more
  {
  }

  // A write that is acknowledged throughout.
  method WriteRegisters(bus: Bus, ghost c: Chip, addr: nat, buf: seq<Byte>, acks: nat -> bool)
    returns (r: int, ghost d: Chip)
    requires bus.Quiet() && c.Ok() && addr < 64 && forall j | 0 <= j < |buf| + 2 :: acks(j)
    modifies bus
    ensures bus.Quiet() && d.Ok() && Now(bus, old(bus.Heard()), c, d) && r == |buf|
    ensures addr + |buf| <= 64 ==> d.regs == c.regs[..addr] + buf + c.regs[addr + |buf|..]
  {
    WriteStores(c, addr, buf, acks);
    d := After(c, WritingClock(addr, buf, acks));
    Untouched(bus.Heard(), WritingClock(addr, buf, acks));
    r := bus.WriteClock(addr, buf, acks);
    if addr + |buf| <= 64 {
      WrittenOver(c, d, addr, buf);
    }
  }

  // What such a chip has made of a read, and what it has sent.
  lemma ReadPlainly(c: Chip, addr: nat, n: nat, acks: nat -> bool, data: nat -> Byte, dialogue: seq<Symbol>)
    returns (d: Chip)
    requires c.Ok() && addr < 64 && acks(0) && acks(1) && acks(2)
    requires dialogue == ReadingClock(addr, n, acks, data) && Honest(c, dialogue)
    ensures d == After(c, dialogue) && d.Ok() && d.regs == c.regs
    ensures addr + ReadLength(addr, n) <= 64 && Sends(c, addr, data, ReadLength(addr, n))
  {
    ReadFits(c, addr, n, acks, data);
    d := After(c, dialogue);
    PlainAnswers(c, addr, data, ReadLength(addr, n));
  }

  method ReadThrough(bus: Bus, addr: nat, buf: array<Byte>, n: nat, acks: nat -> bool, data: nat -> Byte,
                     ghost dialogue: seq<Symbol>)
    returns (r: int)
    requires bus.Quiet() && addr < 64 && n <= buf.Length && acks(0) && acks(1) && acks(2)
    requires dialogue == ReadingClock(addr, n, acks, data)
    modifies bus, buf
    ensures bus.Heard() == old(bus.Heard()) + dialogue && r == ReadLength(addr, n)
    ensures forall i | 0 <= i < buf.Length :: buf[i] == if i < r then data(i) else old(buf[i])
  {
    r := bus.ReadClock(addr, buf, n, acks, data);
  }

  // A read that is acknowledged, from a slave that is such a chip.
  method ReadRegisters(bus: Bus, ghost c: Chip, addr: nat, buf: array<Byte>, n: nat, acks: nat -> bool,
                       data: nat -> Byte)
    returns (r: int, ghost d: Chip)
    requires bus.Quiet() && c.Ok() && addr < 64 && n <= buf.Length && acks(0) && acks(1) && acks(2)
    requires Honest(c, ReadingClock(addr, n, acks, data))
    modifies bus, buf
    ensures d.Ok() && Now(bus, old(bus.Heard()), c, d) && d.regs == c.regs
    ensures r == if addr + n > 64 then 64 - addr else n
    ensures forall i | 0 <= i < buf.Length :: buf[i] == if i < r then c.regs[addr + i] else old(buf[i])
  {
    ghost var dialogue := ReadingClock(addr, n, acks, data);
    d := ReadPlainly(c, addr, n, acks, data, dialogue);
    Untouched(bus.Heard(), dialogue);
    r := ReadThrough(bus, addr, buf, n, acks, data, dialogue);
  }

  // ----- the display ------------------------------------------------------------------

  datatype Turn = Deaf | Called | Controlled | Commanded | Drawing

  // What the display has been told: commands, and bytes of the picture.
  datatype Panel = Panel(commands: seq<nat>, picture: seq<nat>, turn: Turn)

  // Its address, written to; then a control byte that says what the rest is.
  // Again a byte it does not acknowledge is one it does not take.
  function Obeys(p: Panel, s: Symbol): Panel {
    match s
    case Start => p.(turn := Called)
    case Stop => p.(turn := Deaf)
    case Violation => p.(turn := Deaf)
    case Frame(v, nack) =>
      if nack then p
      else
        match p.turn
        case Deaf => p
        case Called => p.(turn := if v == 0x78 then Controlled else Deaf)
        case Controlled => p.(turn := if v == 0x00 then Commanded else if v == 0x40 then Drawing else Deaf)
        case Commanded => p.(commands := p.commands + [v])
        case Drawing => p.(picture := p.picture + [v])
  }

  function Told(p: Panel, heard: seq<Symbol>): Panel {
    if heard == [] then p else Obeys(Told(p, heard[..|heard| - 1]), heard[|heard| - 1])
  }

  lemma ToldMore(p: Panel, heard: seq<Symbol>, s: Symbol)
    ensures Told(p, heard + [s]) == Obeys(Told(p, heard), s)
  {
    assert (heard + [s])[..|heard|] == heard;
  }

  // How many of the bytes come before the first one refused.
  ghost predicate Refused(bytes: seq<Byte>, acks: nat -> bool, t: nat) {
    t <= |bytes| && (forall j | 0 <= j < t :: acks(j)) && (t < |bytes| ==> !acks(t))
  }

  // The panel with the data behind the control byte.
  function Given(p: Panel, control: Byte, data: seq<Byte>): Panel {
    if control == 0x00 then p.(commands := p.commands + data, turn := Commanded)
    else p.(picture := p.picture + data, turn := Drawing)
  }

  lemma ToldControl(p: Panel, control: Byte, data: seq<Byte>, acks: nat -> bool)
    requires (control == 0x00 || control == 0x40) && acks(0) && acks(1)
    ensures Told(p, [Start] + Frames(([0x78, control] + data)[..2], acks)) == Given(p, control, [])
  {
    var a, b := Frame(0x78, false), Frame(control, false);
    FramesOf2([0x78, control] + data, acks);
    ToldMore(p, [], Start);
    assert [] + [Start] == [Start];
    ToldMore(p, [Start], a);
    assert [Start] + [a] == [Start, a];
    ToldMore(p, [Start, a], b);
    assert [Start, a] + [b] == [Start] + [a, b];
    assert p.commands + [] == p.commands && p.picture + [] == p.picture;
  }

  lemma GivenMore(p: Panel, control: Byte, data: seq<Byte>, v: Byte)
    requires control == 0x00 || control == 0x40
    ensures Obeys(Given(p, control, data), Frame(v, false)) == Given(p, control, data + [v])
  {
    assert p.commands + data + [v] == p.commands + (data + [v]);
    assert p.picture + data + [v] == p.picture + (data + [v]);
  }

  lemma {:induction false} ToldData(p: Panel, control: Byte, data: seq<Byte>, acks: nat -> bool, k: nat)
    requires (control == 0x00 || control == 0x40) && k <= |data| && forall j | 0 <= j < k + 2 :: acks(j)
    ensures Told(p, [Start] + Frames(([0x78, control] + data)[..k + 2], acks)) == Given(p, control, data[..k])
  {
    var bytes: seq<Byte> := [0x78, control] + data;
    if k == 0 {
      ToldControl(p, control, data, acks);
      assert data[..0] == [];
    } else {
      ToldData(p, control, data, acks, k - 1);
      SentMore(bytes, acks, k + 1);
      ToldMore(p, [Start] + Frames(bytes[..k + 1], acks), Frame(data[k - 1], false));
      GivenMore(p, control, data[..k - 1], data[k - 1]);
      assert data[..k - 1] + [data[k - 1]] == data[..k];
    }
  }

  lemma SendingIs(bytes: seq<Byte>, acks: nat -> bool, t: nat)
    requires Refused(bytes, acks, t)
    ensures Sending(bytes, acks)
         == [Start] + Frames(bytes[..t], acks) + (if t < |bytes| then [Frame(bytes[t], true)] else []) + [Stop]
  {
    SentIs(|bytes|, acks, t);
    if t < |bytes| {
      SentMore(bytes, acks, t);
    } else {
      assert [Start] + Frames(bytes[..t], acks) + [] == [Start] + Frames(bytes[..t], acks);
    }
  }

  lemma ToldEnd(p: Panel, heard: seq<Symbol>, v: nat, refused: bool)
    ensures Told(p, heard + (if refused then [Frame(v, true)] else []) + [Stop]) == Told(p, heard).(turn := Deaf)
  {
    if refused {
      ToldMore(p, heard, Frame(v, true));
      ToldMore(p, heard + [Frame(v, true)], Stop);
    } else {
      assert heard + [] == heard;
      ToldMore(p, heard, Stop);
    }
  }

  // The display takes the data up to the first byte it refuses, and nothing
  // else: as commands behind a control byte 0, as picture behind 0x40.
  lemma SendingTold(p: Panel, control: Byte, data: seq<Byte>, acks: nat -> bool, t: nat)
    requires (control == 0x00 || control == 0x40) && Refused([0x78, control] + data, acks, t) && t >= 2
    ensures Told(p, Sending([0x78, control] + data, acks)) == Given(p, control, data[..t - 2]).(turn := Deaf)
  {
    var bytes: seq<Byte> := [0x78, control] + data;
    SendingIs(bytes, acks, t);
    ToldData(p, control, data, acks, t - 2);
    ToldEnd(p, [Start] + Frames(bytes[..t], acks), if t < |bytes| then bytes[t] else 0, t < |bytes|);
  }

  // sh1107_command, and sh1107_data_burst: 0 exactly when the display has it all.
  method Command(bus: Bus, ghost p: Panel, cmd: Byte, acks: nat -> bool) returns (r: int, ghost q: Panel)
    requires bus.Quiet() && acks(0) && acks(1) && acks(2)
    modifies bus
    ensures bus.Quiet() && old(bus.Heard()) <= bus.Heard() && q == Told(p, bus.Heard()[|old(bus.Heard())|..])
    ensures r == 0 && q.commands == p.commands + [cmd] && q.picture == p.picture
  {
    ghost var dialogue := Sending([0x78, 0x00] + [cmd], acks);
    SendingTold(p, 0x00, [cmd], acks, 3);
    assert [0x78, 0x00] + [cmd] == [0x78, 0x00, cmd] && [cmd][..1] == [cmd];
    Untouched(bus.Heard(), dialogue);
    q := Told(p, dialogue);
    r := bus.DisplayCommand(cmd, acks);
  }

  method Draw(bus: Bus, ghost p: Panel, buf: seq<Byte>, acks: nat -> bool, ghost t: nat)
    returns (r: int, ghost q: Panel)
    requires bus.Quiet() && Refused([0x78, 0x40] + buf, acks, t) && t >= 2
    modifies bus
    ensures bus.Quiet() && old(bus.Heard()) <= bus.Heard() && q == Told(p, bus.Heard()[|old(bus.Heard())|..])
    ensures q.picture == p.picture + buf[..t - 2] && q.commands == p.commands
    ensures r == if t == |buf| + 2 then 0 else -1
  {
    ghost var dialogue := Sending([0x78, 0x40] + buf, acks);
    SendingTold(p, 0x40, buf, acks, t);
    Untouched(bus.Heard(), dialogue);
    q := Told(p, dialogue);
    r := bus.DataBurst(buf, acks);
  }
}
