// The bit-banged I2C master of src/micromon/i2c.c: two port lines, a slave that
// may pull SDA low, and everything that happens on the wires.
module I2c {
  type Byte = b: nat | b < 256

  // The levels of the two lines, and whether the port drives one of them high.
  datatype Wire = Wire(sda: bool, scl: bool, driven: bool)

  // ----- what a listener on the bus makes of the wires ------------------------------

  // Clause 3.1.4 and 3.1.5 of UM10204: START and STOP are the two changes SDA may
  // make while SCL is high; eight bits and an acknowledge bit, sampled as SCL
  // rises, make a frame. Anything else is a violation.
  datatype Symbol = Start | Stop | Frame(value: nat, nack: bool) | Violation

  datatype Listener = Listener(last: Wire, bits: seq<bool>, heard: seq<Symbol>)

  function FromBits(bits: seq<bool>): nat {
    if bits == [] then 0 else 2 * FromBits(bits[..|bits| - 1]) + (if bits[|bits| - 1] then 1 else 0)
  }

  function Hear(l: Listener, w: Wire): Listener {
    if w.driven then l.(last := w, heard := l.heard + [Violation])
    else if l.last.scl && w.scl && l.last.sda != w.sda then
      // The clock pulse of the condition itself may have left one sample behind.
      if |l.bits| > 1 then Listener(w, [], l.heard + [Violation])
      else Listener(w, [], l.heard + [if w.sda then Stop else Start])
    else if !l.last.scl && w.scl then
      var bits := l.bits + [w.sda];
      if |bits| == 9 then Listener(w, [], l.heard + [Frame(FromBits(bits[..8]), bits[8])])
      else Listener(w, bits, l.heard)
    else l.(last := w)
  }

  const IDLE := Wire(true, true, false)

  function Listen(trace: seq<Wire>): Listener {
    if trace == [] then Listener(IDLE, [], [])
    else Hear(Listen(trace[..|trace| - 1]), trace[|trace| - 1])
  }

  lemma ListenMore(trace: seq<Wire>, w: Wire)
    ensures Listen(trace + [w]) == Hear(Listen(trace), w)
  {
    assert (trace + [w])[..|trace|] == trace;
  }

  // ----- bytes and bits ---------------------------------------------------------------

  // byte >> k
  function Shifted(b: nat, k: nat): nat {
    if k == 0 then b else Shifted(b, k - 1) / 2
  }

  function Bit(b: nat, k: nat): bool { Shifted(b, k) % 2 == 1 }

  // The first n bits on the wire, most significant first.
  function Leading(b: Byte, n: nat): (bits: seq<bool>)
    requires n <= 8
    ensures |bits| == n
  {
    if n == 0 then [] else Leading(b, n - 1) + [Bit(b, 8 - n)]
  }

  lemma ShiftedOut(b: Byte)
    ensures Shifted(b, 8) == 0
  {
    assert Shifted(b, 1) < 128;
    assert Shifted(b, 2) < 64;
    assert Shifted(b, 3) < 32;
    assert Shifted(b, 4) < 16;
    assert Shifted(b, 5) < 8;
    assert Shifted(b, 6) < 4;
    assert Shifted(b, 7) < 2;
  }

  lemma {:induction false} LeadingValue(b: Byte, n: nat)
    requires n <= 8
    ensures FromBits(Leading(b, n)) == Shifted(b, 8 - n)
  {
    if n == 0 {
      ShiftedOut(b);
    } else {
      LeadingValue(b, n - 1);
      assert Leading(b, n)[..n - 1] == Leading(b, n - 1);
    }
  }

  lemma {:induction false} ShiftedBound(b: Byte, k: nat)
    ensures Shifted(b, k) <= b
  {
    if k > 0 { ShiftedBound(b, k - 1); }
  }

  // Shifting one more bit in at the bottom.
  lemma ShiftIn(b: Byte, k: nat)
    ensures (2 * Shifted(b, k + 1) + (if Bit(b, k) then 1 else 0)) % 256 == Shifted(b, k)
  {
    ShiftedBound(b, k);
    assert Shifted(b, k + 1) == Shifted(b, k) / 2;
  }

  // ----- dialogues --------------------------------------------------------------------

  lemma Regroup<T>(a: seq<T>, b: seq<T>, c: seq<T>)
    ensures a + b + c == a + (b + c)
  {
  }

  const SH1107_ADDR: Byte := 0x3c
  const DS1307_ADDR: Byte := 0x68

  // The frames of sending `bytes`, the k-th acknowledged or not.
  ghost function Frames(bytes: seq<Byte>, acks: nat -> bool): seq<Symbol> {
    if bytes == [] then []
    else Frames(bytes[..|bytes| - 1], acks) + [Frame(bytes[|bytes| - 1], !acks(|bytes| - 1))]
  }

  // The symbols of sending bytes up to the first one not acknowledged.
  ghost function Sending(bytes: seq<Byte>, acks: nat -> bool): seq<Symbol> {
    [Start] + Frames(bytes[..SentFrom(0, |bytes|, acks)], acks) + [Stop]
  }

  lemma FramesMore(bytes: seq<Byte>, acks: nat -> bool, k: nat)
    requires k < |bytes|
    ensures Frames(bytes[..k + 1], acks) == Frames(bytes[..k], acks) + [Frame(bytes[k], !acks(k))]
  {
    assert bytes[..k + 1][..k] == bytes[..k];
  }

  lemma FramesOf2(bytes: seq<Byte>, acks: nat -> bool)
    requires |bytes| >= 2
    ensures Frames(bytes[..1], acks) == [Frame(bytes[0], !acks(0))]
    ensures Frames(bytes[..2], acks) == [Frame(bytes[0], !acks(0)), Frame(bytes[1], !acks(1))]
  {
    assert Frames(bytes[..0], acks) == [];
    FramesMore(bytes, acks, 0);
    FramesMore(bytes, acks, 1);
  }

  // How many of n bytes are sent when the first one not acknowledged, from the
  // k-th on, is the last.
  ghost function SentFrom(k: nat, n: nat, acks: nat -> bool): (m: nat)
    requires k <= n
    ensures k <= m <= n
    decreases n - k
  {
    if k == n then n else if acks(k) then SentFrom(k + 1, n, acks) else k + 1
  }

  lemma {:induction false} SentAfter(i: nat, n: nat, acks: nat -> bool, k: nat)
    requires i <= k <= n && (forall j | i <= j < k :: acks(j)) && (k < n ==> !acks(k))
    ensures SentFrom(i, n, acks) == if k < n then k + 1 else n
    decreases k - i
  {
    if i < k { SentAfter(i + 1, n, acks, k); }
  }

  // The k-th byte is the first one not acknowledged, or k is past them all.
  lemma {:induction false} SentIs(n: nat, acks: nat -> bool, k: nat)
    requires k <= n && (forall j | 0 <= j < k :: acks(j)) && (k < n ==> !acks(k))
    ensures SentFrom(0, n, acks) == if k < n then k + 1 else n
  {
    SentAfter(0, n, acks, k);
  }

  ghost function WritingClock(addr: int, buf: seq<Byte>, acks: nat -> bool): seq<Symbol> {
    if !(0 <= addr <= 63) then []
    else
      var bytes := [2 * DS1307_ADDR, addr] + buf;
      [Start] + Frames(bytes[..if !acks(0) then 1 else if !acks(1) then 2 else |bytes|], acks) + [Stop]
  }

  // The first i frames of a read of n bytes.
  ghost function Reads(data: nat -> Byte, i: nat, n: nat): seq<Symbol>
    requires i <= n
  {
    if i == 0 then [] else Reads(data, i - 1, n) + [Frame(data(i - 1), i == n)]
  }

  function Within(addr: int, n: nat): int { if addr + n > 64 then 64 - addr else n }

  ghost predicate Stuck(addr: int, n: nat, acks: nat -> bool, data: nat -> Byte) {
    0 <= addr <= 63 && acks(0) && acks(1) && acks(2) && n == 0 && !Bit(data(0), 7)
  }

  ghost function ReadingBack(n: nat, ack: bool, data: nat -> Byte): seq<Symbol> {
    [Start, Frame(2 * DS1307_ADDR + 1, !ack)]
    + (if ack then Reads(data, n, n) else [])
    + (if ack && n == 0 && !Bit(data(0), 7) then [] else [Stop])
  }

  ghost function ReadingClock(addr: int, n: nat, acks: nat -> bool, data: nat -> Byte): seq<Symbol> {
    if !(0 <= addr <= 63) then []
    else if !(acks(0) && acks(1)) then
      [Start] + Frames([2 * DS1307_ADDR, addr][..if acks(0) then 2 else 1], acks) + [Stop]
    else
      [Start] + Frames([2 * DS1307_ADDR, addr][..2], acks) + ReadingBack(Within(addr, n), acks(2), data)
  }

  // ----- the port ---------------------------------------------------------------------

  class Bus {
    // Port C, bits 0 and 1: the output latch and the direction (true for output).
    var latchSda: bool
    var latchScl: bool
    var outSda: bool
    var outScl: bool
    // The slave pulls SDA low.
    var slaveLow: bool

    ghost var trace: seq<Wire>

    ghost function Ear(): Listener
      reads this
    {
      Listen(trace)
    }

    ghost function Heard(): seq<Symbol>
      reads this
    {
      Ear().heard
    }

    // What reading the data register gives: the latch of an output, the level of
    // an input.
    predicate SdaIn()
      reads this
    {
      if outSda then latchSda else !slaveLow
    }

    predicate SclIn()
      reads this
    {
      if outScl then latchScl else true
    }

    ghost function Lines(): Wire
      reads this
    {
      Wire(SdaIn(), SclIn(), (outSda && latchSda) || (outScl && latchScl))
    }

    // No line is driven high, and the listener is up to date.
    ghost predicate Valid()
      reads this
    {
      && (outSda ==> !latchSda) && (outScl ==> !latchScl)
      && Ear().last == Lines()
    }

    // Both lines are left to the pull-ups.
    ghost predicate Free()
      reads this
    {
      !outSda && !outScl
    }

    // Nobody holds a line, nothing is pending.
    ghost predicate Quiet()
      reads this
    {
      Valid() && Free() && !slaveLow && Ear().bits == []
    }

    constructor ()
      ensures Quiet() && Heard() == []
    {
      latchSda, latchScl := false, false;
      outSda, outScl := false, false;
      slaveLow := false;
      trace := [];
    }

    // After every store to a port register the wires are what they are.
    ghost method Record()
      modifies this`trace
      ensures trace == old(trace) + [Lines()]
      ensures Ear() == Hear(old(Ear()), Lines())
    {
      ListenMore(trace, Lines());
      trace := trace + [Lines()];
    }

    method SdaLow()
      requires Valid()
      modifies this`latchSda, this`latchScl, this`outSda, this`trace
      ensures Valid() && outSda
      ensures Ear() == Hear(old(Ear()), Wire(false, SclIn(), false))
    {
      latchSda, latchScl := false, SclIn();
      Record();
      outSda := true;
      Record();
    }

    method SdaRelease()
      requires Valid()
      modifies this`outSda, this`trace
      ensures Valid() && !outSda
      ensures Ear() == Hear(old(Ear()), Wire(!slaveLow, SclIn(), false))
    {
      outSda := false;
      Record();
    }

    method SclLow()
      requires Valid()
      modifies this`latchSda, this`latchScl, this`outScl, this`trace
      ensures Valid() && outScl
      ensures Ear() == Hear(old(Ear()), Wire(SdaIn(), false, false))
    {
      latchSda, latchScl := SdaIn(), false;
      Record();
      outScl := true;
      Record();
    }

    // The wait for the line to rise ends at once: no slave stretches the clock.
    method SclRelease()
      requires Valid()
      modifies this`outScl, this`trace
      ensures Valid() && !outScl
      ensures Ear() == Hear(old(Ear()), Wire(SdaIn(), true, false))
    {
      outScl := false;
      Record();
    }

    // The slave's turn: it changes SDA only while the clock is low.
    method SlaveDrives(low: bool)
      requires Valid() && outScl
      modifies this`slaveLow, this`trace
      ensures Valid() && slaveLow == low
      ensures Ear() == old(Ear()).(last := Wire(!outSda && !low, false, false))
    {
      slaveLow := low;
      Record();
    }

    // Between frames: the clock held low, no bits pending.
    ghost predicate Between()
      reads this
    {
      Valid() && outScl && Ear().bits == []
    }

    method Begin()
      requires Valid() && !slaveLow && Ear().bits == []
      requires Free() || outScl
      modifies this`latchSda, this`latchScl, this`outSda, this`outScl, this`trace
      ensures Between() && Heard() == old(Heard()) + [Start]
    {
      SdaRelease();
      SclRelease();
      SdaLow();
      SclLow();
    }

    // A slave that keeps SDA low keeps the STOP off the wires.
    method End()
      requires Between()
      modifies this`latchSda, this`latchScl, this`outSda, this`outScl, this`trace
      ensures Valid() && Free()
      ensures !slaveLow ==> Heard() == old(Heard()) + [Stop] && Ear().bits == []
      ensures slaveLow ==> Heard() == old(Heard()) && Ear().bits == [false]
    {
      SdaLow();
      SclRelease();
      SdaRelease();
    }

    // One data bit of the master: SDA set while the clock is low, then a pulse.
    method SendBit(one: bool)
      requires Valid() && !slaveLow && (outScl || Ear().bits != []) && |Ear().bits| < 8
      modifies this`latchSda, this`latchScl, this`outSda, this`outScl, this`trace
      ensures Valid() && !outScl
      ensures Ear().bits == old(Ear()).bits + [one] && Heard() == old(Heard())
    {
      SclLow();
      if one {
        SdaRelease();
      } else {
        SdaLow();
      }
      SclRelease();
    }

    // The eight data bits of a byte the master shifts out.
    method SendBits(byte: Byte)
      requires Between() && !slaveLow
      modifies this`latchSda, this`latchScl, this`outSda, this`outScl, this`trace
      ensures Valid() && !outScl
      ensures Ear().bits == Leading(byte, 8) && Heard() == old(Heard())
    {
      var bit := 7;
      while bit >= 0
        invariant -1 <= bit <= 7 && Valid() && !slaveLow
        invariant bit == 7 <==> outScl
        invariant Ear().bits == Leading(byte, 7 - bit) && Heard() == old(Heard())
      {
        SendBit(Bit(byte, bit));
        bit := bit - 1;
      }
    }

    // The ninth clock of a byte that was written.
    method ReadAnswer(acks: bool, follow: bool) returns (nack: bool)
      requires Valid() && !outScl && |Ear().bits| == 8
      modifies this
      ensures Between() && !outSda && slaveLow == follow && nack == !acks
      ensures Heard() == old(Heard()) + [Frame(FromBits(old(Ear()).bits), nack)]
    {
      SclLow();
      SdaRelease();
      SlaveDrives(acks);
      SclRelease();
      nack := SdaIn();
      SclLow();
      SlaveDrives(follow);
    }

    // i2c_write_byte, to a slave that acknowledges or not and that holds SDA low
    // afterwards or not.
    method WriteByte(byte: Byte, acks: bool, follow: bool) returns (nack: bool)
      requires Between() && !slaveLow
      modifies this
      ensures Between() && !outSda && slaveLow == follow
      ensures nack == !acks
      ensures Heard() == old(Heard()) + [Frame(byte, nack)]
    {
      SendBits(byte);
      LeadingValue(byte, 8);
      nack := ReadAnswer(acks, follow);
    }

    // One data bit of the slave: a pulse, SDA sampled while the clock is high.
    method ReceiveBit(one: bool) returns (sample: bool)
      requires Valid() && !outSda && (outScl || Ear().bits != []) && |Ear().bits| < 8
      modifies this
      ensures Valid() && !outScl && !outSda
      ensures Ear().bits == old(Ear()).bits + [one] && Heard() == old(Heard()) && sample == one
    {
      SclLow();
      SlaveDrives(!one);
      SclRelease();
      sample := SdaIn();
    }

    // The eight data bits of a byte the slave shifts out.
    method ReceiveBits(data: Byte) returns (value: Byte)
      requires Between()
      modifies this
      ensures Valid() && !outScl && !outSda && value == data
      ensures Ear().bits == Leading(data, 8) && Heard() == old(Heard())
    {
      value := 0;
      SdaRelease();
      var bit := 7;
      ShiftedOut(data);
      while bit >= 0
        invariant -1 <= bit <= 7 && Valid() && !outSda
        invariant bit == 7 <==> outScl
        invariant Ear().bits == Leading(data, 7 - bit) && Heard() == old(Heard())
        invariant value == Shifted(data, bit + 1)
      {
        var sample := ReceiveBit(Bit(data, bit));
        ShiftIn(data, bit);
        value := (2 * value + (if sample then 1 else 0)) % 256;
        bit := bit - 1;
      }
    }

    // The ninth clock of a byte that was read.
    method Acknowledge(nack: bool, follow: bool)
      requires Valid() && !outScl && !outSda && |Ear().bits| == 8
      modifies this
      ensures Between() && !outSda && slaveLow == follow
      ensures Heard() == old(Heard()) + [Frame(FromBits(old(Ear()).bits), nack)]
    {
      SclLow();
      SlaveDrives(false);
      if nack {
        SdaRelease();
      } else {
        SdaLow();
      }
      SclRelease();
      SclLow();
      SlaveDrives(follow);
      SdaRelease();
    }

    // i2c_read_byte, from a slave that shifts `data` out and that holds SDA low
    // afterwards or not.
    method ReadByte(nack: bool, data: Byte, follow: bool) returns (value: Byte)
      requires Between()
      modifies this
      ensures Between() && !outSda && slaveLow == follow
      ensures value == data
      ensures Heard() == old(Heard()) + [Frame(data, nack)]
    {
      value := ReceiveBits(data);
      LeadingValue(data, 8);
      Acknowledge(nack, follow);
    }

    // ----- transactions -------------------------------------------------------------

    // i2c_probe
    method Probe(addr7: nat, acks: bool) returns (found: bool)
      requires Quiet() && addr7 < 128
      modifies this
      ensures Quiet() && found == acks
      ensures Heard() == old(Heard()) + [Start, Frame(2 * addr7, !acks), Stop]
    {
      Begin();
      var nack := WriteByte(2 * addr7, acks, false);
      found := !nack;
      End();
    }

    // i2c_failed
    method Failed() returns (r: int)
      requires Between() && !slaveLow
      modifies this
      ensures Quiet() && r == -1 && Heard() == old(Heard()) + [Stop]
    {
      End();
      r := -1;
    }

    // One byte of a transaction whose dialogue so far is [Start] and `before`.
    method SendNext(byte: Byte, acks: bool, ghost h: seq<Symbol>, ghost before: seq<Symbol>) returns (nack: bool)
      requires Between() && !slaveLow && Heard() == h + before
      modifies this
      ensures Between() && !slaveLow && nack == !acks
      ensures Heard() == h + (before + [Frame(byte, !acks)])
    {
      nack := WriteByte(byte, acks, false);
    }

    // The first two bytes of a transaction; false when one of them is not
    // acknowledged, and the transaction is over.
    method Open(bytes: seq<Byte>, acks: nat -> bool, ghost h: seq<Symbol>) returns (ok: bool)
      requires Quiet() && Heard() == h && |bytes| >= 2
      modifies this
      ensures ok == (acks(0) && acks(1))
      ensures ok ==> Between() && !slaveLow && Heard() == h + ([Start] + Frames(bytes[..2], acks))
      ensures !ok ==> Quiet() && Heard() == h + ([Start] + Frames(bytes[..if acks(0) then 2 else 1], acks) + [Stop])
    {
      FramesOf2(bytes, acks);
      Begin();
      var nack := SendNext(bytes[0], acks(0), h, [Start]);
      if nack {
        End();
        return false;
      }
      nack := SendNext(bytes[1], acks(1), h, [Start] + Frames(bytes[..1], acks));
      if nack {
        End();
        return false;
      }
      return true;
    }

    // sh1107_command: three bytes, the first one not acknowledged being the last.
    method DisplayCommand(cmd: Byte, acks: nat -> bool) returns (r: int)
      requires Quiet()
      modifies this
      ensures Quiet() && Heard() == old(Heard()) + Sending([2 * SH1107_ADDR, 0x00, cmd], acks)
      ensures r == if acks(0) && acks(1) && acks(2) then 0 else -1
    {
      ghost var h := Heard();
      var bytes := [2 * SH1107_ADDR, 0x00, cmd];
      var ok := Open(bytes, acks, h);
      if !ok {
        SentIs(3, acks, if acks(0) then 1 else 0);
        return -1;
      }
      FramesMore(bytes, acks, 2);
      SentIs(3, acks, if acks(2) then 3 else 2);
      assert bytes[..3] == bytes[..|bytes|];
      var nack := SendNext(cmd, acks(2), h, [Start] + Frames(bytes[..2], acks));
      if nack {
        r := Failed();
        return;
      }
      End();
      return 0;
    }

    // The loop over the data, up to the first byte that is not acknowledged.
    method SendData(buf: seq<Byte>, ghost bytes: seq<Byte>, acks: nat -> bool, ghost h: seq<Symbol>)
      returns (ghost sent: nat, nack: bool)
      requires bytes == [2 * SH1107_ADDR, 0x40] + buf && acks(0) && acks(1)
      requires Between() && !slaveLow && Heard() == h + ([Start] + Frames(bytes[..2], acks))
      modifies this
      ensures Between() && !slaveLow && 2 <= sent <= |bytes|
      ensures Heard() == h + ([Start] + Frames(bytes[..sent], acks))
      ensures nack ==> sent > 2 && !acks(sent - 1) && forall k | 0 <= k < sent - 1 :: acks(k)
      ensures !nack ==> sent == |bytes| && forall k | 0 <= k < sent :: acks(k)
    {
      sent := 2;
      for i := 0 to |buf|
        invariant sent == i + 2 && Between() && !slaveLow && forall k | 0 <= k < sent :: acks(k)
        invariant Heard() == h + ([Start] + Frames(bytes[..sent], acks))
      {
        FramesMore(bytes, acks, i + 2);
        nack := SendNext(buf[i], acks(i + 2), h, [Start] + Frames(bytes[..i + 2], acks));
        sent := sent + 1;
        if nack {
          return;
        }
      }
      nack := false;
    }

    // sh1107_data_burst: the address, 0x40 and the data.
    method DataBurst(buf: seq<Byte>, acks: nat -> bool) returns (r: int)
      requires Quiet()
      modifies this
      ensures Quiet() && Heard() == old(Heard()) + Sending([2 * SH1107_ADDR, 0x40] + buf, acks)
      ensures r == 0 || r == -1
      ensures r == 0 <==> forall k | 0 <= k < |buf| + 2 :: acks(k)
    {
      ghost var h := Heard();
      var bytes := [2 * SH1107_ADDR, 0x40] + buf;
      var ok := Open(bytes, acks, h);
      if !ok {
        SentIs(|bytes|, acks, if acks(0) then 1 else 0);
        return -1;
      }
      var sent, nack := SendData(buf, bytes, acks, h);
      SentIs(|bytes|, acks, if nack then sent - 1 else sent);
      if nack {
        r := Failed();
        return;
      }
      assert bytes[..sent] == bytes[..|bytes|];
      End();
      return 0;
    }

    // The loop over the data of a register write, whatever the chip answers.
    method SendAll(buf: seq<Byte>, ghost bytes: seq<Byte>, acks: nat -> bool, ghost h: seq<Symbol>)
      requires |bytes| == |buf| + 2 && bytes[2..] == buf
      requires Between() && !slaveLow && Heard() == h + ([Start] + Frames(bytes[..2], acks))
      modifies this
      ensures Between() && !slaveLow && Heard() == h + ([Start] + Frames(bytes, acks))
    {
      for i := 0 to |buf|
        invariant Between() && !slaveLow
        invariant Heard() == h + ([Start] + Frames(bytes[..i + 2], acks))
      {
        FramesMore(bytes, acks, i + 2);
        assert buf[i] == bytes[2..][i];
        var nack := SendNext(buf[i], acks(i + 2), h, [Start] + Frames(bytes[..i + 2], acks));
      }
      assert bytes[..|buf| + 2] == bytes;
    }

    // ds1307_write: only the address and the register number have to be
    // acknowledged.
    method WriteClock(addr: int, buf: seq<Byte>, acks: nat -> bool) returns (r: int)
      requires Quiet()
      modifies this
      ensures Quiet()
      ensures r == if 0 <= addr <= 63 && acks(0) && acks(1) then |buf| else -1
      ensures Heard() == old(Heard()) + WritingClock(addr, buf, acks)
    {
      if addr < 0 || addr > 63 {
        return -1;
      }
      ghost var h := Heard();
      var bytes := [2 * DS1307_ADDR, addr] + buf;
      var ok := Open(bytes, acks, h);
      if !ok {
        return -1;
      }
      SendAll(buf, bytes, acks, h);
      assert bytes[..|bytes|] == bytes;
      End();
      Regroup(h, [Start] + Frames(bytes, acks), [Stop]);
      return |buf|;
    }

    // The bytes of a read, all but the last one acknowledged.
    method ReadBytes(buf: array<Byte>, n: nat, data: nat -> Byte, ghost h: seq<Symbol>)
      requires Between() && Heard() == h && n <= buf.Length
      modifies this, buf
      ensures Between() && Heard() == h + Reads(data, n, n)
      ensures slaveLow == (n == 0 && old(slaveLow))
      ensures forall i | 0 <= i < buf.Length :: buf[i] == if i < n then data(i) else old(buf[i])
    {
      for i := 0 to n
        invariant Between() && Heard() == h + Reads(data, i, n)
        invariant slaveLow == if i == 0 then old(slaveLow) else i < n && !Bit(data(i), 7)
        invariant forall k | 0 <= k < buf.Length :: buf[k] == if k < i then data(k) else old(buf[k])
      {
        var value := ReadByte(i == n - 1, data(i), i + 1 < n && !Bit(data(i + 1), 7));
        buf[i] := value;
      }
    }

    // The bytes of a read, and the STOP unless the slave holds SDA.
    method ReadRest(buf: array<Byte>, n: nat, data: nat -> Byte)
      requires Between() && n <= buf.Length
      modifies this, buf
      ensures Quiet() <==> !(n == 0 && old(slaveLow))
      ensures Heard() == old(Heard()) + Reads(data, n, n) + (if n == 0 && old(slaveLow) then [] else [Stop])
      ensures forall i | 0 <= i < buf.Length :: buf[i] == if i < n then data(i) else old(buf[i])
    {
      ReadBytes(buf, n, data, Heard());
      End();
    }

    // The second half of ds1307_read, behind the register number. A slave that has
    // acknowledged the read address holds its first bit on SDA; a read of no bytes
    // leaves it there, and no STOP comes about when that bit is zero.
    method ReadBack(buf: array<Byte>, n: nat, ack: bool, data: nat -> Byte) returns (nack: bool)
      requires Between() && !slaveLow && n <= buf.Length
      modifies this, buf
      ensures nack == !ack
      ensures Quiet() <==> !(ack && n == 0 && !Bit(data(0), 7))
      ensures Heard() == old(Heard()) + ReadingBack(n, ack, data)
      ensures forall i | 0 <= i < buf.Length :: buf[i] == if ack && i < n then data(i) else old(buf[i])
    {
      Begin();
      nack := WriteByte(2 * DS1307_ADDR + 1, ack, ack && !Bit(data(0), 7));
      if nack {
        End();
        return;
      }
      ReadRest(buf, n, data);
    }

    // ds1307_read
    method ReadClock(addr: int, buf: array<Byte>, n: nat, acks: nat -> bool, data: nat -> Byte) returns (r: int)
      requires Quiet() && n <= buf.Length
      modifies this, buf
      ensures Quiet() <==> !Stuck(addr, n, acks, data)
      ensures Heard() == old(Heard()) + ReadingClock(addr, n, acks, data)
      ensures r == if 0 <= addr <= 63 && acks(0) && acks(1) && acks(2) then Within(addr, n) else -1
      ensures forall i | 0 <= i < buf.Length :: buf[i] == if i < r then data(i) else old(buf[i])
    {
      if addr < 0 || addr > 63 {
        return -1;
      }
      var bytes := [2 * DS1307_ADDR, addr];
      ghost var h := Heard();
      var ok := Open(bytes, acks, h);
      if !ok {
        return -1;
      }
      ghost var head := [Start] + Frames(bytes[..2], acks);
      var count := n;
      if addr + n > 64 {
        count := 64 - addr;
      }
      var nack := ReadBack(buf, count, acks(2), data);
      Regroup(h, head, ReadingBack(count, acks(2), data));
      return if nack then -1 else count;
    }
  }

  // Every reading of at least one byte is a proper dialogue: it begins with a
  // START, ends with a STOP, breaks no rule on the way, and refuses exactly the
  // last of the bytes it reads.
  lemma {:induction false} ReadsLast(data: nat -> Byte, i: nat, n: nat)
    requires i <= n
    ensures |Reads(data, i, n)| == i
    ensures forall k | 0 <= k < i :: Reads(data, i, n)[k] == Frame(data(k), k + 1 == n)
  {
    if i > 0 { ReadsLast(data, i - 1, n); }
  }

  lemma {:induction false} FramesPlain(bytes: seq<Byte>, acks: nat -> bool)
    ensures |Frames(bytes, acks)| == |bytes|
    ensures forall k | 0 <= k < |bytes| :: Frames(bytes, acks)[k] == Frame(bytes[k], !acks(k))
  {
    if bytes != [] { FramesPlain(bytes[..|bytes| - 1], acks); }
  }

  ghost predicate Proper(dialogue: seq<Symbol>) {
    && |dialogue| >= 2 && dialogue[0] == Start && dialogue[|dialogue| - 1] == Stop
    && (forall k | 0 <= k < |dialogue| :: dialogue[k] != Violation)
    && (forall k | 0 <= k < |dialogue| - 1 :: dialogue[k] != Stop)
  }

  lemma ReadingProper(addr: int, n: nat, acks: nat -> bool, data: nat -> Byte)
    requires 0 <= addr <= 63
    ensures Proper(ReadingClock(addr, n, acks, data)) <==> !Stuck(addr, n, acks, data)
  {
    var count := Within(addr, n);
    ReadsLast(data, count, count);
    FramesPlain([2 * DS1307_ADDR, addr][..2], acks);
    FramesPlain([2 * DS1307_ADDR, addr][..1], acks);
  }

  lemma WritingProper(addr: int, buf: seq<Byte>, acks: nat -> bool)
    requires 0 <= addr <= 63
    ensures Proper(WritingClock(addr, buf, acks))
  {
    var bytes := [2 * DS1307_ADDR, addr] + buf;
    FramesPlain(bytes[..if !acks(0) then 1 else if !acks(1) then 2 else |bytes|], acks);
  }

  lemma SendingProper(bytes: seq<Byte>, acks: nat -> bool)
    ensures Proper(Sending(bytes, acks))
  {
    FramesPlain(bytes[..SentFrom(0, |bytes|, acks)], acks);
  }

  // The read that does get stuck: no bytes at all from a register that begins
  // with a zero bit.
  method StuckRead() returns (bus: Bus)
    ensures !bus.Quiet() && Stop !in bus.Heard()
  {
    bus := new Bus();
    var buf := new Byte[0];
    var data: nat -> Byte := _ => 0;
    var acks: nat -> bool := _ => true;
    FramesOf2([2 * DS1307_ADDR, 0], acks);
    var r := bus.ReadClock(0, buf, 0, acks, data);
  }
}
