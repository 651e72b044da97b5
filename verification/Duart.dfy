// The receive side of src/lib/machine/duart.c: the interrupt handler fills a
// ring of 16 characters, a locked section empties it, and RTS tells the sender
// when to stop.
module Duart {
  const RX_BUFFER_SIZE: nat := 16
  const HIGH_WATER_MARK: nat := 10
  const LOW_WATER_MARK: nat := 2

  type Byte = b: nat | b < 256

  // The bit ISR_RX_READY (0x02) of an interrupt status, and whether any of the
  // error bits (0xf0) of a channel status is set.
  predicate RxReady(isr: Byte) { isr / 2 % 2 == 1 }
  predicate HasError(status: Byte) { status / 16 != 0 }

  function Bit(b: bool): nat { if b then 1 else 0 }

  // The byte with these bits, the highest first.
  function Packed(b7: bool, b6: bool, b5: bool, b4: bool, b3: bool, b2: bool, b1: bool, b0: bool): Byte {
    16 * (8 * Bit(b7) + 4 * Bit(b6) + 2 * Bit(b5) + Bit(b4)) + 8 * Bit(b3) + 4 * Bit(b2) + 2 * Bit(b1) + Bit(b0)
  }

  // Channel A is ready by bit 1 and channel B by bit 5; bits 4 to 7 of a channel
  // status are its errors.
  lemma StatusBits(b7: bool, b6: bool, b5: bool, b4: bool, b3: bool, b2: bool, b1: bool, b0: bool)
    ensures var byte := Packed(b7, b6, b5, b4, b3, b2, b1, b0);
            && (RxReady(byte) <==> b1) && (RxReady(byte / 16) <==> b5)
            && (HasError(byte) <==> b7 || b6 || b5 || b4)
  {
    var byte := Packed(b7, b6, b5, b4, b3, b2, b1, b0);
    assert byte / 16 == 8 * Bit(b7) + 4 * Bit(b6) + 2 * Bit(b5) + Bit(b4);
    assert byte / 16 / 2 == 4 * Bit(b7) + 2 * Bit(b6) + Bit(b5);
    assert byte / 2 == 2 * (32 * Bit(b7) + 16 * Bit(b6) + 8 * Bit(b5) + 4 * Bit(b4) + 2 * Bit(b3) + Bit(b2)) + Bit(b1);
  }

  // What can happen, in any order: an interrupt, a reader finding the buffer not
  // empty (or looking in vain), a reader's locked section.
  datatype Event = Irq(isr: Byte, status: Byte, ch: Byte) | Poll | Take

  // The channel as its users see it. `ready` says that a reader has left its
  // waiting loop; `lost` counts characters dropped for want of room; `since`
  // counts the characters that arrived after RTS was last deasserted.
  datatype State = State(queue: seq<Byte>, rts: bool, ready: bool, out: seq<Byte>, lost: nat, since: nat)

  const INITIAL := State([], true, false, [], 0, 0)

  predicate Arrives(e: Event) { e.Irq? && RxReady(e.isr) }

  predicate ErrorFree(e: Event) { Arrives(e) && !HasError(e.status) }

  function Store(s: State, ch: Byte): State {
    if |s.queue| >= RX_BUFFER_SIZE then s.(lost := s.lost + 1)
    else
      var q := s.queue + [ch];
      if |q| == HIGH_WATER_MARK && s.rts then s.(queue := q, rts := false, since := 0) else s.(queue := q)
  }

  function Counted(s: State): State {
    if s.rts then s else s.(since := s.since + 1)
  }

  function Step(s: State, e: Event): State {
    match e
    case Irq(_, _, ch) =>
      if !Arrives(e) then s else if !ErrorFree(e) then Counted(s) else Store(Counted(s), ch)
    case Poll => s.(ready := s.ready || s.queue != [])
    case Take =>
      if !s.ready || s.queue == [] then s
      else
        var q := s.queue[1..];
        s.(queue := q, out := s.out + [s.queue[0]], ready := false,
           rts := s.rts || |q| == LOW_WATER_MARK)
  }

  function Run(es: seq<Event>): State {
    if es == [] then INITIAL else Step(Run(es[..|es| - 1]), es[|es| - 1])
  }

  // ----- flow control, over every interleaving -------------------------------------

  // While RTS is asserted there is room for the characters the sender may still
  // send; while it is not, a reader has something to read.
  ghost predicate Inv(s: State) {
    && (s.rts ==> |s.queue| < HIGH_WATER_MARK)
    && (!s.rts ==> LOW_WATER_MARK < |s.queue| <= RX_BUFFER_SIZE && |s.queue| <= HIGH_WATER_MARK + s.since)
    && (s.ready ==> s.queue != [])
  }

  lemma {:induction false} FlowControl(es: seq<Event>)
    ensures Inv(Run(es))
  {
    if es != [] {
      FlowControl(es[..|es| - 1]);
    }
  }

  // In figures: at most 9 characters are buffered while RTS is asserted, from 3
  // to 16 while it is not.
  lemma RtsBounds(es: seq<Event>)
    ensures Run(es).rts ==> |Run(es).queue| <= 9
    ensures !Run(es).rts ==> 3 <= |Run(es).queue| <= 16
  {
    FlowControl(es);
  }

  // RTS goes with the character that is stored as the tenth, and comes back
  // with the one whose reading leaves two; nothing else moves it.
  lemma RtsMoves(es: seq<Event>, e: Event)
    ensures var s, t := Run(es), Run(es + [e]);
            && (s.rts && !t.rts <==> s.rts && ErrorFree(e) && |s.queue| == 9)
            && (!s.rts && t.rts <==> !s.rts && e.Take? && s.ready && |s.queue| == 3)
            && (s.rts && !t.rts ==> |t.queue| == 10) && (!s.rts && t.rts ==> |t.queue| == 2)
  {
    assert (es + [e])[..|es|] == es;
    FlowControl(es);
  }

  // A sender that lets at most `slack` characters through after each
  // deassertion of RTS.
  predicate Polite(es: seq<Event>, slack: nat) {
    es == [] ||
    var s := Run(es[..|es| - 1]);
    && Polite(es[..|es| - 1], slack)
    && (Arrives(es[|es| - 1]) && !s.rts ==> s.since < slack)
  }

  // Against a sender with a slack of six nothing is ever dropped.
  lemma {:induction false} NothingLost(es: seq<Event>, slack: nat)
    requires Polite(es, slack) && slack <= RX_BUFFER_SIZE - HIGH_WATER_MARK
    ensures Run(es).lost == 0
  {
    if es != [] {
      NothingLost(es[..|es| - 1], slack);
      FlowControl(es[..|es| - 1]);
    }
  }

  function Burst(e: Event, n: nat): (es: seq<Event>)
    ensures |es| == n && forall i | 0 <= i < n :: es[i] == e
  {
    if n == 0 then [] else Burst(e, n - 1) + [e]
  }

  // Error-free characters without a pause and without a reader.
  lemma {:induction false} BurstRun(e: Event, n: nat)
    requires ErrorFree(e) && n <= 17
    ensures var s := Run(Burst(e, n));
            && s.lost == (if n <= 16 then 0 else 1) && |s.queue| == (if n <= 16 then n else 16)
            && (s.rts <==> n < 10) && s.since == (if n <= 10 then 0 else n - 10)
    ensures Polite(Burst(e, n), 7)
  {
    if n > 0 {
      assert Burst(e, n)[..n - 1] == Burst(e, n - 1);
      BurstRun(e, n - 1);
    }
  }

  lemma {:induction false} PoliteMore(es: seq<Event>, a: nat, b: nat)
    requires Polite(es, a) && a <= b
    ensures Polite(es, b)
  {
    if es != [] { PoliteMore(es[..|es| - 1], a, b); }
  }

  // And six is exactly how much slack the marks leave.
  lemma SlackIsSix(slack: nat)
    ensures slack <= 6 <==> forall es | Polite(es, slack) :: Run(es).lost == 0
  {
    if slack <= 6 {
      forall es | Polite(es, slack) ensures Run(es).lost == 0 {
        NothingLost(es, slack);
      }
    } else {
      var e := Irq(2, 0, 65);
      BurstRun(e, 17);
      PoliteMore(Burst(e, 17), 7, slack);
    }
  }

  // ----- first in, first out ---------------------------------------------------------

  // The characters of a history that arrived without an error.
  function Sent(es: seq<Event>): seq<Byte> {
    if es == [] then []
    else Sent(es[..|es| - 1]) + (if ErrorFree(es[|es| - 1]) then [es[|es| - 1].ch] else [])
  }

  // Those of them that found room, in order.
  function Accepted(es: seq<Event>): seq<Byte> {
    if es == [] then []
    else
      var e, s := es[|es| - 1], Run(es[..|es| - 1]);
      Accepted(es[..|es| - 1]) + (if ErrorFree(e) && |s.queue| < RX_BUFFER_SIZE then [e.ch] else [])
  }

  // What has been read followed by what is buffered is what was accepted; the
  // rest of what was sent is what is counted as lost.
  lemma {:induction false} InOrder(es: seq<Event>)
    ensures Run(es).out + Run(es).queue == Accepted(es)
    ensures |Sent(es)| == |Accepted(es)| + Run(es).lost
    ensures Run(es).lost == 0 ==> Accepted(es) == Sent(es)
  {
    if es != [] {
      var s := Run(es[..|es| - 1]);
      InOrder(es[..|es| - 1]);
      if es[|es| - 1].Take? && s.ready && s.queue != [] {
        assert s.queue == [s.queue[0]] + s.queue[1..];
        assert s.out + s.queue == s.out + [s.queue[0]] + s.queue[1..];
      }
    }
  }

  // With a polite sender the reader gets every error-free character, in order.
  lemma NothingMissing(es: seq<Event>)
    requires Polite(es, 6)
    ensures Run(es).out + Run(es).queue == Sent(es)
  {
    NothingLost(es, 6);
    InOrder(es);
  }

  // ----- the ring in memory ------------------------------------------------------------

  // The slot i places behind r.
  function Slot(r: nat, i: nat): nat { (r + i) % RX_BUFFER_SIZE }

  lemma SlotNext(r: nat, i: nat, next: nat)
    requires r < RX_BUFFER_SIZE && next == (if r + 1 >= RX_BUFFER_SIZE then 0 else r + 1)
    ensures Slot(next, i) == Slot(r, i + 1)
  {
  }

  lemma SlotBehind(r: nat, n: nat, next: nat)
    requires next == (if Slot(r, n) + 1 >= RX_BUFFER_SIZE then 0 else Slot(r, n) + 1)
    ensures next == Slot(r, n + 1)
  {
  }

  lemma SlotsApart(r: nat, i: nat, n: nat)
    requires i < n < RX_BUFFER_SIZE
    ensures Slot(r, i) != Slot(r, n)
  {
    assert (r + n) - (r + i) == n - i;
  }

  class Channel {
    const rxBuff: array<Byte>
    var rxInsert: nat
    var rxRemove: nat
    var rxCount: nat
    var rtsAsserted: bool
    // The RTS output and the error led, as last driven.
    var rtsOutput: bool
    var errorLed: bool

    // History: where the reader is, what it has got, what was dropped.
    ghost var state: State

    // The ring holds the queue, oldest character at rxRemove.
    ghost predicate Holds(queue: seq<Byte>)
      reads this, rxBuff
    {
      && rxBuff.Length == RX_BUFFER_SIZE
      && rxRemove < RX_BUFFER_SIZE && rxCount <= RX_BUFFER_SIZE
      && rxInsert == Slot(rxRemove, rxCount)
      && |queue| == rxCount
      && (forall i | 0 <= i < rxCount :: queue[i] == rxBuff[Slot(rxRemove, i)])
    }

    ghost predicate Valid()
      reads this, rxBuff
    {
      && Holds(state.queue)
      && state.rts == rtsAsserted == rtsOutput
    }

    // init_duart_channel, as far as the ring is concerned.
    constructor ()
      ensures Valid() && fresh(rxBuff) && state == INITIAL
    {
      rxBuff := new Byte[RX_BUFFER_SIZE];
      rtsOutput := true;
      rtsAsserted := true;
      rxInsert := 0;
      rxRemove := 0;
      rxCount := 0;
      errorLed := false;
      state := INITIAL;
    }

    method Push(ch: Byte)
      requires Holds(state.queue) && rxCount < RX_BUFFER_SIZE
      modifies rxBuff, this`rxInsert, this`rxCount
      ensures Holds(state.queue + [ch]) && rxCount == old(rxCount) + 1
    {
      rxBuff[rxInsert] := ch;
      rxInsert := rxInsert + 1;
      if rxInsert >= RX_BUFFER_SIZE {
        rxInsert := 0;
      }
      rxCount := rxCount + 1;
      SlotBehind(rxRemove, rxCount - 1, rxInsert);
      ghost var queue := state.queue + [ch];
      forall i | 0 <= i < rxCount ensures queue[i] == rxBuff[Slot(rxRemove, i)] {
        if i < rxCount - 1 {
          SlotsApart(rxRemove, i, rxCount - 1);
        }
      }
    }

    // handle_channel_irq
    method HandleIrq(isr: Byte, status: Byte, ch: Byte)
      requires Valid()
      modifies this, rxBuff
      ensures Valid() && state == Step(old(state), Irq(isr, status, ch))
      ensures errorLed == (old(errorLed) || (RxReady(isr) && (HasError(status) || old(rxCount) == RX_BUFFER_SIZE)))
    {
      if RxReady(isr) {
        if HasError(status) {
          errorLed := true;
        } else if rxCount >= RX_BUFFER_SIZE {
          errorLed := true;
        } else {
          Push(ch);
          if rxCount == HIGH_WATER_MARK && rtsAsserted {
            rtsOutput := false;
            rtsAsserted := false;
          }
        }
      }
      state := Step(state, Irq(isr, status, ch));
    }

    // The test of the waiting loop.
    method PollCount() returns (go: bool)
      requires Valid()
      modifies this`state
      ensures Valid() && state == Step(old(state), Poll)
      ensures go <==> state.queue != []
    {
      go := rxCount != 0;
      state := Step(state, Poll);
    }

    method Pop() returns (ch: Byte)
      requires Holds(state.queue) && rxCount > 0
      modifies this`rxRemove, this`rxCount
      ensures Holds(state.queue[1..]) && rxCount == old(rxCount) - 1 && ch == state.queue[0]
    {
      ch := rxBuff[rxRemove];
      rxRemove := rxRemove + 1;
      if rxRemove >= RX_BUFFER_SIZE {
        rxRemove := 0;
      }
      rxCount := rxCount - 1;
      SlotNext(old(rxRemove), rxCount, rxRemove);
      forall i | 0 <= i < rxCount ensures state.queue[1..][i] == rxBuff[Slot(rxRemove, i)] {
        SlotNext(old(rxRemove), i, rxRemove);
      }
    }

    // The locked section of buffered_rx_char.
    method TakeLocked() returns (ch: Byte)
      requires Valid() && state.ready && Inv(state)
      modifies this
      ensures Valid() && state == Step(old(state), Take)
      ensures ch == old(state).queue[0] && state.out == old(state).out + [ch]
    {
      ch := Pop();
      if rxCount == LOW_WATER_MARK && !rtsAsserted {
        rtsOutput := true;
        rtsAsserted := true;
      }
      state := Step(state, Take);
    }

    method Available() returns (n: nat)
      requires Valid()
      ensures n == |state.queue|
    {
      n := rxCount;
    }
  }

  // duart_irq_handler: channel B's bits are the high half of the status register.
  method HandleDuartIrq(isr: Byte, a: Channel, b: Channel, statusA: Byte, chA: Byte, statusB: Byte, chB: Byte)
    requires a.Valid() && b.Valid() && a != b && a.rxBuff != b.rxBuff
    modifies a, b, a.rxBuff, b.rxBuff
    ensures a.Valid() && a.state == Step(old(a.state), Irq(isr, statusA, chA))
    ensures b.Valid() && b.state == Step(old(b.state), Irq(isr / 16, statusB, chB))
  {
    a.HandleIrq(isr, statusA, chA);
    b.HandleIrq(isr / 16, statusB, chB);
  }

  // Any history of interrupts and reads, run on a channel in memory.
  method Replay(es: seq<Event>) returns (c: Channel)
    ensures c.Valid() && c.state == Run(es)
  {
    c := new Channel();
    var ready := false;
    for i := 0 to |es|
      invariant c.Valid() && fresh(c) && fresh(c.rxBuff) && ready == c.state.ready
      invariant c.state == Run(es[..i])
    {
      assert es[..i + 1][..i] == es[..i];
      FlowControl(es[..i]);
      match es[i]
      case Irq(isr, status, ch) => c.HandleIrq(isr, status, ch);
      case Poll =>
        var go := c.PollCount();
        ready := ready || go;
      case Take =>
        if ready {
          var ch := c.TakeLocked();
          ready := false;
        }
    }
    assert es[..|es|] == es;
  }
}
