// The ROM checksum of src/micromon/patch_sum.py: a 32-bit sum with end-around
// carry, and the longword that makes it come out as all ones.
module RomSum {
  const ONES: int := 0xffff_ffff

  type Word = w: nat | w <= ONES

  function Sum(ws: seq<Word>): nat {
    if ws == [] then 0 else Sum(ws[..|ws| - 1]) + (ws[|ws| - 1] as int)
  }

  // One addition: the carry out of the top comes in at the bottom.
  function AddCarry(s: Word, w: Word): (r: Word) {
    var t: int := s as int + w as int;
    t % 0x1_0000_0000 + t / 0x1_0000_0000
  }

  function OnesSum(ws: seq<Word>): Word {
    if ws == [] then 0 else AddCarry(OnesSum(ws[..|ws| - 1]), ws[|ws| - 1])
  }

  // ones_sum: the accumulator never needs more than 32 bits.
  method Accumulate(ws: seq<Word>) returns (s: nat)
    ensures s == OnesSum(ws)
  {
    s := 0;
    for i := 0 to |ws|
      invariant s == OnesSum(ws[..i])
    {
      assert ws[..i + 1][..i] == ws[..i];
      s := s + ws[i];
      s := s % 0x1_0000_0000 + s / 0x1_0000_0000;
    }
    assert ws[..|ws|] == ws;
  }

  lemma CarryIsModular(s: Word, w: Word)
    ensures var r: int, t: int := AddCarry(s, w), s as int + w as int;
            (r == t || r == t - ONES) && (r == 0 <==> t == 0)
  {
  }

  // The end-around sum is the plain sum less a multiple of 2^32 - 1, and zero
  // only when that is.
  lemma {:induction false} SumIsModular(ws: seq<Word>) returns (k: nat)
    ensures Sum(ws) == OnesSum(ws) + k * 0xffff_ffff
    ensures OnesSum(ws) == 0 <==> Sum(ws) == 0
  {
    if ws == [] {
      k := 0;
    } else {
      var j := SumIsModular(ws[..|ws| - 1]);
      var s: Word, w: Word := OnesSum(ws[..|ws| - 1]), ws[|ws| - 1];
      CarryIsModular(s, w);
      k := if AddCarry(s, w) as int == s as int + w as int then j else j + 1;
    }
  }

  // Two words that differ by a multiple of 2^32 - 1.
  lemma Residues(a: int, b: int, k: int)
    requires 0 <= a <= ONES && 0 <= b <= ONES && a - b == k * ONES
    ensures a == b || (a == 0 && b == ONES) || (a == ONES && b == 0)
  {
  }

  lemma {:induction false} SumUpdate(ws: seq<Word>, i: nat, w: Word)
    requires i < |ws|
    ensures Sum(ws[i := w]) == Sum(ws) - (ws[i] as int) + (w as int)
  {
    var n := |ws| - 1;
    if i == n {
      assert ws[i := w][..n] == ws[..n];
    } else {
      assert ws[i := w][..n] == ws[..n][i := w];
      SumUpdate(ws[..n], i, w);
    }
  }

  // The patched image: zero in the slot, sum it up, store the complement.
  function Patched(rom: seq<Word>, slot: nat): seq<Word>
    requires slot < |rom|
  {
    rom[slot := ONES - OnesSum(rom[slot := 0])]
  }

  // Whatever the image, the patched one sums up to all ones.
  lemma PatchedSum(rom: seq<Word>, slot: nat)
    requires slot < |rom|
    ensures OnesSum(Patched(rom, slot)) == 0xffff_ffff
  {
    var zeroed := rom[slot := 0];
    var s: int := OnesSum(zeroed);
    var patched := Patched(rom, slot);
    assert patched == zeroed[slot := ONES - OnesSum(zeroed)];
    SumUpdate(zeroed, slot, ONES - OnesSum(zeroed));
    var k := SumIsModular(zeroed);
    var j := SumIsModular(patched);
    assert Sum(patched) == (k + 1) * ONES;
    assert OnesSum(patched) as int - 0 == (k + 1 - j) * ONES;
    Residues(OnesSum(patched), 0, k + 1 - j);
  }

  // Nothing but the slot is written.
  lemma PatchedElsewhere(rom: seq<Word>, slot: nat)
    requires slot < |rom|
    ensures |Patched(rom, slot)| == |rom|
    ensures forall i | 0 <= i < |rom| && i != slot :: Patched(rom, slot)[i] == rom[i]
  {
  }

  // Changing one longword of an image that sums up to all ones goes unnoticed
  // exactly when nothing changes, zero becomes all ones, or all ones becomes
  // zero with some other longword not zero.
  lemma Detects(rom: seq<Word>, i: nat, w: Word)
    requires i < |rom| && OnesSum(rom) == ONES
    ensures OnesSum(rom[i := w]) == ONES <==>
            w == rom[i] || (rom[i] == 0 && w == ONES) || (rom[i] == ONES && w == 0 && Sum(rom) != ONES)
  {
    var was: int, now: int := rom[i], w;
    var changed := rom[i := w];
    SumUpdate(rom, i, w);
    var k := SumIsModular(rom);
    var j := SumIsModular(changed);
    // changed sum - all ones == now - was + (k - j) * ONES
    var r: int := OnesSum(changed);
    assert r - ONES == now - was + (k - j) * ONES by {
      assert Sum(changed) == Sum(rom) - was + now;
      assert (k - j) * ONES == k * ONES - j * ONES;
    }
    if r == ONES {
      assert was - now == (k - j) * ONES;
      Residues(was, now, k - j);
    } else if now == was || (was == 0 && now == ONES) || (was == ONES && now == 0) {
      var d: int := if now == was then 0 else if was == 0 then 1 else -1;
      assert now - was == d * ONES;
      assert (d + k - j) * ONES == d * ONES + (k - j) * ONES;
      assert r - ONES == (d + k - j) * ONES;
      Residues(r, ONES, d + k - j);
    }
  }

  // And what is written is the only longword with which the image sums up to all
  // ones, but for the two representations of zero in that arithmetic.
  lemma PatchedAlone(rom: seq<Word>, slot: nat, w: Word)
    requires slot < |rom|
    ensures OnesSum(rom[slot := w]) == ONES ==>
              w == Patched(rom, slot)[slot] || {w, Patched(rom, slot)[slot]} == {0, ONES}
  {
    PatchedSum(rom, slot);
    var patched := Patched(rom, slot);
    assert patched[slot := w] == rom[slot := w];
    Detects(patched, slot, w);
  }

  // The slot cleared, and then written so that the image sums up.
  method Store(rom: array<Word>, slot: nat) returns (csum: Word)
    requires slot < rom.Length
    modifies rom
    ensures rom[..] == Patched(old(rom[..]), slot) && csum == rom[slot]
  {
    ghost var zeroed := rom[..][slot := 0];
    rom[slot] := 0;
    assert rom[..] == zeroed;
    var s := Accumulate(rom[..]);
    csum := ONES - s;
    rom[slot] := csum;
    assert rom[..] == zeroed[slot := csum];
  }

  // The script's work on the image in memory.
  method Patch(rom: array<Word>, slot: nat) returns (csum: Word)
    requires slot < rom.Length
    modifies rom
    ensures rom[..] == Patched(old(rom[..]), slot) && csum == rom[slot]
    ensures OnesSum(rom[..]) == 0xffff_ffff
    ensures forall i | 0 <= i < rom.Length && i != slot :: rom[i] == old(rom[i])
  {
    ghost var was := rom[..];
    PatchedSum(was, slot);
    PatchedElsewhere(was, slot);
    csum := Store(rom, slot);
    assert forall i | 0 <= i < rom.Length :: rom[i] == Patched(was, slot)[i];
  }
}
