// The kernel heap of src/micromon/heap.c: a first-fit allocator over two doubly
// linked lists whose headers sit in front of the payloads they describe.
module Heap {
  import opened HeapBlocks
  import opened HeapLists

  const EPERM: nat := 1
  const ENOMEM: nat := 12
  const RAM_LIMIT: nat := 0x1_0000_0000

  // Every header outside the allocated list carries owner 0: free blocks,
  // and what merges have left behind.
  ghost predicate OwnersCleared(mem: Memory, alloc: seq<Block>) {
    forall a | a in mem && a != NULL && Unlisted(alloc, a) :: mem[a].owner == 0
  }

  ghost predicate Unowned(free: seq<Block>) {
    forall i | 0 <= i < |free| :: free[i].owner == 0
  }

  function SetNext(mem: Memory, a: nat, v: nat): Memory
    requires a in mem
  {
    mem[a := mem[a].(next := v)]
  }

  function SetPrev(mem: Memory, a: nat, v: nat): Memory
    requires a in mem
  {
    mem[a := mem[a].(prev := v)]
  }

  // Memory after two neighbours have been aimed at each other.
  ghost function Unhooked(mem: Memory, p: nat, n: nat): Memory
    requires (p != NULL ==> p in mem) && (n != NULL ==> n in mem)
  {
    var m := if p == NULL then mem else SetNext(mem, p, n);
    if n == NULL then m else SetPrev(m, n, p)
  }

  // Memory once bios_malloc has tagged the item and, if it is big enough, cut a
  // surplus item off it.
  ghost function Cut(mem: Memory, a: nat, n: nat, pid: nat, repaired: bool): Memory
    requires a in mem && n <= mem[a].payload && (mem[a].next != NULL ==> mem[a].next in mem)
  {
    var m := mem[a := mem[a].(owner := pid)];
    if mem[a].payload < n + HEADER + SMALLEST_PAYLOAD then m
    else
      var s, next := a + n + HEADER, mem[a].next;
      var m1 := m[s := Item(ITEM_SIG, mem[a].payload - n - HEADER, 0, next, a)];
      var m2 := m1[a := m1[a].(payload := n, next := s)];
      if repaired && next != NULL then SetPrev(m2, next, s) else m2
  }

  ghost predicate Carvable(mem: Memory, free: seq<Block>, k: nat) {
    && Chain(mem, StartAt(free, 0), free) && k < |free|
    && free[k].start in mem && (mem[free[k].start].prev != NULL ==> mem[free[k].start].prev in mem)
  }

  // And once it has then been unlinked from the free list, wherever its back
  // link leads.
  ghost function Carved(mem: Memory, free: seq<Block>, k: nat, n: nat, pid: nat, repaired: bool): Memory
    requires Carvable(mem, free, k) && n <= free[k].size
  {
    assert Cell(mem, free, k);
    assert k + 1 < |free| ==> Cell(mem, free, k + 1);
    var a := free[k].start;
    var m := Cut(mem, a, n, pid, repaired);
    Unhooked(m, mem[a].prev, m[a].next)
  }

  // Memory once an item has been pushed on the allocated list.
  ghost function Pushed(mem: Memory, item: nat, head: nat, guarded: bool): Memory
    requires item in mem && head in mem && item != head
  {
    var m := mem[item := mem[item].(prev := NULL, next := head)];
    if guarded && head == NULL then m else SetPrev(m, head, item)
  }

  ghost predicate MoveReady(mem: Memory, free: seq<Block>, k: nat, n: nat, pid: nat, head: nat) {
    Carvable(mem, free, k) && n <= free[k].size && head in mem && head != free[k].start
  }

  lemma CarvedGrows(m0: Memory, free: seq<Block>, k: nat, n: nat, pid: nat, repaired: bool)
    requires Carvable(m0, free, k) && n <= free[k].size
    ensures m0.Keys <= Carved(m0, free, k, n, pid, repaired).Keys
  {
    assert Cell(m0, free, k);
    assert k + 1 < |free| ==> Cell(m0, free, k + 1);
  }

  // Memory once a free block has been carved and put on the allocated list,
  ghost function Moved(mem: Memory, free: seq<Block>, k: nat, n: nat, pid: nat, head: nat, repaired: bool): Memory
    requires MoveReady(mem, free, k, n, pid, head)
  {
    CarvedGrows(mem, free, k, n, pid, repaired);
    Pushed(Carved(mem, free, k, n, pid, repaired), free[k].start, head, repaired)
  }

  // and the head the free list is left with.
  ghost function HeadLeft(mem: Memory, free: seq<Block>, k: nat, n: nat, head: nat): nat
    requires Carvable(mem, free, k)
  {
    if mem[free[k].start].prev == NULL then StartAt(TakeFrom(free, k, n), k) else head
  }

  // ----- runs and searches --------------------------------------------------------

  lemma {:induction false} SafePart(s: Lists, ops: seq<Op>, i: nat, repaired: bool)
    requires s.Fit() && i <= |ops| && SafeRun(s, ops, repaired)
    ensures SafeRun(s, ops[..i], repaired)
  {
    if i < |ops| {
      SafePart(s, ops[..|ops| - 1], i, repaired);
      assert ops[..|ops| - 1][..i] == ops[..i];
    } else {
      assert ops[..i] == ops;
    }
  }

  lemma SafePrefix(s: Lists, ops: seq<Op>, i: nat, repaired: bool)
    requires s.Fit() && i < |ops| && SafeRun(s, ops, repaired)
    ensures Safe(Run(s, ops[..i], repaired), ops[i])
    ensures Run(s, ops[..i + 1], repaired) == Step(Run(s, ops[..i], repaired), ops[i], repaired)
  {
    assert ops[..i + 1][..i] == ops[..i];
    SafePart(s, ops, i + 1, repaired);
  }

  lemma FreeStep(s: Lists, ptr: nat, pid: nat, repaired: bool)
    requires s.Fit()
    ensures var k := Find(s.alloc, ptr - HEADER);
            Step(s, Op.Free(ptr, pid), repaired) == if k < |s.alloc| && s.alloc[k].owner == pid then Freed(s, k) else s
  {
  }

  lemma CleanMine(s: Lists, pid: nat, k: nat)
    requires s.Fit() && k < |s.alloc| && s.alloc[k].owner == pid
    ensures Clean(s, pid, k) == Clean(Freed(s, k), pid, k)
    ensures |Freed(s, k).alloc| == |s.alloc| - 1 && StartAt(Freed(s, k).alloc, k) == StartAt(s.alloc, k + 1)
  {
  }

  lemma FindIs(bs: seq<Block>, k: nat)
    requires Separated(bs) && k < |bs|
    ensures Find(bs, bs[k].start) == k
  {
    var j := Find(bs, bs[k].start);
    assert j < k ==> Apart(bs[j], bs[k]);
  }

  // ----- freeing, on memory --------------------------------------------------------

  // Memory once an allocated item has been unlinked and cleared.
  ghost function Dropped(mem: Memory, alloc: seq<Block>, k: nat): Memory
    requires Linked(mem, StartAt(alloc, 0), alloc) && k < |alloc|
  {
    var b, p, n := alloc[k], StartAt(alloc, k - 1), StartAt(alloc, k + 1);
    assert k > 0 ==> Cell(mem, alloc, k - 1);
    assert k + 1 < |alloc| ==> Cell(mem, alloc, k + 1);
    Unhooked(mem, p, n)[b.start := Item(ITEM_SIG, b.size, 0, NULL, NULL)]
  }

  lemma DroppedLinks(mem: Memory, alloc: seq<Block>, k: nat)
    requires Linked(mem, StartAt(alloc, 0), alloc) && k < |alloc| && Separated(alloc)
    ensures var a := alloc[k].start;
            && a != NULL && a in mem && mem[a].signature == ITEM_SIG && mem[a].payload == alloc[k].size
            && mem[a].prev == StartAt(alloc, k - 1) && mem[a].next == StartAt(alloc, k + 1)
            && (mem[a].prev != NULL ==> mem[a].prev in mem) && (mem[a].prev == NULL <==> k == 0)
            && (mem[a].next != NULL ==> mem[a].next in mem && mem[mem[a].next].signature == ITEM_SIG)
            && Unhooked(mem, mem[a].prev, mem[a].next).Keys == mem.Keys
            && Unhooked(mem, mem[a].prev, mem[a].next)[a] == mem[a]
  {
    assert Cell(mem, alloc, k) && Back(mem, alloc, k);
    assert k > 0 ==> Cell(mem, alloc, k - 1) && Apart(alloc[k - 1], alloc[k]);
    assert k + 1 < |alloc| ==> Cell(mem, alloc, k + 1) && Apart(alloc[k], alloc[k + 1]);
  }

  lemma RestApart(free: seq<Block>, alloc: seq<Block>, k: nat)
    requires Disjoint(free, alloc) && k < |alloc|
    ensures var b, rest := alloc[k].(owner := 0), Without(alloc, k);
            Disjoint(free, rest) && AllApart(rest, b) && AllApart(free, b)
  {
    var b, rest := alloc[k].(owner := 0), Without(alloc, k);
    assert AllApart(free, alloc[k]);
    assert forall i | 0 <= i < |rest| :: rest[i] == alloc[if i < k then i else i + 1];
  }

  ghost predicate Aimable(mem: Memory, bs: seq<Block>, r: Slot)
    requires r.from <= r.upto <= |bs|
  {
    && (StartAt(bs, r.from - 1) != NULL ==> StartAt(bs, r.from - 1) in mem)
    && (StartAt(bs, r.upto) != NULL ==> StartAt(bs, r.upto) in mem)
    && (Grows(bs, r) ==> r.block.start in mem)
  }

  ghost predicate SettleReady(mem: Memory, free: seq<Block>, alloc: seq<Block>, k: nat) {
    && Linked(mem, StartAt(alloc, 0), alloc) && k < |alloc|
    && Aimable(Dropped(mem, alloc, k), free, SlotFor(free, alloc[k].(owner := 0)))
  }

  // Memory with r.block's header written and its neighbours aimed at it; a
  // block that grows keeps its back link, and one that grows over the item
  // alone leaves the next one's alone too.
  ghost function Aimed(mem: Memory, bs: seq<Block>, r: Slot): Memory
    requires r.from <= r.upto <= |bs| && Aimable(mem, bs, r)
  {
    var a, p, n := r.block.start, StartAt(bs, r.from - 1), StartAt(bs, r.upto);
    if Grows(bs, r) then
      var m1 := mem[a := Item(ITEM_SIG, r.block.size, r.block.owner, n, mem[a].prev)];
      if r.upto == r.from + 1 || n == NULL then m1 else SetPrev(m1, n, a)
    else
      var m1 := mem[a := Item(ITEM_SIG, r.block.size, r.block.owner, n, p)];
      var m2 := if p == NULL then m1 else SetNext(m1, p, a);
      if n == NULL then m2 else SetPrev(m2, n, a)
  }

  // Memory once an allocated item has been unlinked and put on the free list.
  ghost function Settled(mem: Memory, free: seq<Block>, alloc: seq<Block>, k: nat): Memory
    requires SettleReady(mem, free, alloc, k)
  {
    Aimed(Dropped(mem, alloc, k), free, SlotFor(free, alloc[k].(owner := 0)))
  }

  lemma DroppedFar(mem: Memory, alloc: seq<Block>, k: nat, x: nat)
    requires Linked(mem, StartAt(alloc, 0), alloc) && k < |alloc| && Separated(alloc)
    requires x in mem && x != alloc[k].start
    requires x == NULL || (x != StartAt(alloc, k - 1) && x != StartAt(alloc, k + 1))
    ensures Same(mem, Dropped(mem, alloc, k), x)
  {
    assert k > 0 ==> Cell(mem, alloc, k - 1);
    assert k + 1 < |alloc| ==> Cell(mem, alloc, k + 1);
  }

  lemma DroppedAlloc(mem: Memory, alloc: seq<Block>, k: nat)
    requires Linked(mem, StartAt(alloc, 0), alloc) && k < |alloc| && Separated(alloc)
    ensures Linked(Dropped(mem, alloc, k), StartAt(Without(alloc, k), 0), Without(alloc, k))
  {
    var m := Dropped(mem, alloc, k);
    assert k > 0 ==> Cell(mem, alloc, k - 1) && Apart(alloc[k - 1], alloc[k]);
    assert k + 1 < |alloc| ==> Cell(mem, alloc, k + 1) && Apart(alloc[k], alloc[k + 1]);
    forall i | 0 <= i < |alloc| && (i < k - 1 || k + 1 < i)
      ensures Same(mem, m, alloc[i].start)
    {
      assert Cell(mem, alloc, i);
      assert i < k - 1 ==> Apart(alloc[i], alloc[k - 1]) && Apart(alloc[i], alloc[k]);
      assert i < k - 1 && k + 1 < |alloc| ==> Apart(alloc[i], alloc[k + 1]);
      assert k + 1 < i ==> Apart(alloc[k + 1], alloc[i]) && Apart(alloc[k], alloc[i]);
      assert k + 1 < i && k > 0 ==> Apart(alloc[k - 1], alloc[i]);
      DroppedFar(mem, alloc, k, alloc[i].start);
    }
    assert k > 0 && k + 1 < |alloc| ==> Apart(alloc[k - 1], alloc[k + 1]);
    RemovedList(mem, m, StartAt(alloc, 0), alloc, k);
  }

  lemma DroppedApart(mem: Memory, free: seq<Block>, alloc: seq<Block>, k: nat, i: nat)
    requires Linked(mem, StartAt(alloc, 0), alloc) && Disjoint(free, alloc) && k < |alloc|
    requires i < |free| && free[i].start in mem && free[i].start != NULL
    ensures Same(mem, Dropped(mem, alloc, k), free[i].start)
  {
    assert AllApart(free, alloc[k]) && Apart(free[i], alloc[k]);
    assert k > 0 ==> AllApart(free, alloc[k - 1]) && Apart(free[i], alloc[k - 1]);
    assert k + 1 < |alloc| ==> AllApart(free, alloc[k + 1]) && Apart(free[i], alloc[k + 1]);
    DroppedFar(mem, alloc, k, free[i].start);
  }

  lemma UnlistedWithout(bs: seq<Block>, k: nat, x: nat)
    requires k < |bs| && Unlisted(Without(bs, k), x) && x != bs[k].start
    ensures Unlisted(bs, x)
  {
    forall i | 0 <= i < |bs| ensures bs[i].start != x {
      if i != k { assert bs[i] == Without(bs, k)[if i < k then i else i - 1]; }
    }
  }

  lemma DroppedOwners(mem: Memory, alloc: seq<Block>, k: nat)
    requires Linked(mem, StartAt(alloc, 0), alloc) && k < |alloc| && Separated(alloc) && OwnersCleared(mem, alloc)
    ensures OwnersCleared(Dropped(mem, alloc, k), Without(alloc, k))
  {
    var m := Dropped(mem, alloc, k);
    DroppedLinks(mem, alloc, k);
    forall x | x in m && x != NULL && Unlisted(Without(alloc, k), x)
      ensures m[x].owner == 0
    {
      if x != alloc[k].start {
        UnlistedWithout(alloc, k, x);
      }
    }
  }

  // Detaching the item leaves the free list and low memory alone, and every
  // owner field but the item's.
  lemma DroppedRest(mem: Memory, free: seq<Block>, alloc: seq<Block>, prevs: seq<nat>, k: nat)
    requires Chain(mem, StartAt(free, 0), free) && LinksAre(mem, free, prevs) && Linked(mem, StartAt(alloc, 0), alloc)
    requires Disjoint(free, alloc) && k < |alloc| && NULL in mem && OwnersCleared(mem, alloc)
    ensures var m := Dropped(mem, alloc, k);
            && Chain(m, StartAt(free, 0), free) && LinksAre(m, free, prevs)
            && NULL in m && m[NULL] == mem[NULL]
            && OwnersCleared(m, Without(alloc, k))
  {
    var m := Dropped(mem, alloc, k);
    DroppedLinks(mem, alloc, k);
    forall i | 0 <= i < |free|
      ensures Same(mem, m, free[i].start)
    {
      assert Cell(mem, free, i);
      DroppedApart(mem, free, alloc, k, i);
    }
    SameList(mem, m, StartAt(free, 0), free, prevs);
    DroppedFar(mem, alloc, k, NULL);
    DroppedOwners(mem, alloc, k);
  }

  // A slot's block starts where the item or the block it swallows does,
  lemma SlotStart(bs: seq<Block>, b: Block)
    ensures var r := SlotFor(bs, b);
            && (r.block.start == b.start || (r.from < r.upto && r.block.start == bs[r.from].start))
            && (r.block.owner == b.owner || (r.from < r.upto && r.block.owner == bs[r.from].owner))
  {
  }

  // and strictly between the blocks it is put between.
  lemma SlotBetween(bs: seq<Block>, b: Block)
    requires Ordered(bs) && AllApart(bs, b)
    ensures var r := SlotFor(bs, b);
            && (forall i | 0 <= i < r.from :: bs[i].start < r.block.start)
            && (forall i | r.upto <= i < |bs| :: r.block.start < bs[i].start)
  {
    ReleaseOrdered(bs, b);
    var r := SlotFor(bs, b);
    var cs := Release(bs, b);
    assert cs[r.from] == r.block;
    forall i | 0 <= i < r.from ensures bs[i].start < r.block.start {
      assert cs[i] == bs[i] && cs[i].End() <= cs[r.from].start;
    }
    forall i | r.upto <= i < |bs| ensures r.block.start < bs[i].start {
      assert cs[r.from + 1 + i - r.upto] == bs[i] && cs[r.from].End() <= cs[r.from + 1 + i - r.upto].start;
    }
  }

  lemma AimedFar(mem: Memory, bs: seq<Block>, r: Slot, x: nat)
    requires r.from <= r.upto <= |bs| && Aimable(mem, bs, r)
    requires x in mem && x != r.block.start
    requires x == NULL || (x != StartAt(bs, r.from - 1) && x != StartAt(bs, r.upto))
    ensures Same(mem, Aimed(mem, bs, r), x)
  {
  }

  lemma AimedEdited(mem: Memory, bs: seq<Block>, r: Slot)
    requires Chain(mem, StartAt(bs, 0), bs) && Ordered(bs)
    requires r.from <= r.upto <= |bs| && Aimable(mem, bs, r) && r.block.start != NULL
    requires forall i | 0 <= i < r.from :: bs[i].start < r.block.start
    requires forall i | r.upto <= i < |bs| :: r.block.start < bs[i].start
    ensures Edited(mem, Aimed(mem, bs, r), bs, r)
  {
    var m := Aimed(mem, bs, r);
    assert r.from > 0 ==> Cell(mem, bs, r.from - 1);
    assert r.upto < |bs| ==> Cell(mem, bs, r.upto);
    forall i | 0 <= i < |bs| && (i < r.from - 1 || r.upto < i)
      ensures Same(mem, m, bs[i].start)
    {
      assert Cell(mem, bs, i);
      AimedFar(mem, bs, r, bs[i].start);
    }
  }

  lemma AimedRelinked(mem: Memory, bs: seq<Block>, r: Slot, prevs: seq<nat>)
    requires Chain(mem, StartAt(bs, 0), bs) && LinksAre(mem, bs, prevs) && NULL in mem
    requires r.from <= r.upto <= |bs| && Aimable(mem, bs, r) && r.block.start != NULL
    requires forall i | 0 <= i < r.from :: bs[i].start < r.block.start
    requires forall i | r.upto <= i < |bs| :: r.block.start < bs[i].start
    ensures Relinked(Aimed(mem, bs, r), bs, r, ReleaseHere(bs, r, prevs), ReleaseBehind(bs, r, prevs))
    ensures mem.Keys <= Aimed(mem, bs, r).Keys
  {
    assert r.from > 0 ==> Cell(mem, bs, r.from - 1);
    assert r.from < |bs| ==> LinkIs(mem, bs, prevs, r.from);
    assert r.upto < |bs| ==> Cell(mem, bs, r.upto) && LinkIs(mem, bs, prevs, r.upto);
  }

  lemma SlotAimable(mem: Memory, bs: seq<Block>, b: Block)
    requires Chain(mem, StartAt(bs, 0), bs)
    ensures Aimable(mem, bs, SlotFor(bs, b))
  {
    var r := SlotFor(bs, b);
    assert r.from < |bs| ==> Cell(mem, bs, r.from);
    assert r.from > 0 ==> Cell(mem, bs, r.from - 1);
    assert r.upto < |bs| ==> Cell(mem, bs, r.upto);
  }

  lemma AimedFree(mem: Memory, free: seq<Block>, prevs: seq<nat>, b: Block)
    requires Chain(mem, StartAt(free, 0), free) && LinksAre(mem, free, prevs) && NULL in mem
    requires Ordered(free) && AllApart(free, b) && b.start != NULL
    ensures Aimable(mem, free, SlotFor(free, b))
    ensures var m := Aimed(mem, free, SlotFor(free, b));
            && Chain(m, StartAt(Release(free, b), 0), Release(free, b))
            && LinksAre(m, Release(free, b), ReleasePrevs(free, b, prevs))
  {
    var r := SlotFor(free, b);
    SlotAimable(mem, free, b);
    SlotStart(free, b);
    SlotBetween(free, b);
    assert r.from < |free| ==> Cell(mem, free, r.from);
    AimedEdited(mem, free, r);
    AimedRelinked(mem, free, r, prevs);
    var m := Aimed(mem, free, r);
    EditedList(mem, m, StartAt(free, 0), free, r);
    EditedLinks(mem, m, free, r, prevs, ReleaseHere(free, r, prevs), ReleaseBehind(free, r, prevs));
  }

  // Putting the item on the free list leaves everything else alone.
  lemma AimedElsewhere(mem: Memory, free: seq<Block>, b: Block, a: Block)
    requires Chain(mem, StartAt(free, 0), free)
    requires AllApart(free, a) && Apart(b, a) && a.start in mem
    ensures Aimable(mem, free, SlotFor(free, b))
    ensures Same(mem, Aimed(mem, free, SlotFor(free, b)), a.start)
  {
    var r := SlotFor(free, b);
    SlotAimable(mem, free, b);
    SlotStart(free, b);
    if r.from > 0 { assert Apart(free[r.from - 1], a); }
    if r.upto < |free| { assert Apart(free[r.upto], a); }
    if r.from < r.upto { assert Apart(free[r.from], a); }
    if a.start != NULL || r.block.start != NULL {
      AimedFar(mem, free, r, a.start);
    }
  }

  lemma AimedAlloc(mem: Memory, free: seq<Block>, alloc: seq<Block>, b: Block)
    requires Chain(mem, StartAt(free, 0), free) && Linked(mem, StartAt(alloc, 0), alloc)
    requires Disjoint(free, alloc) && AllApart(alloc, b)
    ensures Aimable(mem, free, SlotFor(free, b))
    ensures Linked(Aimed(mem, free, SlotFor(free, b)), StartAt(alloc, 0), alloc)
  {
    SlotAimable(mem, free, b);
    var m := Aimed(mem, free, SlotFor(free, b));
    forall i | 0 <= i < |alloc|
      ensures Same(mem, m, alloc[i].start)
    {
      assert Cell(mem, alloc, i) && Apart(alloc[i], b) && AllApart(free, alloc[i]);
      AimedElsewhere(mem, free, b, alloc[i]);
    }
    SameList(mem, m, StartAt(alloc, 0), alloc, []);
  }

  lemma AimedOwner(mem: Memory, bs: seq<Block>, r: Slot, x: nat)
    requires r.from <= r.upto <= |bs| && Aimable(mem, bs, r)
    requires x in Aimed(mem, bs, r) && r.block.owner == 0
    ensures Aimed(mem, bs, r)[x].owner == 0 || (x in mem && Aimed(mem, bs, r)[x].owner == mem[x].owner)
  {
  }

  lemma AimedOwners(mem: Memory, free: seq<Block>, alloc: seq<Block>, b: Block)
    requires Chain(mem, StartAt(free, 0), free) && Unowned(free)
    requires b.start != NULL && b.owner == 0
    requires NULL in mem && OwnersCleared(mem, alloc)
    ensures Aimable(mem, free, SlotFor(free, b))
    ensures var m := Aimed(mem, free, SlotFor(free, b));
            && NULL in m && m[NULL] == mem[NULL]
            && OwnersCleared(m, alloc)
    ensures Unowned(Release(free, b))
  {
    var r := SlotFor(free, b);
    SlotAimable(mem, free, b);
    SlotStart(free, b);
    assert r.from < |free| ==> Cell(mem, free, r.from);
    AimedFar(mem, free, r, NULL);
    var m := Aimed(mem, free, r);
    forall x | x in m && x != NULL && Unlisted(alloc, x)
      ensures m[x].owner == 0
    {
      AimedOwner(mem, free, r, x);
    }
  }

  lemma FreedLists(m0: Memory, free: seq<Block>, alloc: seq<Block>, prevs: seq<nat>, k: nat)
    requires Chain(m0, StartAt(free, 0), free) && LinksAre(m0, free, prevs) && Linked(m0, StartAt(alloc, 0), alloc)
    requires Disjoint(free, alloc) && k < |alloc| && NULL in m0 && OwnersCleared(m0, alloc) && Unowned(free)
    ensures Chain(Dropped(m0, alloc, k), StartAt(free, 0), free) && SettleReady(m0, free, alloc, k)
    ensures var b, rest, m := alloc[k].(owner := 0), Without(alloc, k), Settled(m0, free, alloc, k);
            && Chain(m, StartAt(Release(free, b), 0), Release(free, b))
            && LinksAre(m, Release(free, b), ReleasePrevs(free, b, prevs))
            && Linked(m, StartAt(rest, 0), rest)
            && NULL in m && m[NULL] == m0[NULL]
            && OwnersCleared(m, rest)
            && Unowned(Release(free, b))
  {
    var b, rest := alloc[k].(owner := 0), Without(alloc, k);
    var m1 := Dropped(m0, alloc, k);
    DroppedLinks(m0, alloc, k);
    DroppedRest(m0, free, alloc, prevs, k);
    DroppedAlloc(m0, alloc, k);
    RestApart(free, alloc, k);
    AimedFree(m1, free, prevs, b);
    AimedAlloc(m1, free, rest, b);
    AimedOwners(m1, free, rest, b);
  }

  // ----- what free_item sees -------------------------------------------------------

  lemma ApartUnlisted(bs: seq<Block>, b: Block)
    requires AllApart(bs, b)
    ensures Unlisted(bs, b.start)
  {
  }

  // The slot of `b` when k free blocks lie below it; and how the list's head and
  // length come out.
  ghost predicate SlotAt(bs: seq<Block>, b: Block, k: nat)
    requires k <= |bs|
  {
    var r := SlotFor(bs, b);
    && r == (if 0 < k < |bs| && Touches(bs[k - 1], b) then
               var c := Join(bs[k - 1], b);
               if Touches(c, bs[k]) then Slot(k - 1, k + 1, Join(c, bs[k])) else Slot(k - 1, k, c)
             else if k < |bs| && Touches(b, bs[k]) then Slot(k, k + 1, Join(b, bs[k]))
             else Slot(k, k, b))
    && StartAt(Release(bs, b), 0) == (if k == 0 then b.start else bs[0].start)
    && |Release(bs, b)| == |bs| + 1 - (r.upto - r.from)
  }

  lemma BelowIs(bs: seq<Block>, a: nat, k: nat)
    requires Ordered(bs) && k <= |bs|
    requires k > 0 ==> bs[k - 1].start < a
    requires k < |bs| ==> a < bs[k].start
    ensures Below(bs, a) == k
  {
  }

  lemma ReleaseShape(bs: seq<Block>, b: Block, k: nat)
    requires k == Below(bs, b.start)
    ensures StartAt(Release(bs, b), 0) == if k == 0 then b.start else bs[0].start
    ensures var r := SlotFor(bs, b); |Release(bs, b)| == |bs| + 1 - (r.upto - r.from)
  {
  }

  lemma SlotIs(bs: seq<Block>, b: Block, k: nat)
    requires Ordered(bs) && k <= |bs|
    requires k > 0 ==> bs[k - 1].start < b.start
    requires k < |bs| ==> b.start < bs[k].start
    ensures SlotAt(bs, b, k)
  {
    BelowIs(bs, b.start, k);
    ReleaseShape(bs, b, k);
  }

  // The cell at index k is in order, and so is its distance to the one before.
  ghost predicate Good(mem: Memory, bs: seq<Block>, k: nat) {
    k < |bs| ==>
      && Cell(mem, bs, k)
      && (k > 0 ==> bs[k - 1].start != NULL && bs[k - 1].End() <= bs[k].start)
  }

  // What free_item sees around index k.
  ghost predicate Window(mem: Memory, bs: seq<Block>, k: nat) {
    && (k > 0 ==> Good(mem, bs, k - 1))
    && Good(mem, bs, k) && Good(mem, bs, k + 1) && Good(mem, bs, k + 2)
  }

  lemma Look(mem: Memory, bs: seq<Block>, k: nat)
    requires Chain(mem, StartAt(bs, 0), bs) && Ordered(bs)
    ensures Window(mem, bs, k)
  {
    assert k > 0 && k - 1 < |bs| ==> Cell(mem, bs, k - 1);
    assert k > 1 && k - 2 < |bs| ==> Cell(mem, bs, k - 2);
    assert k < |bs| ==> Cell(mem, bs, k);
    assert k + 1 < |bs| ==> Cell(mem, bs, k + 1);
    assert k + 2 < |bs| ==> Cell(mem, bs, k + 2);
  }

  // What the edits need to know about the place behind k free blocks.
  lemma Survey(mem: Memory, bs: seq<Block>, b: Block, k: nat)
    requires Chain(mem, StartAt(bs, 0), bs) && Ordered(bs) && AllApart(bs, b) && k <= |bs|
    ensures Window(mem, bs, if k == 0 then 0 else k - 1) && Aimable(mem, bs, SlotFor(bs, b))
    ensures (k > 0 ==> bs[k - 1].start < b.start) && (k < |bs| ==> b.start < bs[k].start) ==> SlotAt(bs, b, k)
    ensures bs != [] ==> bs[0].start != NULL && bs[0].start != b.start
  {
    Look(mem, bs, if k == 0 then 0 else k - 1);
    SlotAimable(mem, bs, b);
    ApartUnlisted(bs, b);
    assert bs != [] ==> Cell(mem, bs, 0);
    if (k > 0 ==> bs[k - 1].start < b.start) && (k < |bs| ==> b.start < bs[k].start) {
      SlotIs(bs, b, k);
    }
  }

  // ----- allocating, on memory ------------------------------------------------------

  lemma NoneBigger(lo: int, hi: int, free: seq<Block>, alloc: seq<Block>, n: nat)
    requires Partition(lo, hi, free, alloc) && n > hi - lo - HEADER
    ensures FirstFit(free, n) == |free|
  {
    var k := FirstFit(free, n);
    if k < |free| {
      BlockBounds(lo, hi, free, alloc, k);
    }
  }

  // What is found in the item before it is cut,
  lemma ItemLinks(mem: Memory, free: seq<Block>, k: nat)
    requires Carvable(mem, free, k) && Ordered(free)
    ensures var a := free[k].start;
            && mem[a].payload == free[k].size
            && mem[a].next == StartAt(free, k + 1)
            && (mem[a].next != NULL ==>
                  mem[a].next in mem && mem[mem[a].next].signature == ITEM_SIG && free[k].End() <= mem[a].next)
  {
    assert Cell(mem, free, k);
    assert k + 1 < |free| ==> Cell(mem, free, k + 1) && free[k].End() <= free[k + 1].start;
  }

  // and what the unlinking finds in it afterwards.
  lemma CutLinks(mem: Memory, free: seq<Block>, k: nat, n: nat, pid: nat, repaired: bool)
    requires Carvable(mem, free, k) && Ordered(free) && n <= free[k].size
    ensures var a := free[k].start;
            && mem[a].payload == free[k].size
            && mem[a].next == StartAt(free, k + 1)
            && (mem[a].next != NULL ==> mem[a].next in mem)
            && var m := Cut(mem, a, n, pid, repaired);
            && m[a].prev == mem[a].prev
            && m[a].next == StartAt(TakeFrom(free, k, n), k)
            && (m[a].prev != NULL ==> m[a].prev in m)
            && (m[a].next != NULL ==> m[a].next in m && m[m[a].next].signature == ITEM_SIG)
  {
    ItemLinks(mem, free, k);
  }

  lemma TakenUnowned(free: seq<Block>, k: nat, n: nat)
    requires Unowned(free) && k < |free|
    ensures Unowned(TakeFrom(free, k, n))
  {
  }

  lemma TakeReady(mem: Memory, free: seq<Block>, alloc: seq<Block>, prevs: seq<nat>, k: nat)
    requires Chain(mem, StartAt(free, 0), free) && LinksAre(mem, free, prevs) && k < |free|
    requires Linked(mem, StartAt(alloc, 0), alloc) && NULL in mem && Disjoint(free, alloc)
    ensures Carvable(mem, free, k) && mem[free[k].start].prev == prevs[k]
    ensures Back(mem, free, k) <==> Right(free, prevs, k)
    ensures free[k].start != NULL && StartAt(alloc, 0) in mem && StartAt(alloc, 0) != free[k].start
  {
    assert Cell(mem, free, k) && LinkIs(mem, free, prevs, k);
    assert alloc != [] ==> Cell(mem, alloc, 0) && AllApart(free, alloc[0]) && Apart(free[k], alloc[0]);
  }

  // The five or fewer headers that carving can write.
  ghost predicate Near(free: seq<Block>, k: nat, n: nat, x: nat)
    requires k < |free|
  {
    x == free[k].start
    || (x != NULL && (x == StartAt(free, k - 1) || x == StartAt(free, k + 1)))
    || (Splits(free[k], n) && x == free[k].start + n + HEADER)
  }

  lemma CarvedFar(m0: Memory, free: seq<Block>, k: nat, n: nat, pid: nat, repaired: bool, x: nat)
    requires Carvable(m0, free, k) && Back(m0, free, k) && n <= free[k].size
    requires x in m0 && !Near(free, k, n, x)
    ensures Same(m0, Carved(m0, free, k, n, pid, repaired), x)
  {
    assert Cell(m0, free, k) && Back(m0, free, k);
    assert k + 1 < |free| ==> Cell(m0, free, k + 1);
    assert k > 0 ==> Cell(m0, free, k - 1);
  }

  lemma CarvedNear(m0: Memory, free: seq<Block>, k: nat, n: nat, pid: nat, repaired: bool)
    requires Carvable(m0, free, k) && Back(m0, free, k) && n <= free[k].size
    requires Ordered(free)
    ensures var m1 := Carved(m0, free, k, n, pid, repaired);
            && free[k].start in m1
            && m1[free[k].start].signature == ITEM_SIG
            && m1[free[k].start].payload == Taken(free[k], n, pid).size
            && m1[free[k].start].owner == pid
  {
    assert Cell(m0, free, k) && Back(m0, free, k);
    assert k > 0 ==> free[k - 1].End() <= free[k].start;
    assert k + 1 < |free| ==> free[k].End() <= free[k + 1].start;
  }

  lemma FarFromOthers(free: seq<Block>, k: nat, n: nat, i: nat)
    requires Ordered(free) && k < |free| && i < |free| && (i < k - 1 || k + 1 < i)
    requires k > 0 ==> free[k - 1].start != NULL
    requires k + 1 < |free| ==> free[k + 1].start != NULL
    requires free[i].start != NULL
    ensures !Near(free, k, n, free[i].start)
  {
    if i < k - 1 {
      assert free[i].End() <= free[k - 1].start && free[k - 1].End() <= free[k].start;
    } else {
      assert free[k].End() <= free[k + 1].start && free[k + 1].End() <= free[i].start;
    }
  }

  lemma CarvedOthers(m0: Memory, free: seq<Block>, k: nat, n: nat, pid: nat, repaired: bool, i: nat)
    requires Carvable(m0, free, k) && Back(m0, free, k) && n <= free[k].size
    requires Ordered(free) && i < |free| && (i < k - 1 || k + 1 < i)
    ensures Same(m0, Carved(m0, free, k, n, pid, repaired), free[i].start)
  {
    assert Cell(m0, free, i);
    assert k > 0 ==> Cell(m0, free, k - 1);
    assert k + 1 < |free| ==> Cell(m0, free, k + 1);
    FarFromOthers(free, k, n, i);
    CarvedFar(m0, free, k, n, pid, repaired, free[i].start);
  }

  lemma CarvedRest(m0: Memory, free: seq<Block>, k: nat, n: nat, pid: nat, repaired: bool)
    requires Carvable(m0, free, k) && Back(m0, free, k) && n <= free[k].size
    requires Ordered(free)
    ensures var m1 := Carved(m0, free, k, n, pid, repaired);
            forall i | 0 <= i < |free| && (i < k - 1 || k + 1 < i) :: Same(m0, m1, free[i].start)
  {
    forall i | 0 <= i < |free| && (i < k - 1 || k + 1 < i)
      ensures Same(m0, Carved(m0, free, k, n, pid, repaired), free[i].start)
    {
      CarvedOthers(m0, free, k, n, pid, repaired, i);
    }
  }

  // The surplus item, and its neighbours aimed at it.
  lemma SplitLocal(m0: Memory, free: seq<Block>, k: nat, n: nat, pid: nat, repaired: bool)
    requires Carvable(m0, free, k) && Back(m0, free, k) && Splits(free[k], n)
    requires Ordered(free)
    ensures var m1, s := Carved(m0, free, k, n, pid, repaired), Surplus(free[k], n);
            var p, q := StartAt(free, k - 1), StartAt(free, k + 1);
            && s.start != NULL && s.start in m1
            && m1[s.start] == Item(ITEM_SIG, s.size, s.owner, q, m1[s.start].prev)
            && (p != NULL ==> p in m0 && p in m1 && m1[p] == m0[p].(next := s.start))
            && (q != NULL ==> Kept(m0, m1, q))
  {
    assert Cell(m0, free, k) && Back(m0, free, k);
    assert k > 0 ==> Cell(m0, free, k - 1) && free[k - 1].End() <= free[k].start;
    assert k + 1 < |free| ==> Cell(m0, free, k + 1) && free[k].End() <= free[k + 1].start;
  }

  lemma SplitEdit(m0: Memory, free: seq<Block>, k: nat, n: nat, pid: nat, repaired: bool)
    requires Carvable(m0, free, k) && Back(m0, free, k) && Splits(free[k], n)
    requires Ordered(free)
    ensures Edited(m0, Carved(m0, free, k, n, pid, repaired), free, Slot(k, k + 1, Surplus(free[k], n)))
  {
    SplitLocal(m0, free, k, n, pid, repaired);
    CarvedRest(m0, free, k, n, pid, repaired);
  }

  lemma WholeEdit(m0: Memory, free: seq<Block>, k: nat, n: nat, pid: nat, repaired: bool)
    requires Carvable(m0, free, k) && Back(m0, free, k) && n <= free[k].size && !Splits(free[k], n)
    requires Ordered(free)
    ensures Removed(m0, Carved(m0, free, k, n, pid, repaired), free, k)
  {
    assert Cell(m0, free, k) && Back(m0, free, k);
    assert k > 0 ==> Cell(m0, free, k - 1) && free[k - 1].End() <= free[k].start;
    assert k + 1 < |free| ==> Cell(m0, free, k + 1) && free[k].End() <= free[k + 1].start;
    CarvedRest(m0, free, k, n, pid, repaired);
  }

  lemma SplitRelinked(m0: Memory, free: seq<Block>, prevs: seq<nat>, k: nat, n: nat, pid: nat, repaired: bool)
    requires Carvable(m0, free, k) && Back(m0, free, k) && Splits(free[k], n)
    requires Ordered(free) && LinksAre(m0, free, prevs) && NULL in m0
    ensures Relinked(Carved(m0, free, k, n, pid, repaired), free, Slot(k, k + 1, Surplus(free[k], n)),
                     StartAt(free, k - 1), SplitBehind(free, k, n, prevs, repaired))
  {
    assert Cell(m0, free, k) && Back(m0, free, k);
    assert k > 0 ==> Cell(m0, free, k - 1) && free[k - 1].End() <= free[k].start;
    assert k + 1 < |free| ==> Cell(m0, free, k + 1) && LinkIs(m0, free, prevs, k + 1);
    assert k + 1 < |free| ==> free[k].End() <= free[k + 1].start;
  }

  // The free list after carving, with its back links.
  lemma CarvedFree(m0: Memory, free: seq<Block>, prevs: seq<nat>, k: nat, n: nat, pid: nat, repaired: bool)
    requires Carvable(m0, free, k) && Back(m0, free, k) && n <= free[k].size
    requires Ordered(free) && LinksAre(m0, free, prevs) && NULL in m0
    ensures var m1 := Carved(m0, free, k, n, pid, repaired);
            var rest := TakeFrom(free, k, n);
            && Chain(m1, StartAt(rest, 0), rest)
            && LinksAre(m1, rest, TakePrevs(free, k, n, prevs, repaired))
  {
    var m1 := Carved(m0, free, k, n, pid, repaired);
    CarvedGrows(m0, free, k, n, pid, repaired);
    if Splits(free[k], n) {
      SplitEdit(m0, free, k, n, pid, repaired);
      var r := Slot(k, k + 1, Surplus(free[k], n));
      SplitIsPut(free, k, n);
      SplitRelinked(m0, free, prevs, k, n, pid, repaired);
      EditedList(m0, m1, StartAt(free, 0), free, r);
      EditedLinks(m0, m1, free, r, prevs, StartAt(free, k - 1), SplitBehind(free, k, n, prevs, repaired));
    } else {
      WholeEdit(m0, free, k, n, pid, repaired);
      RemovedList(m0, m1, StartAt(free, 0), free, k);
      RemovedLinks(m0, m1, free, k, prevs);
    }
  }

  lemma AllocFar(free: seq<Block>, k: nat, n: nat, a: Block)
    requires k < |free| && AllApart(free, a) && a.start != NULL
    requires n <= free[k].size
    ensures !Near(free, k, n, a.start)
  {
    assert Apart(free[k], a);
    assert k > 0 ==> Apart(free[k - 1], a);
    assert k + 1 < |free| ==> Apart(free[k + 1], a);
  }

  lemma CarvedAlloc(m0: Memory, free: seq<Block>, alloc: seq<Block>, k: nat, n: nat, pid: nat, repaired: bool)
    requires Carvable(m0, free, k) && Back(m0, free, k) && Linked(m0, StartAt(alloc, 0), alloc)
    requires Disjoint(free, alloc) && n <= free[k].size
    ensures var m1 := Carved(m0, free, k, n, pid, repaired);
            Linked(m1, StartAt(alloc, 0), alloc)
  {
    var m1 := Carved(m0, free, k, n, pid, repaired);
    forall j | 0 <= j < |alloc|
      ensures Same(m0, m1, alloc[j].start)
    {
      assert Cell(m0, alloc, j) && AllApart(free, alloc[j]);
      AllocFar(free, k, n, alloc[j]);
      CarvedFar(m0, free, k, n, pid, repaired, alloc[j].start);
    }
    SameList(m0, m1, StartAt(alloc, 0), alloc, []);
  }

  lemma PushedFree(m1: Memory, t: Block, rest: seq<Block>, prevs: seq<nat>, alloc: seq<Block>, repaired: bool)
    requires Chain(m1, StartAt(rest, 0), rest) && LinksAre(m1, rest, prevs)
    requires AllApart(rest, t) && (alloc != [] ==> AllApart(rest, alloc[0]))
    requires t.start in m1 && StartAt(alloc, 0) in m1 && StartAt(alloc, 0) != t.start
    ensures var m2 := Pushed(m1, t.start, StartAt(alloc, 0), repaired);
            Chain(m2, StartAt(rest, 0), rest) && LinksAre(m2, rest, prevs)
  {
    var m2 := Pushed(m1, t.start, StartAt(alloc, 0), repaired);
    forall i | 0 <= i < |rest|
      ensures Same(m1, m2, rest[i].start)
    {
      assert Cell(m1, rest, i) && Apart(rest[i], t);
      assert alloc != [] ==> Apart(rest[i], alloc[0]);
    }
    SameList(m1, m2, StartAt(rest, 0), rest, prevs);
  }

  lemma PushedAlloc(m1: Memory, t: Block, alloc: seq<Block>, repaired: bool)
    requires Linked(m1, StartAt(alloc, 0), alloc) && Separated([t] + alloc)
    requires NULL in m1 && t.start != NULL && t.start in m1
    requires m1[t.start].signature == ITEM_SIG && m1[t.start].payload == t.size && m1[t.start].owner == t.owner
    requires StartAt(alloc, 0) in m1 && StartAt(alloc, 0) != t.start
    ensures Linked(Pushed(m1, t.start, StartAt(alloc, 0), repaired), t.start, [t] + alloc)
  {
    var m2 := Pushed(m1, t.start, StartAt(alloc, 0), repaired);
    var all := [t] + alloc;
    assert alloc != [] ==> Cell(m1, alloc, 0) && all[1] == alloc[0];
    forall i | 0 < i < |alloc|
      ensures Same(m1, m2, alloc[i].start)
    {
      assert Cell(m1, alloc, i);
      assert Apart(all[0], all[i + 1]) && Apart(all[1], all[i + 1]);
    }
    PushedList(m1, m2, StartAt(alloc, 0), alloc, t);
  }

  lemma PushedLists(m1: Memory, t: Block, rest: seq<Block>, prevs: seq<nat>, alloc: seq<Block>, repaired: bool)
    requires Chain(m1, StartAt(rest, 0), rest) && LinksAre(m1, rest, prevs) && Linked(m1, StartAt(alloc, 0), alloc)
    requires Disjoint(rest, [t] + alloc)
    requires NULL in m1 && t.start != NULL && t.start in m1
    requires m1[t.start].signature == ITEM_SIG && m1[t.start].payload == t.size && m1[t.start].owner == t.owner
    requires StartAt(alloc, 0) in m1 && StartAt(alloc, 0) != t.start
    ensures var m2 := Pushed(m1, t.start, StartAt(alloc, 0), repaired);
            && Chain(m2, StartAt(rest, 0), rest) && LinksAre(m2, rest, prevs)
            && Linked(m2, t.start, [t] + alloc)
            && m2[NULL] == (if repaired || alloc != [] then m1[NULL] else m1[NULL].(prev := t.start))
            && m2.Keys == m1.Keys
            && (forall x | x in m1 :: m2[x].owner == m1[x].owner)
  {
    var all := [t] + alloc;
    assert AllApart(rest, all[0]);
    assert alloc != [] ==> Cell(m1, alloc, 0) && all[1] == alloc[0] && AllApart(rest, all[1]);
    PushedFree(m1, t, rest, prevs, alloc, repaired);
    PushedAlloc(m1, t, alloc, repaired);
  }

  lemma CarvedOwner(m0: Memory, free: seq<Block>, k: nat, n: nat, pid: nat, repaired: bool, x: nat)
    requires Carvable(m0, free, k) && Back(m0, free, k) && n <= free[k].size
    requires Ordered(free) && x != free[k].start
    requires x in Carved(m0, free, k, n, pid, repaired)
    ensures var owner := Carved(m0, free, k, n, pid, repaired)[x].owner;
            owner == 0 || (x in m0 && owner == m0[x].owner)
  {
    assert Cell(m0, free, k) && Back(m0, free, k);
    assert k + 1 < |free| ==> Cell(m0, free, k + 1) && free[k].End() <= free[k + 1].start;
    assert k > 0 ==> Cell(m0, free, k - 1) && free[k - 1].End() <= free[k].start;
  }

  lemma UnlistedBehind(b: Block, bs: seq<Block>, x: nat)
    requires Unlisted([b] + bs, x)
    ensures b.start != x && Unlisted(bs, x)
  {
    assert ([b] + bs)[0] == b;
    assert forall i | 0 <= i < |bs| :: bs[i] == ([b] + bs)[i + 1];
  }

  lemma CarvedUnlisted(m0: Memory, free: seq<Block>, alloc: seq<Block>, k: nat, n: nat, pid: nat, repaired: bool,
                       x: nat)
    requires Carvable(m0, free, k) && Back(m0, free, k) && n <= free[k].size
    requires Ordered(free) && OwnersCleared(m0, alloc)
    requires x in Carved(m0, free, k, n, pid, repaired) && x != NULL
    requires x != free[k].start && Unlisted(alloc, x)
    ensures Carved(m0, free, k, n, pid, repaired)[x].owner == 0
  {
    CarvedOwner(m0, free, k, n, pid, repaired, x);
  }

  lemma CarvedOwners(m0: Memory, free: seq<Block>, alloc: seq<Block>, k: nat, n: nat, pid: nat, repaired: bool)
    requires Carvable(m0, free, k) && Back(m0, free, k) && n <= free[k].size
    requires Ordered(free) && OwnersCleared(m0, alloc)
    ensures OwnersCleared(Carved(m0, free, k, n, pid, repaired), [Taken(free[k], n, pid)] + alloc)
  {
    var m1, t := Carved(m0, free, k, n, pid, repaired), Taken(free[k], n, pid);
    forall x | x in m1 && x != NULL && Unlisted([t] + alloc, x)
      ensures m1[x].owner == 0
    {
      UnlistedBehind(t, alloc, x);
      CarvedUnlisted(m0, free, alloc, k, n, pid, repaired, x);
    }
  }

  // The whole found branch of bios_malloc, on memory, for a block whose back
  // link is right.
  lemma TakenLists(m0: Memory, free: seq<Block>, alloc: seq<Block>, prevs: seq<nat>, k: nat, n: nat, pid: nat,
                   repaired: bool)
    requires MoveReady(m0, free, k, n, pid, StartAt(alloc, 0))
    requires LinksAre(m0, free, prevs) && Linked(m0, StartAt(alloc, 0), alloc)
    requires Disjoint(free, alloc) && Back(m0, free, k)
    requires NULL in m0 && OwnersCleared(m0, alloc)
    ensures var t, rest := Taken(free[k], n, pid), TakeFrom(free, k, n);
            var m := Moved(m0, free, k, n, pid, StartAt(alloc, 0), repaired);
            && NULL in m
            && Chain(m, StartAt(rest, 0), rest)
            && LinksAre(m, rest, TakePrevs(free, k, n, prevs, repaired))
            && Linked(m, t.start, [t] + alloc)
            && OwnersCleared(m, [t] + alloc)
            && m[NULL] == (if repaired || alloc != [] then m0[NULL] else m0[NULL].(prev := t.start))
    ensures HeadLeft(m0, free, k, n, StartAt(free, 0)) == StartAt(TakeFrom(free, k, n), 0)
  {
    var m1 := Carved(m0, free, k, n, pid, repaired);
    var t, rest := Taken(free[k], n, pid), TakeFrom(free, k, n);
    CarvedFree(m0, free, prevs, k, n, pid, repaired);
    CarvedAlloc(m0, free, alloc, k, n, pid, repaired);
    CarvedNear(m0, free, k, n, pid, repaired);
    CarvedOwners(m0, free, alloc, k, n, pid, repaired);
    assert Cell(m0, free, k);
    assert k > 0 ==> Cell(m0, free, k - 1);
    CarvedFar(m0, free, k, n, pid, repaired, NULL);
    assert alloc != [] ==> Cell(m1, alloc, 0) && AllApart(free, alloc[0]) && Apart(free[k], alloc[0]);
    TakeDisjoint(free, alloc, k, n, pid);
    PushedLists(m1, t, rest, TakePrevs(free, k, n, prevs, repaired), alloc, repaired);
  }

  // A wrong back link: what leads to the block is not aimed past it,
  lemma CarvedLost(m0: Memory, free: seq<Block>, k: nat, n: nat, pid: nat, repaired: bool)
    requires Carvable(m0, free, k) && Ordered(free) && n <= free[k].size
    requires k > 0 && m0[free[k].start].prev != free[k - 1].start
    ensures var p, m1 := free[k - 1].start, Carved(m0, free, k, n, pid, repaired);
            p in m1 && p != free[k].start && m1[p].next == free[k].start
  {
    assert Cell(m0, free, k) && Cell(m0, free, k - 1) && free[k - 1].End() <= free[k].start;
    assert k + 1 < |free| ==> Cell(m0, free, k + 1) && free[k].End() <= free[k + 1].start;
  }

  lemma TakenStart(free: seq<Block>, k: nat, n: nat)
    requires Ordered(free) && k < |free| && n <= free[k].size && free[k].start != NULL
    ensures var rest := TakeFrom(free, k, n);
            |rest| >= k && rest[..k] == free[..k] && StartAt(rest, k) != free[k].start
  {
    assert k + 1 < |free| ==> free[k].End() <= free[k + 1].start;
  }

  // and the free list is not what it ought to be.
  lemma TakenLost(m0: Memory, free: seq<Block>, alloc: seq<Block>, prevs: seq<nat>, k: nat, n: nat, pid: nat,
                  repaired: bool)
    requires MoveReady(m0, free, k, n, pid, StartAt(alloc, 0))
    requires LinksAre(m0, free, prevs) && Linked(m0, StartAt(alloc, 0), alloc)
    requires Disjoint(free, alloc) && !Right(free, prevs, k)
    ensures !Chain(Moved(m0, free, k, n, pid, StartAt(alloc, 0), repaired),
                   HeadLeft(m0, free, k, n, StartAt(free, 0)), TakeFrom(free, k, n))
  {
    var rest := TakeFrom(free, k, n);
    var m2 := Moved(m0, free, k, n, pid, StartAt(alloc, 0), repaired);
    assert Cell(m0, free, k) && LinkIs(m0, free, prevs, k);
    TakenStart(free, k, n);
    if k > 0 {
      CarvedLost(m0, free, k, n, pid, repaired);
      assert Cell(m0, free, k - 1);
      assert alloc != [] ==> AllApart(free, alloc[0]) && Apart(free[k - 1], alloc[0]);
      assert m2[free[k - 1].start].next == free[k].start;
      assert rest[k - 1] == rest[..k][k - 1] == free[k - 1];
      assert !Cell(m2, rest, k - 1);
    }
  }

  // Both lists are in memory as they ought to be, but for the back links of the
  // free one, and cut the heap into pieces.
  ghost predicate InOrder(lo: nat, hi: nat, mem: Memory, freeItems: nat, allocatedItems: nat, s: Lists) {
    && NULL in mem
    && Chain(mem, freeItems, s.free)
    && LinksAre(mem, s.free, s.prevs)
    && Linked(mem, allocatedItems, s.alloc)
    && Partition(lo, hi, s.free, s.alloc)
    && Unowned(s.free)
    && OwnersCleared(mem, s.alloc)
  }

  lemma TakenOrder(lo: nat, hi: nat, m0: Memory, s: Lists, k: nat, n: nat, pid: nat, repaired: bool)
    requires InOrder(lo, hi, m0, StartAt(s.free, 0), StartAt(s.alloc, 0), s)
    requires k < |s.free| && n <= s.free[k].size
    ensures MoveReady(m0, s.free, k, n, pid, StartAt(s.alloc, 0))
    ensures InOrder(lo, hi, Moved(m0, s.free, k, n, pid, StartAt(s.alloc, 0), repaired),
                    HeadLeft(m0, s.free, k, n, StartAt(s.free, 0)), s.free[k].start, TakeAt(s, k, n, pid, repaired))
       <==> Right(s.free, s.prevs, k)
    ensures var m := Moved(m0, s.free, k, n, pid, StartAt(s.alloc, 0), repaired);
            Right(s.free, s.prevs, k) ==>
              NULL in m
              && m[NULL] == if repaired || s.alloc != [] then m0[NULL] else m0[NULL].(prev := s.free[k].start)
  {
    TakeReady(m0, s.free, s.alloc, s.prevs, k);
    if Right(s.free, s.prevs, k) {
      TakenLists(m0, s.free, s.alloc, s.prevs, k, n, pid, repaired);
      TakePartition(lo, hi, s.free, s.alloc, k, n, pid);
      TakenUnowned(s.free, k, n);
    } else {
      TakenLost(m0, s.free, s.alloc, s.prevs, k, n, pid, repaired);
    }
  }

  lemma FreedOrder(lo: nat, hi: nat, m0: Memory, s: Lists, k: nat)
    requires InOrder(lo, hi, m0, StartAt(s.free, 0), StartAt(s.alloc, 0), s) && k < |s.alloc|
    ensures SettleReady(m0, s.free, s.alloc, k) && AllApart(s.free, s.alloc[k].(owner := 0))
    ensures Chain(Dropped(m0, s.alloc, k), StartAt(s.free, 0), s.free)
    ensures var m, t := Settled(m0, s.free, s.alloc, k), Freed(s, k);
            InOrder(lo, hi, m, StartAt(t.free, 0), StartAt(t.alloc, 0), t) && m[NULL] == m0[NULL]
  {
    FreedLists(m0, s.free, s.alloc, s.prevs, k);
    RestApart(s.free, s.alloc, k);
    ReleasePartition(lo, hi, s.free, s.alloc, k);
  }

  // ----- the allocator --------------------------------------------------------------

  class Allocator {
    // False is the source; true adds the two things it lacks.
    const repaired: bool
    const heapStart: nat
    const ramEnd: nat

    var mem: Memory
    var freeItems: nat
    var allocatedItems: nat
    var biggestPayload: nat
    var numFreeItems: int
    var numAllocatedItems: int
    var errno: nat

    // The two lists, as blocks, and the back links of the free ones.
    ghost var free: seq<Block>
    ghost var prevs: seq<nat>
    ghost var alloc: seq<Block>

    ghost function State(): (s: Lists)
      reads this
    {
      Lists(free, prevs, alloc)
    }

    // Everything the heap promises except that the back links of the free list
    // are right.
    ghost predicate Sound()
      reads this
    {
      && 32 <= heapStart && heapStart + HEADER <= ramEnd < RAM_LIMIT
      && InOrder(heapStart, ramEnd, mem, freeItems, allocatedItems, State())
      && biggestPayload == ramEnd - heapStart - HEADER
      && numFreeItems == |free|
      && numAllocatedItems == |alloc|
    }

    ghost predicate Valid()
      reads this
    {
      Sound() && AllRight(free, prevs)
    }

    // The statics as the program starts, then init_heap.
    constructor (heapStart: nat, ramEnd: nat, lowMemory: Item, repaired: bool)
      requires 32 <= heapStart && heapStart + HEADER <= ramEnd < RAM_LIMIT
      ensures Valid()
      ensures this.repaired == repaired && this.heapStart == heapStart && this.ramEnd == ramEnd
      ensures State() == Initial(heapStart, ramEnd)
      ensures heapStart in mem && mem[heapStart] == Item(0xfac3b00b, ramEnd - heapStart - 20, 0, 0, 0)
    {
      this.repaired := repaired;
      this.heapStart := heapStart;
      this.ramEnd := ramEnd;
      var payload := ramEnd - heapStart - HEADER;
      mem := map[NULL := lowMemory, heapStart := Item(ITEM_SIG, payload, 0, NULL, NULL)];
      freeItems := heapStart;
      allocatedItems := NULL;
      biggestPayload := payload;
      numFreeItems := 1;
      numAllocatedItems := 0;
      errno := 0;
      free := [Block(heapStart, payload, 0)];
      prevs := [NULL];
      alloc := [];
      new;
      SingleCover(free[0]);
    }

    predicate IsValidItem(item: nat)
      reads this
    {
      item != NULL && item in mem && mem[item].signature == ITEM_SIG
    }

    // remove_from_list, with the list head passed in and out.
    method RemoveFromList(item: nat, head: nat) returns (newHead: nat)
      requires item in mem
      requires mem[item].prev != NULL ==> mem[item].prev in mem
      requires mem[item].next != NULL ==> mem[item].next in mem && mem[mem[item].next].signature == ITEM_SIG
      modifies this`mem
      ensures newHead == if old(mem)[item].prev == NULL then old(mem)[item].next else head
      ensures mem == Unhooked(old(mem), old(mem)[item].prev, old(mem)[item].next)
    {
      var prev := mem[item].prev;
      var next := mem[item].next;
      newHead := head;
      if prev == NULL {
        newHead := next;
        if next != NULL {
          mem := SetPrev(mem, next, NULL);
        }
      } else {
        mem := SetNext(mem, prev, next);
        if IsValidItem(next) {
          mem := SetPrev(mem, next, prev);
        }
      }
    }

    // insert_in_allocated. The source stores through the old head without
    // testing it; with an empty list that store lands in low memory.
    method InsertInAllocated(item: nat, ghost b: Block)
      requires item in mem && allocatedItems in mem && allocatedItems != item
      modifies this`mem, this`allocatedItems, this`numAllocatedItems, this`alloc
      ensures mem == Pushed(old(mem), item, old(allocatedItems), repaired)
      ensures allocatedItems == item && alloc == [b] + old(alloc)
      ensures numAllocatedItems == old(numAllocatedItems) + 1
    {
      mem := SetPrev(mem, item, NULL);
      mem := SetNext(mem, item, allocatedItems);
      if !(repaired && allocatedItems == NULL) {
        mem := SetPrev(mem, allocatedItems, item);
      }
      allocatedItems := item;
      numAllocatedItems := numAllocatedItems + 1;
      alloc := [b] + alloc;
    }

    // Tag a big enough item and split it when the rest is worth keeping.
    method CutItem(item: nat, nbytes: nat, pid: nat)
      requires item in mem && nbytes <= mem[item].payload
      requires mem[item].next != NULL ==> mem[item].next in mem
      modifies this`mem, this`numFreeItems
      ensures mem == Cut(old(mem), item, nbytes, pid, repaired)
      ensures numFreeItems
           == old(numFreeItems) + if old(mem)[item].payload < nbytes + HEADER + SMALLEST_PAYLOAD then 0 else 1
    {
      mem := mem[item := mem[item].(owner := pid)];
      if mem[item].payload >= nbytes + HEADER + SMALLEST_PAYLOAD {
        var surplus := item + nbytes + HEADER;
        var next := mem[item].next;
        mem := mem[surplus := Item(ITEM_SIG, mem[item].payload - nbytes - HEADER, 0, next, item)];
        mem := mem[item := mem[item].(payload := nbytes, next := surplus)];
        if repaired && next != NULL {
          mem := SetPrev(mem, next, surplus);
        }
        numFreeItems := numFreeItems + 1;
      }
    }

    // Cut the item and take it off the free list.
    method Carve(item: nat, nbytes: nat, pid: nat, ghost k: nat)
      requires Carvable(mem, free, k) && Ordered(free) && numFreeItems == |free|
      requires item == free[k].start && nbytes <= free[k].size
      modifies this`mem, this`freeItems, this`numFreeItems
      ensures mem == Carved(old(mem), free, k, nbytes, pid, repaired)
      ensures freeItems == if old(mem)[item].prev == NULL then StartAt(TakeFrom(free, k, nbytes), k) else old(freeItems)
      ensures numFreeItems == |TakeFrom(free, k, nbytes)|
    {
      CutLinks(mem, free, k, nbytes, pid, repaired);
      CutItem(item, nbytes, pid);
      freeItems := RemoveFromList(item, freeItems);
      numFreeItems := numFreeItems - 1;
    }

    // Cut the item and move it over to the allocated list.
    method Move(item: nat, nbytes: nat, pid: nat, ghost k: nat)
      requires Carvable(mem, free, k) && Ordered(free) && numFreeItems == |free|
      requires item == free[k].start && nbytes <= free[k].size
      requires allocatedItems in mem && allocatedItems != item && numAllocatedItems == |alloc|
      modifies this`mem, this`freeItems, this`numFreeItems
      modifies this`allocatedItems, this`numAllocatedItems, this`alloc
      ensures MoveReady(old(mem), free, k, nbytes, pid, old(allocatedItems))
      ensures mem == Moved(old(mem), free, k, nbytes, pid, old(allocatedItems), repaired)
      ensures freeItems == HeadLeft(old(mem), free, k, nbytes, old(freeItems))
      ensures numFreeItems == |TakeFrom(free, k, nbytes)|
      ensures alloc == [Taken(free[k], nbytes, pid)] + old(alloc)
      ensures allocatedItems == item && numAllocatedItems == |alloc|
    {
      CarvedGrows(mem, free, k, nbytes, pid, repaired);
      Carve(item, nbytes, pid, k);
      InsertInAllocated(item, Taken(free[k], nbytes, pid));
    }

    // Cut the item and move it over, in the sequences as well.
    method Relocate(item: nat, nbytes: nat, pid: nat, ghost k: nat)
      requires Carvable(mem, free, k) && Ordered(free) && numFreeItems == |free| == |prevs|
      requires item == free[k].start && nbytes <= free[k].size
      requires allocatedItems in mem && allocatedItems != item && numAllocatedItems == |alloc|
      modifies this`mem, this`freeItems, this`numFreeItems, this`free, this`prevs
      modifies this`allocatedItems, this`numAllocatedItems, this`alloc
      ensures MoveReady(old(mem), old(free), k, nbytes, pid, old(allocatedItems))
      ensures mem == Moved(old(mem), old(free), k, nbytes, pid, old(allocatedItems), repaired)
      ensures freeItems == HeadLeft(old(mem), old(free), k, nbytes, old(freeItems)) && allocatedItems == item
      ensures State() == TakeAt(old(State()), k, nbytes, pid, repaired)
      ensures numFreeItems == |free| && numAllocatedItems == |alloc|
    {
      Move(item, nbytes, pid, k);
      prevs := TakePrevs(free, k, nbytes, prevs, repaired);
      free := TakeFrom(free, k, nbytes);
    }

    // bios_malloc once a big enough item is found.
    method Take(item: nat, nbytes: nat, pid: nat, ghost k: nat) returns (p: nat)
      requires Sound()
      requires k < |free| && item == free[k].start && nbytes <= free[k].size
      modifies this`mem, this`freeItems, this`numFreeItems, this`free, this`prevs
      modifies this`allocatedItems, this`numAllocatedItems, this`alloc
      ensures p == item + HEADER
      ensures State() == TakeAt(old(State()), k, nbytes, pid, repaired)
      ensures Sound() <==> Right(old(free), old(prevs), k)
      ensures Right(old(free), old(prevs), k) ==>
                mem[NULL] == if repaired || old(alloc) != [] then old(mem)[NULL] else old(mem)[NULL].(prev := item)
    {
      TakenOrder(heapStart, ramEnd, mem, State(), k, nbytes, pid, repaired);
      Relocate(item, nbytes, pid, k);
      p := item + HEADER;
    }

    // The search of bios_malloc: the first free item that is big enough, or NULL.
    method FindItem(nbytes: nat) returns (item: nat, ghost k: nat)
      requires Chain(mem, freeItems, free)
      ensures k == FirstFit(free, nbytes) && item == StartAt(free, k) && (item == NULL <==> k == |free|)
    {
      item := freeItems;
      k := 0;
      while item != NULL
        invariant k <= |free| && item == StartAt(free, k) && (k < |free| ==> Cell(mem, free, k))
        invariant forall i | 0 <= i < k :: free[i].size < nbytes
        decreases |free| - k
      {
        if !IsValidItem(item) {
          // The source reports a damaged list and returns NULL here.
          assert false;
        }
        if mem[item].payload >= nbytes {
          return;
        }
        item := mem[item].next;
        k := k + 1;
      }
    }

    // Nothing but errno changes when there is nothing to hand out. Otherwise the
    // heap is still sound exactly when the back link of the block it takes was
    // right.
    method Malloc(nbytes: nat, pid: nat) returns (p: nat)
      requires Sound()
      modifies this
      ensures biggestPayload == old(biggestPayload)
      ensures var k := FirstFit(old(free), nbytes);
              if nbytes == 0 || k == |old(free)| then
                && p == NULL && Sound()
                && mem == old(mem) && State() == old(State())
                && errno == (if nbytes == 0 then old(errno) else ENOMEM)
              else
                && p == old(free)[k].start + 20 && errno == old(errno)
                && alloc == [Taken(old(free)[k], nbytes, pid)] + old(alloc)
                && alloc[0].owner == pid && nbytes <= alloc[0].size < nbytes + 52
                && (alloc[0].size != old(free)[k].size ==>
                      alloc[0].size == nbytes && k < |free| && free[k].size >= 32)
                && free == TakeFrom(old(free), k, nbytes)
                && prevs == TakePrevs(old(free), k, nbytes, old(prevs), repaired)
                && (Sound() <==> Right(old(free), old(prevs), k))
                && (Right(old(free), old(prevs), k) ==>
                      mem[NULL] == if repaired || old(alloc) != [] then old(mem)[NULL]
                                   else old(mem)[NULL].(prev := old(free)[k].start))
    {
      if nbytes == 0 {
        return NULL;
      }
      if nbytes > biggestPayload {
        NoneBigger(heapStart, ramEnd, free, alloc, nbytes);
        errno := ENOMEM;
        return NULL;
      }
      var item, k := FindItem(nbytes);
      if item != NULL {
        p := Take(item, nbytes, pid, k);
        return;
      }
      errno := ENOMEM;
      p := NULL;
    }

    predicate CanMerge(first: nat, second: nat)
      requires first != NULL ==> first in mem
      reads this
    {
      first != NULL && second != NULL && first + mem[first].payload + HEADER == second
    }

    // The header free_item leaves in a block it has just detached.
    ghost predicate Detached(item: nat, b: Block)
      reads this
    {
      item == b.start != NULL && item in mem && mem[item] == Item(ITEM_SIG, b.size, b.owner, NULL, NULL)
    }

    // The edit that puts `b` in its slot, and the head and length that go with it.
    ghost predicate Placed(m0: Memory, b: Block)
      reads this
    {
      && Aimable(m0, free, SlotFor(free, b))
      && mem == Aimed(m0, free, SlotFor(free, b))
      && freeItems == StartAt(Release(free, b), 0)
      && numFreeItems == |Release(free, b)|
    }

    // The item is detached, k free blocks lie below it, and the list is in order
    // around that place.
    ghost predicate Ready(item: nat, b: Block, k: nat)
      reads this
    {
      && Detached(item, b)
      && k <= |free| && SlotAt(free, b, k) && Window(mem, free, if k == 0 then 0 else k - 1)
      && Aimable(mem, free, SlotFor(free, b))
      && (k > 0 ==> free[k - 1].start < item)
      && (k < |free| ==> item < free[k].start)
      && freeItems == StartAt(free, 0) && numFreeItems == |free|
    }

    // In front of the whole list.
    method InsertAtHead(item: nat, ghost b: Block)
      requires Ready(item, b, 0)
      modifies this`mem, this`freeItems, this`numFreeItems
      ensures Placed(old(mem), b)
    {
      if CanMerge(item, freeItems) {
        var head := mem[freeItems];
        mem := mem[item := mem[item].(payload := mem[item].payload + (head.payload + HEADER), next := head.next)];
        if head.next != NULL {
          mem := SetPrev(mem, head.next, item);
        }
      } else {
        mem := SetNext(mem, item, freeItems);
        if freeItems != NULL {
          mem := SetPrev(mem, freeItems, item);
        }
        numFreeItems := numFreeItems + 1;
      }
      freeItems := item;
    }

    // The item gets added to cur, and then perhaps the next one too.
    method MergeDown(item: nat, cur: nat, ghost b: Block, ghost k: nat)
      requires Detached(item, b) && Window(mem, free, k)
      requires k + 1 < |free| && cur == free[k].start && Touches(free[k], b)
      modifies this`mem, this`numFreeItems
      ensures var c := Join(free[k], b);
              var up := Touches(c, free[k + 1]);
              var r := if up then Slot(k, k + 2, Join(c, free[k + 1])) else Slot(k, k + 1, c);
              && mem == Aimed(old(mem), free, r)
              && numFreeItems == old(numFreeItems) + 1 - (r.upto - r.from)
    {
      mem := mem[cur := mem[cur].(payload := mem[cur].payload + (mem[item].payload + HEADER))];
      if CanMerge(cur, mem[cur].next) {
        var next := mem[cur].next;
        mem := mem[cur := mem[cur].(payload := mem[cur].payload + (mem[next].payload + HEADER))];
        mem := SetNext(mem, cur, mem[next].next);
        if mem[next].next != NULL {
          mem := SetPrev(mem, mem[next].next, cur);
        }
        numFreeItems := numFreeItems - 1;
      }
    }

    // The next one gets added to the item, which then takes its place.
    method MergeUp(item: nat, cur: nat, ghost b: Block, ghost k: nat)
      requires Ready(item, b, k + 1)
      requires k + 1 < |free| && cur == free[k].start && !Touches(free[k], b) && Touches(b, free[k + 1])
      modifies this`mem
      ensures Placed(old(mem), b)
    {
      var next := mem[cur].next;
      mem := mem[item := mem[item].(payload := mem[item].payload + (mem[next].payload + HEADER))];
      mem := mem[item := mem[item].(next := mem[next].next, prev := cur)];
      mem := SetNext(mem, cur, item);
      if mem[item].next != NULL {
        mem := SetPrev(mem, mem[item].next, item);
      }
    }

    // No merge is possible: slot the item in.
    method SlotIn(item: nat, cur: nat, ghost b: Block, ghost k: nat)
      requires Ready(item, b, k + 1)
      requires k + 1 < |free| && cur == free[k].start && !Touches(free[k], b) && !Touches(b, free[k + 1])
      modifies this`mem, this`numFreeItems
      ensures Placed(old(mem), b)
    {
      mem := mem[item := mem[item].(prev := cur, next := mem[cur].next)];
      if mem[cur].next != NULL {
        mem := SetPrev(mem, mem[cur].next, item);
      }
      mem := SetNext(mem, cur, item);
      numFreeItems := numFreeItems + 1;
    }

    // Past the last free block.
    method Append(item: nat, prev: nat, ghost b: Block)
      requires free != [] && Ready(item, b, |free|) && prev == free[|free| - 1].start
      modifies this`mem, this`numFreeItems
      ensures Placed(old(mem), b)
    {
      mem := SetPrev(mem, item, prev);
      mem := SetNext(mem, prev, item);
      numFreeItems := numFreeItems + 1;
    }

    // The place is found, between cur and cur->next.
    method InsertAfter(item: nat, cur: nat, ghost b: Block, ghost k: nat)
      requires Ready(item, b, k + 1) && k + 1 < |free| && cur == free[k].start
      modifies this`mem, this`numFreeItems
      ensures Placed(old(mem), b)
    {
      if CanMerge(cur, item) {
        MergeDown(item, cur, b, k);
      } else if CanMerge(item, mem[cur].next) {
        MergeUp(item, cur, b, k);
      } else {
        SlotIn(item, cur, b, k);
      }
    }

    // free_item's loop: the free block to go behind, NULL when the item belongs
    // behind the last one, which is then `prev`.
    method FindPlace(item: nat, ghost b: Block) returns (prev: nat, cur: nat, ghost k: nat)
      requires Chain(mem, freeItems, free) && Ordered(free) && AllApart(free, b)
      requires free != [] && free[0].start < item == b.start
      ensures 0 < k <= |free| && free[k - 1].start < item && (k < |free| ==> item < free[k].start)
      ensures if k < |free| then cur == free[k - 1].start else cur == NULL && prev == free[k - 1].start
    {
      prev := NULL;
      cur := freeItems;
      k := 0;
      while cur != NULL
        invariant k <= |free| && cur == StartAt(free, k) && prev == StartAt(free, k - 1)
        invariant free[if k < |free| then k else |free| - 1].start < item
        decreases |free| - k
      {
        Look(mem, free, k);
        if item > cur && item < mem[cur].next {
          k := k + 1;
          return;
        }
        assert k + 1 < |free| ==> Apart(free[k + 1], b);
        prev := cur;
        cur := mem[cur].next;
        k := k + 1;
      }
      Look(mem, free, k);
    }

    // The item belongs behind the head of the list.
    method InsertBehind(item: nat, ghost b: Block)
      requires Chain(mem, freeItems, free) && numFreeItems == |free|
      requires Ordered(free) && AllApart(free, b)
      requires Detached(item, b) && free != [] && free[0].start < item
      modifies this`mem, this`freeItems, this`numFreeItems
      ensures Placed(old(mem), b)
    {
      var prev, cur, k := FindPlace(item, b);
      Survey(mem, free, b, k);
      if cur != NULL {
        InsertAfter(item, cur, b, k - 1);
      } else {
        Append(item, prev, b);
      }
    }

    // The second half of free_item: find the place of the detached item and
    // join it to its neighbours or link it in.
    method InsertInFree(item: nat, ghost b: Block)
      requires Chain(mem, freeItems, free) && numFreeItems == |free|
      requires Ordered(free) && AllApart(free, b)
      requires Detached(item, b)
      modifies this`mem, this`freeItems, this`numFreeItems
      ensures Placed(old(mem), b)
    {
      Survey(mem, free, b, 0);
      if freeItems == NULL || item < freeItems {
        InsertAtHead(item, b);
      } else {
        InsertBehind(item, b);
      }
    }

    // remove_from_allocated
    method RemoveFromAllocated(item: nat)
      requires item in mem
      requires mem[item].prev != NULL ==> mem[item].prev in mem
      requires mem[item].next != NULL ==> mem[item].next in mem && mem[mem[item].next].signature == ITEM_SIG
      modifies this`mem, this`allocatedItems, this`numAllocatedItems
      ensures mem == Unhooked(old(mem), old(mem)[item].prev, old(mem)[item].next)
      ensures allocatedItems == if old(mem)[item].prev == NULL then old(mem)[item].next else old(allocatedItems)
      ensures numAllocatedItems == old(numAllocatedItems) - 1
    {
      allocatedItems := RemoveFromList(item, allocatedItems);
      numAllocatedItems := numAllocatedItems - 1;
    }

    // The first half of free_item: unlink and clear the item.
    method Detach(item: nat, ghost k: nat)
      requires Linked(mem, allocatedItems, alloc) && Separated(alloc) && numAllocatedItems == |alloc|
      requires k < |alloc| && item == alloc[k].start
      modifies this`mem, this`allocatedItems, this`numAllocatedItems
      ensures mem == Dropped(old(mem), alloc, k)
      ensures allocatedItems == StartAt(Without(alloc, k), 0)
      ensures numAllocatedItems == |Without(alloc, k)|
      ensures item != NULL && item in mem && mem[item] == Item(ITEM_SIG, alloc[k].size, 0, NULL, NULL)
    {
      DroppedLinks(mem, alloc, k);
      RemoveFromAllocated(item);
      mem := mem[item := mem[item].(next := NULL, prev := NULL, owner := 0)];
    }

    // free_item, on memory and list heads.
    method Relink(item: nat, ghost b: Block, ghost k: nat)
      requires Chain(mem, freeItems, free) && numFreeItems == |free|
      requires Linked(mem, allocatedItems, alloc) && numAllocatedItems == |alloc|
      requires Disjoint(free, alloc) && k < |alloc| && item == alloc[k].start && b == alloc[k].(owner := 0)
      requires Chain(Dropped(mem, alloc, k), freeItems, free) && AllApart(free, b)
      modifies this`mem, this`freeItems, this`numFreeItems, this`allocatedItems, this`numAllocatedItems
      ensures SettleReady(old(mem), free, alloc, k) && mem == Settled(old(mem), free, alloc, k)
      ensures freeItems == StartAt(Release(free, b), 0) && numFreeItems == |Release(free, b)|
      ensures allocatedItems == StartAt(Without(alloc, k), 0) && numAllocatedItems == |Without(alloc, k)|
    {
      Detach(item, k);
      InsertInFree(item, b);
    }

    // free_item, on memory, list heads and sequences.
    method HandBack(item: nat, ghost b: Block, ghost k: nat)
      requires Chain(mem, freeItems, free) && numFreeItems == |free| == |prevs|
      requires Linked(mem, allocatedItems, alloc) && numAllocatedItems == |alloc|
      requires Disjoint(free, alloc) && k < |alloc| && item == alloc[k].start && b == alloc[k].(owner := 0)
      requires Chain(Dropped(mem, alloc, k), freeItems, free) && AllApart(free, b)
      modifies this`mem, this`freeItems, this`numFreeItems, this`free, this`prevs
      modifies this`allocatedItems, this`numAllocatedItems, this`alloc
      ensures SettleReady(old(mem), old(free), old(alloc), k)
      ensures mem == Settled(old(mem), old(free), old(alloc), k)
      ensures State() == Freed(old(State()), k)
      ensures freeItems == StartAt(free, 0) && numFreeItems == |free|
      ensures allocatedItems == StartAt(alloc, 0) && numAllocatedItems == |alloc|
    {
      Relink(item, b, k);
      prevs := ReleasePrevs(free, b, prevs);
      free := Release(free, b);
      alloc := Without(alloc, k);
    }

    method FreeItem(item: nat, ghost k: nat)
      requires Sound()
      requires k < |alloc| && item == alloc[k].start
      modifies this`mem, this`freeItems, this`numFreeItems, this`free, this`prevs
      modifies this`allocatedItems, this`numAllocatedItems, this`alloc
      ensures Sound()
      ensures State() == Freed(old(State()), k)
      ensures mem[NULL] == old(mem)[NULL]
    {
      FreedOrder(heapStart, ramEnd, mem, State(), k);
      HandBack(item, alloc[k].(owner := 0), k);
    }

    // The tests of bios_free.
    method MayFree(ptr: nat, pid: nat) returns (ok: bool)
      requires Sound()
      requires pid != 0 || ptr - HEADER !in mem || ptr == NULL + HEADER || Find(alloc, ptr - HEADER) < |alloc|
      modifies this`errno
      ensures var k := Find(alloc, ptr - HEADER);
              && (ok <==> k < |alloc| && alloc[k].owner == pid)
              && (ok ==> ptr >= HEADER && errno == old(errno))
              && (!ok && k < |alloc| ==> errno == EPERM)
    {
      ghost var k := Find(alloc, ptr - HEADER);
      assert k < |alloc| ==> Cell(mem, alloc, k);
      if ptr < HEADER {
        return false;
      }
      var item := ptr - HEADER;
      assert k == |alloc| ==> Unlisted(alloc, item);
      if !IsValidItem(item) {
        return false;
      }
      if mem[item].owner != pid {
        errno := EPERM;
        return false;
      }
      return true;
    }

    // A free whose caller's tag fits frees the block; any other changes neither
    // list. A process with a non-zero pid may pass any pointer at all; pid 0 must
    // not pass a pointer to a header that is no longer allocated, because cleared
    // headers carry its own tag (see FreeTwice).
    method Free(ptr: nat, pid: nat)
      requires Sound()
      requires pid != 0 || ptr - HEADER !in mem || ptr == NULL + HEADER || Find(alloc, ptr - HEADER) < |alloc|
      modifies this
      ensures Sound()
      ensures biggestPayload == old(biggestPayload) && mem[NULL] == old(mem)[NULL]
      ensures var k := Find(old(alloc), ptr - HEADER);
              if k < |old(alloc)| && old(alloc)[k].owner == pid then
                State() == Freed(old(State()), k) && errno == old(errno)
              else
                && mem == old(mem) && State() == old(State())
                && (k < |old(alloc)| ==> errno == EPERM)
    {
      ghost var k := Find(alloc, ptr - HEADER);
      var ok := MayFree(ptr, pid);
      if ok {
        FreeItem(ptr - HEADER, k);
      }
    }

    // A free of the k-th allocated item on its owner's behalf.
    method FreeOwn(item: nat, pid: nat, ghost k: nat)
      requires Sound() && k < |alloc| && item == alloc[k].start && alloc[k].owner == pid
      modifies this
      ensures Sound() && State() == Freed(old(State()), k)
      ensures errno == old(errno) && biggestPayload == old(biggestPayload)
    {
      FindIs(alloc, k);
      Free(item + HEADER, pid);
    }

    // One round of the loop: the k-th allocated item goes or stays.
    method CleanOne(item: nat, pid: nat, ghost k: nat) returns (next: nat, ghost k': nat)
      requires Sound() && k < |alloc| && item == alloc[k].start
      modifies this
      ensures Sound() && k' <= |alloc| && next == StartAt(alloc, k')
      ensures Clean(State(), pid, k') == Clean(old(State()), pid, k)
      ensures |alloc| - k' < old(|alloc|) - k
      ensures errno == old(errno) && biggestPayload == old(biggestPayload)
    {
      assert Cell(mem, alloc, k);
      next := mem[item].next;
      if mem[item].owner == pid {
        CleanMine(State(), pid, k);
        k' := k;
        FreeOwn(item, pid, k);
      } else {
        k' := k + 1;
      }
    }

    // clean_heap: see HeapBlocks.CleanResult for what is left.
    method CleanHeap(pid: nat)
      requires Sound()
      modifies this
      ensures Sound() && State() == Clean(old(State()), pid, 0)
      ensures errno == old(errno) && biggestPayload == old(biggestPayload)
    {
      ghost var s0 := State();
      ghost var k: nat := 0;
      var item := allocatedItems;
      while item != NULL
        invariant Sound()
        invariant k <= |alloc| && item == StartAt(alloc, k)
        invariant Clean(s0, pid, 0) == Clean(State(), pid, k)
        invariant errno == old(errno) && biggestPayload == old(biggestPayload)
        decreases |alloc| - k
      {
        item, k := CleanOne(item, pid, k);
      }
      assert k < |alloc| ==> Cell(mem, alloc, k);
    }

    method RunMalloc(nbytes: nat, pid: nat)
      requires Sound() && Safe(State(), Op.Malloc(nbytes, pid))
      modifies this
      ensures Sound() && State() == Step(old(State()), Op.Malloc(nbytes, pid), repaired)
    {
      var p := Malloc(nbytes, pid);
    }

    method RunFree(ptr: nat, pid: nat)
      requires Sound() && Safe(State(), Op.Free(ptr, pid))
      modifies this
      ensures Sound() && State() == Step(old(State()), Op.Free(ptr, pid), repaired)
    {
      FreeStep(State(), ptr, pid, repaired);
      Free(ptr, pid);
    }

    method RunOne(op: Op)
      requires Sound() && Safe(State(), op)
      modifies this
      ensures Sound() && State() == Step(old(State()), op, repaired)
    {
      match op
      case Malloc(n, pid) => RunMalloc(n, pid);
      case Free(ptr, pid) => RunFree(ptr, pid);
      case CleanUp(pid) => CleanHeap(pid);
    }

    // Every run that is safe, and with the repair every run at all
    // (HeapBlocks.RepairedSafe), keeps the heap sound and does what
    // HeapBlocks.Run says.
    method RunAll(ops: seq<Op>)
      requires Sound() && SafeRun(State(), ops, repaired)
      modifies this
      ensures Sound() && State() == Run(old(State()), ops, repaired)
    {
      ghost var s0 := State();
      for i := 0 to |ops|
        invariant Sound() && State() == Run(s0, ops[..i], repaired)
      {
        SafePrefix(s0, ops, i, repaired);
        RunOne(ops[i]);
      }
      assert ops[..|ops|] == ops;
    }

    // And any run of the repaired allocator at all keeps both lists linked in
    // both directions.
    method RunRepaired(ops: seq<Op>)
      requires Valid() && repaired && NamedRun(State(), ops, repaired)
      modifies this
      ensures Valid() && State() == Run(old(State()), ops, repaired)
      ensures Linked(mem, freeItems, free) && Linked(mem, allocatedItems, alloc)
      ensures Partition(heapStart, ramEnd, free, alloc)
    {
      RepairedSafe(State(), ops);
      RunAll(ops);
      LinksRight(mem, free, prevs);
    }
  }

  // ----- its faults, by example -----------------------------------------------------

  method TwoTaken(heapStart: nat, ramEnd: nat, lowMemory: Item) returns (heap: Allocator, p: nat)
    requires 32 <= heapStart && heapStart + 1000 <= ramEnd < RAM_LIMIT
    ensures heap.Sound() && !heap.repaired && fresh(heap) && p == heapStart + HEADER
    ensures heap.alloc == [Block(heapStart + 120, 100, 1), Block(heapStart, 100, 1)]
    ensures heap.free == [Block(heapStart + 240, ramEnd - heapStart - 260, 0)] && heap.prevs == [NULL]
  {
    heap := new Allocator(heapStart, ramEnd, lowMemory, false);
    p := heap.Malloc(100, 1);
    var q := heap.Malloc(100, 1);
  }

  method FreeInFront(heapStart: nat, ramEnd: nat, lowMemory: Item) returns (heap: Allocator)
    requires 32 <= heapStart && heapStart + 1000 <= ramEnd < RAM_LIMIT
    ensures heap.Sound() && !heap.repaired && fresh(heap)
    ensures heap.free == [Block(heapStart, 100, 0), Block(heapStart + 240, ramEnd - heapStart - 260, 0)]
    ensures heap.prevs == [NULL, heapStart]
  {
    var p;
    heap, p := TwoTaken(heapStart, ramEnd, lowMemory);
    heap.Free(p, 1);
  }

  // Four ordinary calls break the source's free list: two blocks are taken, the
  // first is given back, and splitting it then leaves the back link of the free
  // block behind it pointing at a block that is in use.
  method BreakBackLink(heapStart: nat, ramEnd: nat, lowMemory: Item) returns (heap: Allocator)
    requires 32 <= heapStart && heapStart + 1000 <= ramEnd < RAM_LIMIT
    ensures heap.Sound() && !heap.Valid() && fresh(heap)
    ensures heap.free == [Block(heapStart + 30, 70, 0), Block(heapStart + 240, ramEnd - heapStart - 260, 0)]
    ensures heap.prevs == [NULL, heapStart]
  {
    heap := FreeInFront(heapStart, ramEnd, lowMemory);
    var r := heap.Malloc(10, 1);
    assert !Right(heap.free, heap.prevs, 1);
  }

  // And a fifth one, for more than is left in front, loses track of the list.
  method LoseTrack(heapStart: nat, ramEnd: nat, lowMemory: Item) returns (heap: Allocator)
    requires 32 <= heapStart && heapStart + 1000 <= ramEnd < RAM_LIMIT
    ensures !heap.Sound()
  {
    heap := BreakBackLink(heapStart, ramEnd, lowMemory);
    var p := heap.Malloc(200, 1);
  }

  method TakeOnce(heapStart: nat, ramEnd: nat, lowMemory: Item) returns (heap: Allocator, p: nat)
    requires 32 <= heapStart && heapStart + 1000 <= ramEnd < RAM_LIMIT
    ensures heap.Sound() && fresh(heap) && p == heapStart + HEADER
    ensures heap.alloc == [Block(heapStart, 100, 0)]
    ensures heap.free == [Block(heapStart + 120, ramEnd - heapStart - 140, 0)] && heap.prevs == [NULL]
  {
    heap := new Allocator(heapStart, ramEnd, lowMemory, true);
    p := heap.Malloc(100, 0);
  }

  method FreeOnce(heapStart: nat, ramEnd: nat, lowMemory: Item) returns (heap: Allocator, p: nat)
    requires 32 <= heapStart && heapStart + 1000 <= ramEnd < RAM_LIMIT
    ensures heap.Sound() && fresh(heap) && p == heapStart + HEADER
    ensures heap.free == [Block(heapStart, ramEnd - heapStart - HEADER, 0)] && heap.prevs == [NULL] && heap.alloc == []
  {
    heap, p := TakeOnce(heapStart, ramEnd, lowMemory);
    heap.Free(p, 0);
  }

  // Freeing a block twice is no error for pid 0: the tests bios_free makes pass
  // again, and the first thing free_item then does is to count a block that is
  // not there off the allocated list.
  method FreeTwice(heapStart: nat, ramEnd: nat, lowMemory: Item) returns (heap: Allocator)
    requires 32 <= heapStart && heapStart + 1000 <= ramEnd < RAM_LIMIT
    ensures !heap.Sound() && heap.alloc == [] && heap.numAllocatedItems == -1
  {
    var p;
    heap, p := FreeOnce(heapStart, ramEnd, lowMemory);
    var item := p - HEADER;
    assert Cell(heap.mem, heap.free, 0) && LinkIs(heap.mem, heap.free, heap.prevs, 0);
    assert heap.IsValidItem(item) && heap.mem[item].owner == 0;
    heap.RemoveFromAllocated(item);
  }
}
