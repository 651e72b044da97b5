// Doubly linked lists of block headers in memory, and what splicing does to them.
module HeapLists {
  import opened HeapBlocks

  const ITEM_SIG: nat := 0xfac3b00b

  datatype Item = Item(signature: nat, payload: nat, owner: nat, next: nat, prev: nat)

  // Memory is a map from an address to the header stored there. Headers that a
  // merge has swallowed stay in the map, as their bytes stay in RAM. Address 0
  // is in the map too: it is low RAM on this board, not a trap.
  type Memory = map<nat, Item>

  // The i-th header of the list `bs`, as seen going forward,
  ghost predicate Cell(mem: Memory, bs: seq<Block>, i: nat)
    requires i < |bs|
  {
    var a := bs[i].start;
    && a != NULL && a in mem
    && mem[a].signature == ITEM_SIG
    && mem[a].payload == bs[i].size
    && mem[a].owner == bs[i].owner
    && mem[a].next == StartAt(bs, i + 1)
  }

  // and its link backwards.
  ghost predicate Back(mem: Memory, bs: seq<Block>, i: nat)
    requires i < |bs|
  {
    bs[i].start in mem && mem[bs[i].start].prev == StartAt(bs, i - 1)
  }

  ghost predicate Chain(mem: Memory, head: nat, bs: seq<Block>) {
    head == StartAt(bs, 0) && forall i | 0 <= i < |bs| :: Cell(mem, bs, i)
  }

  ghost predicate BackLinks(mem: Memory, bs: seq<Block>) {
    forall i | 0 <= i < |bs| :: Back(mem, bs, i)
  }

  ghost predicate Linked(mem: Memory, head: nat, bs: seq<Block>) {
    Chain(mem, head, bs) && BackLinks(mem, bs)
  }

  // No block of the list starts at `a`.
  ghost predicate Unlisted(bs: seq<Block>, a: nat) {
    forall i | 0 <= i < |bs| :: bs[i].start != a
  }

  ghost predicate Same(mem: Memory, mem': Memory, a: nat) {
    a in mem && a in mem' && mem'[a] == mem[a]
  }

  // The same but for the back link.
  ghost predicate Kept(mem: Memory, mem': Memory, a: nat) {
    a in mem && a in mem' && mem'[a] == mem[a].(prev := mem'[a].prev)
  }

  // ----- back links that may be wrong ------------------------------------------

  // The back link of the i-th block is prevs[i], which leads to some header.
  ghost predicate LinkIs(mem: Memory, bs: seq<Block>, prevs: seq<nat>, i: nat)
    requires i < |bs| == |prevs|
  {
    bs[i].start in mem && mem[bs[i].start].prev == prevs[i] && prevs[i] in mem
  }

  ghost predicate LinksAre(mem: Memory, bs: seq<Block>, prevs: seq<nat>) {
    |bs| == |prevs| && forall i | 0 <= i < |bs| :: LinkIs(mem, bs, prevs, i)
  }

  lemma LinksRight(mem: Memory, bs: seq<Block>, prevs: seq<nat>)
    requires LinksAre(mem, bs, prevs)
    ensures AllRight(bs, prevs) <==> BackLinks(mem, bs)
  {
    forall i | 0 <= i < |bs| ensures Right(bs, prevs, i) <==> Back(mem, bs, i) {
      assert LinkIs(mem, bs, prevs, i);
    }
  }

  // ----- splicing -------------------------------------------------------------

  // Memory `mem'` differs from `mem`, as far as the list is concerned, by
  // putting r.block where bs[r.from..r.upto] was: its header is written, the
  // block before it is aimed at it, and of the one behind it no more than the
  // back link has changed.
  ghost predicate Edited(mem: Memory, mem': Memory, bs: seq<Block>, r: Slot)
    requires r.from <= r.upto <= |bs|
  {
    var a, p, n := r.block.start, StartAt(bs, r.from - 1), StartAt(bs, r.upto);
    && a != NULL && a in mem'
    && mem'[a] == Item(ITEM_SIG, r.block.size, r.block.owner, n, mem'[a].prev)
    && (p != NULL ==> p in mem && p in mem' && mem'[p] == mem[p].(next := a))
    && (n != NULL ==> Kept(mem, mem', n))
    && (forall i | 0 <= i < |bs| && (i < r.from - 1 || r.upto < i) :: Same(mem, mem', bs[i].start))
  }

  lemma EditedCell(mem: Memory, mem': Memory, bs: seq<Block>, r: Slot, i: nat)
    requires forall j | 0 <= j < |bs| :: Cell(mem, bs, j)
    requires r.from <= r.upto <= |bs| && i < |Put(bs, r)|
    requires Edited(mem, mem', bs, r)
    ensures Cell(mem', Put(bs, r), i)
  {
    var cs := Put(bs, r);
    var shift := r.upto - r.from - 1;
    PutAt(bs, r, i);
    if i + 1 < |cs| {
      PutAt(bs, r, i + 1);
    }
    if i < r.from {
      assert Cell(mem, bs, i);
      assert i < r.from - 1 ==> Same(mem, mem', bs[i].start);
    } else if i > r.from {
      assert Cell(mem, bs, i + shift);
      assert i + shift > r.upto ==> Same(mem, mem', bs[i + shift].start);
    }
  }

  // The list after such an edit.
  lemma EditedList(mem: Memory, mem': Memory, head: nat, bs: seq<Block>, r: Slot)
    requires Chain(mem, head, bs)
    requires r.from <= r.upto <= |bs|
    requires Edited(mem, mem', bs, r)
    ensures Chain(mem', StartAt(Put(bs, r), 0), Put(bs, r))
  {
    var cs := Put(bs, r);
    forall i | 0 <= i < |cs|
      ensures Cell(mem', cs, i)
    {
      EditedCell(mem, mem', bs, r, i);
    }
  }

  // The two back links it can have written.
  ghost predicate Relinked(mem': Memory, bs: seq<Block>, r: Slot, here: nat, behind: nat)
    requires r.from <= r.upto <= |bs|
  {
    && r.block.start in mem' && mem'[r.block.start].prev == here && here in mem'
    && (r.upto < |bs| ==>
          bs[r.upto].start in mem' && mem'[bs[r.upto].start].prev == behind && behind in mem')
  }

  // A block neither swallowed nor right behind the edit keeps its back link.
  lemma UnmovedLink(mem: Memory, mem': Memory, bs: seq<Block>, r: Slot, prevs: seq<nat>, j: nat)
    requires r.from <= r.upto <= |bs| && j < |bs| && (j < r.from || r.upto < j)
    requires LinksAre(mem, bs, prevs) && Cell(mem, bs, j) && mem.Keys <= mem'.Keys
    requires Edited(mem, mem', bs, r)
    ensures LinkIs(mem', bs, prevs, j)
  {
    assert LinkIs(mem, bs, prevs, j);
    assert j != r.from - 1 ==> Same(mem, mem', bs[j].start);
  }

  lemma EditedLink(mem: Memory, mem': Memory, bs: seq<Block>, r: Slot, prevs: seq<nat>, here: nat, behind: nat, i: nat)
    requires forall j | 0 <= j < |bs| :: Cell(mem, bs, j)
    requires LinksAre(mem, bs, prevs) && mem.Keys <= mem'.Keys
    requires r.from <= r.upto <= |bs| && Edited(mem, mem', bs, r) && Relinked(mem', bs, r, here, behind)
    requires i < |Put(bs, r)|
    ensures LinkIs(mem', Put(bs, r), Reprev(bs, r, prevs, here, behind), i)
  {
    PutAt(bs, r, i);
    ReprevAt(bs, r, prevs, here, behind, i);
    if i != r.from && (i != r.from + 1 || r.upto == |bs|) {
      UnmovedLink(mem, mem', bs, r, prevs, if i < r.from then i else i + r.upto - r.from - 1);
    }
  }

  lemma EditedLinks(mem: Memory, mem': Memory, bs: seq<Block>, r: Slot, prevs: seq<nat>, here: nat, behind: nat)
    requires forall j | 0 <= j < |bs| :: Cell(mem, bs, j)
    requires LinksAre(mem, bs, prevs) && mem.Keys <= mem'.Keys
    requires r.from <= r.upto <= |bs| && Edited(mem, mem', bs, r) && Relinked(mem', bs, r, here, behind)
    ensures LinksAre(mem', Put(bs, r), Reprev(bs, r, prevs, here, behind))
  {
    var cs, ps := Put(bs, r), Reprev(bs, r, prevs, here, behind);
    forall i | 0 <= i < |cs| ensures LinkIs(mem', cs, ps, i) {
      EditedLink(mem, mem', bs, r, prevs, here, behind, i);
    }
  }

  // ----- removing -------------------------------------------------------------

  // Taking the k-th block out: its neighbours are aimed at each other.
  ghost predicate Removed(mem: Memory, mem': Memory, bs: seq<Block>, k: nat)
    requires k < |bs|
  {
    var p, n := StartAt(bs, k - 1), StartAt(bs, k + 1);
    && (p != NULL ==> p in mem && p in mem' && mem'[p] == mem[p].(next := n))
    && (n != NULL ==> n in mem && n in mem' && mem'[n] == mem[n].(prev := p))
    && (forall i | 0 <= i < |bs| && (i < k - 1 || k + 1 < i) :: Same(mem, mem', bs[i].start))
  }

  lemma RemovedCell(mem: Memory, mem': Memory, bs: seq<Block>, k: nat, i: nat)
    requires forall j | 0 <= j < |bs| :: Cell(mem, bs, j)
    requires k < |bs| && i < |Without(bs, k)|
    requires Removed(mem, mem', bs, k)
    ensures Cell(mem', Without(bs, k), i) && (BackLinks(mem, bs) ==> Back(mem', Without(bs, k), i))
  {
    var cs := Without(bs, k);
    assert forall j | 0 <= j < |cs| :: cs[j] == if j < k then bs[j] else bs[j + 1];
    var j := if i < k then i else i + 1;
    assert Cell(mem, bs, j) && (BackLinks(mem, bs) ==> Back(mem, bs, j));
    assert i < k - 1 || k + 1 < j ==> Same(mem, mem', bs[j].start);
  }

  lemma RemovedList(mem: Memory, mem': Memory, head: nat, bs: seq<Block>, k: nat)
    requires Chain(mem, head, bs) && k < |bs|
    requires Removed(mem, mem', bs, k)
    ensures Chain(mem', StartAt(Without(bs, k), 0), Without(bs, k))
    ensures BackLinks(mem, bs) ==> BackLinks(mem', Without(bs, k))
  {
    var cs := Without(bs, k);
    forall i | 0 <= i < |cs|
      ensures Cell(mem', cs, i) && (BackLinks(mem, bs) ==> Back(mem', cs, i))
    {
      RemovedCell(mem, mem', bs, k, i);
    }
  }

  lemma RemovedLink(mem: Memory, mem': Memory, bs: seq<Block>, k: nat, prevs: seq<nat>, i: nat)
    requires forall j | 0 <= j < |bs| :: Cell(mem, bs, j)
    requires LinksAre(mem, bs, prevs) && mem.Keys <= mem'.Keys && NULL in mem'
    requires k < |bs| && Removed(mem, mem', bs, k) && i < |Without(bs, k)|
    ensures LinkIs(mem', Without(bs, k), Unprev(bs, k, prevs), i)
  {
    WithoutAt(bs, k, i);
    var j := if i < k then i else i + 1;
    assert Cell(mem, bs, j) && LinkIs(mem, bs, prevs, j);
    if j == k + 1 {
      assert k > 0 ==> Cell(mem, bs, k - 1);
    } else if j != k - 1 {
      assert Same(mem, mem', bs[j].start);
    }
  }

  // The block behind gets a right back link, whatever it had.
  lemma RemovedLinks(mem: Memory, mem': Memory, bs: seq<Block>, k: nat, prevs: seq<nat>)
    requires forall j | 0 <= j < |bs| :: Cell(mem, bs, j)
    requires LinksAre(mem, bs, prevs) && mem.Keys <= mem'.Keys && NULL in mem'
    requires k < |bs| && Removed(mem, mem', bs, k)
    ensures LinksAre(mem', Without(bs, k), Unprev(bs, k, prevs))
  {
    var cs, ps := Without(bs, k), Unprev(bs, k, prevs);
    forall i | 0 <= i < |cs| ensures LinkIs(mem', cs, ps, i) {
      RemovedLink(mem, mem', bs, k, prevs, i);
    }
  }

  // A list none of whose headers changed.
  lemma SameList(mem: Memory, mem': Memory, head: nat, bs: seq<Block>, prevs: seq<nat>)
    requires Chain(mem, head, bs)
    requires forall i | 0 <= i < |bs| :: Same(mem, mem', bs[i].start)
    ensures Chain(mem', head, bs)
    ensures BackLinks(mem', bs) <==> BackLinks(mem, bs)
    ensures LinksAre(mem, bs, prevs) && mem.Keys <= mem'.Keys ==> LinksAre(mem', bs, prevs)
  {
    forall i | 0 <= i < |bs|
      ensures Cell(mem', bs, i) && (Back(mem', bs, i) <==> Back(mem, bs, i))
    {
      assert Cell(mem, bs, i) && Same(mem, mem', bs[i].start);
    }
    if LinksAre(mem, bs, prevs) && mem.Keys <= mem'.Keys {
      forall i | 0 <= i < |bs| ensures LinkIs(mem', bs, prevs, i) {
        assert LinkIs(mem, bs, prevs, i) && Same(mem, mem', bs[i].start);
      }
    }
  }

  // A new head in front of a list: only the old head's back link changes.
  lemma PushedList(mem: Memory, mem': Memory, head: nat, bs: seq<Block>, b: Block)
    requires Linked(mem, head, bs) && b.start != NULL && b.start in mem'
    requires mem'[b.start] == Item(ITEM_SIG, b.size, b.owner, head, NULL)
    requires head != NULL ==> head in mem && head in mem' && mem'[head] == mem[head].(prev := b.start)
    requires forall i | 0 < i < |bs| :: Same(mem, mem', bs[i].start)
    ensures Linked(mem', b.start, [b] + bs)
  {
    var cs := [b] + bs;
    forall i | 0 <= i < |cs|
      ensures Cell(mem', cs, i) && Back(mem', cs, i)
    {
      if i > 0 {
        assert cs[i] == bs[i - 1] && Cell(mem, bs, i - 1) && Back(mem, bs, i - 1);
      }
    }
  }
}
