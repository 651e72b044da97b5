// Streams of S-records: what a sender writes, and what comes of it.
module SrecStream {
  import opened Srec

  // ----- text -----------------------------------------------------------------------

  // Which of the characters sent are small letters, by their place in the text.
  type Case = nat -> bool

  function Digit(v: nat, small: bool): (c: char)
    requires v < 16
    ensures HexVal(c) == v
  {
    if small then "0123456789abcdef"[v] else "0123456789ABCDEF"[v]
  }

  // The characters that stand for a value, and for which.
  lemma DigitOf(c: char)
    ensures HexVal(c) >= 0 <==> c in "0123456789abcdef" || c in "0123456789ABCDEF"
    ensures HexVal(c) >= 0 ==> c == Digit(HexVal(c), true) || c == Digit(HexVal(c), false)
  {
    if HexVal(c) >= 0 {
      assert c == "0123456789abcdef"[HexVal(c)] || c == "0123456789ABCDEF"[HexVal(c)];
    }
  }

  // Bytes in hexadecimal, the first digit standing at `at`.
  function Text(bytes: seq<Byte>, small: Case, at: nat): string
    decreases bytes
  {
    if bytes == [] then ""
    else
      [Digit(bytes[0] / 16, small(at)), Digit(bytes[0] % 16, small(at + 1))] + Text(bytes[1..], small, at + 2)
  }

  predicate Shows(s: Input, p: nat, text: string)
    decreases text
  {
    text == "" || (s(p) == text[0] && Shows(s, p + 1, text[1..]))
  }

  // Two digits, in letters of either case.
  predicate SpeltByte(s: Input, p: nat, b: Byte) {
    HexVal(s(p)) == b / 16 && HexVal(s(p + 1)) == b % 16
  }

  predicate Spelt(s: Input, p: nat, bytes: seq<Byte>)
    decreases bytes
  {
    bytes == [] || (SpeltByte(s, p, bytes[0]) && Spelt(s, p + 2, bytes[1..]))
  }

  lemma {:induction false} TextSpelt(s: Input, p: nat, bytes: seq<Byte>, small: Case, at: nat)
    requires Shows(s, p, Text(bytes, small, at))
    ensures Spelt(s, p, bytes)
    decreases bytes
  {
    if bytes != [] {
      var text := Text(bytes, small, at);
      assert text[1..][1..] == Text(bytes[1..], small, at + 2);
      assert text[1..][0] == Digit(bytes[0] % 16, small(at + 1));
      TextSpelt(s, p + 2, bytes[1..], small, at + 2);
    }
  }

  lemma {:induction false} HexReads(s: Input, p: nat, bytes: seq<Byte>)
    requires Spelt(s, p, bytes)
    ensures HexAt(s, p, |bytes|) == Hex(bytes, p + 2 * |bytes|, true)
    decreases bytes
  {
    if bytes != [] {
      HexReads(s, p + 2, bytes[1..]);
      assert bytes == [bytes[0]] + bytes[1..];
    }
  }

  lemma {:induction false} SpeltParts(s: Input, p: nat, a: seq<Byte>, b: seq<Byte>)
    ensures Spelt(s, p, a + b) <==> Spelt(s, p, a) && Spelt(s, p + 2 * |a|, b)
    decreases a
  {
    if a == [] {
      assert a + b == b;
    } else {
      assert (a + b)[1..] == a[1..] + b;
      SpeltParts(s, p + 2, a[1..], b);
    }
  }

  // Reading the first part leaves the second to be read.
  lemma HexParts(s: Input, p: nat, a: seq<Byte>, b: seq<Byte>)
    requires Spelt(s, p, a + b)
    ensures HexAt(s, p, |a|) == Hex(a, p + 2 * |a|, true)
    ensures Spelt(s, p + 2 * |a|, b)
  {
    SpeltParts(s, p, a, b);
    HexReads(s, p, a);
  }

  // ----- numbers ---------------------------------------------------------------------

  function Room(k: nat): nat { if k == 0 then 1 else 256 * Room(k - 1) }

  function Big(n: nat, k: nat): (bytes: seq<Byte>)
    ensures |bytes| == k
    decreases k
  {
    if k == 0 then [] else Big(n / 256, k - 1) + [n % 256]
  }

  lemma {:induction false} NumberMore(n: nat, bytes: seq<Byte>, b: Byte)
    ensures NumberFrom(n, bytes + [b]) == Shifted(NumberFrom(n, bytes), b)
    decreases bytes
  {
    if bytes == [] {
      assert [] + [b] == [b];
      assert NumberFrom(n, [b]) == NumberFrom(Shifted(n, b), []);
    } else {
      assert (bytes + [b])[1..] == bytes[1..] + [b];
      NumberMore(Shifted(n, bytes[0]), bytes[1..], b);
    }
  }

  lemma {:induction false} BigNumber(n: nat, k: nat)
    requires n < Room(k)
    ensures Number(Big(n, k)) == n
    decreases k
  {
    if k > 0 {
      BigNumber(n / 256, k - 1);
      NumberMore(0, Big(n / 256, k - 1), n % 256);
    }
  }

  // ----- sums --------------------------------------------------------------------------

  lemma {:induction false} SumConcat(a: seq<Byte>, b: seq<Byte>)
    ensures SumOf(a + b) == SumOf(a) + SumOf(b)
  {
    if a == [] {
      assert a + b == b;
    } else {
      assert (a + b)[1..] == a[1..] + b;
      SumConcat(a[1..], b);
    }
  }

  lemma SumSingle(b: Byte)
    ensures SumOf([b]) == b as int
  {
    assert SumOf([b][1..]) == 0;
  }

  // One byte changed changes the sum modulo 256.
  lemma SumNotices(a: seq<Byte>, x: Byte, y: Byte, b: seq<Byte>)
    ensures x != y ==> SumOf(a + [x] + b) % 256 != SumOf(a + [y] + b) % 256
  {
    SumConcat(a + [x], b);
    SumConcat(a, [x]);
    SumSingle(x);
    SumConcat(a + [y], b);
    SumConcat(a, [y]);
    SumSingle(y);
  }

  // ----- a data record --------------------------------------------------------------------

  // The bytes of a record: the count, n bytes of address, the data, a checksum.
  function Bytes(address: seq<Byte>, data: seq<Byte>, check: Byte): seq<Byte>
    requires |address| + |data| < 255
  {
    [|address| + |data| + 1] + (address + (data + [check]))
  }

  lemma CountReads(s: Input, p: nat, count: Byte, rest: seq<Byte>)
    requires Spelt(s, p, [count] + rest)
    ensures HexAt(s, p, 1) == Hex([count], p + 2, true) && Spelt(s, p + 2, rest)
  {
    HexParts(s, p, [count], rest);
  }

  lemma LeadReads(s: Input, p: nat, count: Byte, address: seq<Byte>, rest: seq<Byte>) returns (l: Lead)
    requires Spelt(s, p, [count] + (address + rest))
    ensures l == LeadAt(s, p, |address|)
    ensures l == Lead(true, count, Number(address), count as int + SumOf(address), p + 2 + 2 * |address|)
    ensures Spelt(s, l.next, rest)
  {
    CountReads(s, p, count, address + rest);
    HexParts(s, p + 2, address, rest);
    SumSingle(count);
    l := LeadAt(s, p, |address|);
  }

  lemma CheckFits(sum: nat, check: Byte)
    ensures Check(sum) == check <==> (sum + check as int) % 256 == 255
  {
  }

  lemma CheckReads(s: Input, p: nat, check: Byte, sum: nat)
    requires Spelt(s, p, [check])
    ensures Checked(s, p, sum) <==> (sum + check as int) % 256 == 255
    ensures HexAt(s, p, 1).next == p + 2
  {
    HexReads(s, p, [check]);
    CheckFits(sum, check);
  }

  lemma PayloadReads(s: Input, p: nat, address: nat, data: seq<Byte>, check: Byte, sum: nat, m: Machine)
    requires Spelt(s, p, data + [check])
    ensures PayloadAt(s, p, address, |data|, sum, m)
         == Outcome(if (sum + SumOf(data) + check as int) % 256 == 255 then Ok else NotOk,
                    m.(memory := Overlay(m.memory, address, data)), p + 2 * |data| + 2)
  {
    HexParts(s, p, data, [check]);
    CheckReads(s, p + 2 * |data|, check, sum + SumOf(data));
  }

  lemma SumBytes(address: seq<Byte>, data: seq<Byte>, check: Byte)
    requires |address| + |data| < 255
    ensures SumOf(Bytes(address, data, check))
         == |address| + |data| + 1 + SumOf(address) + SumOf(data) + check as int
  {
    SumConcat([|address| + |data| + 1], address + (data + [check]));
    SumConcat(address, data + [check]);
    SumConcat(data, [check]);
    SumSingle(check);
    SumSingle(|address| + |data| + 1);
  }

  lemma DataLed(s: Input, p: nat, n: nat, l: Lead, data: seq<Byte>, check: Byte, m: Machine)
    requires l == LeadAt(s, p, n) && l.ok && l.count == n + |data| + 1 && Spelt(s, l.next, data + [check])
    ensures DataAt(s, p, n, m)
         == Outcome(if (l.sum + SumOf(data) + check as int) % 256 == 255 then Ok else NotOk,
                    m.(memory := Overlay(m.memory, l.address, data)), l.next + 2 * |data| + 2)
  {
    PayloadReads(s, l.next, l.address, data, check, l.sum, m);
  }

  lemma DataParts(s: Input, p: nat, count: Byte, address: seq<Byte>, data: seq<Byte>, check: Byte, m: Machine)
    returns (l: Lead)
    requires count as int == |address| + |data| + 1
    requires Spelt(s, p, [count] + (address + (data + [check])))
    ensures l.sum == count as int + SumOf(address) && l.address == Number(address) && l.next == p + 2 + 2 * |address|
    ensures DataAt(s, p, |address|, m)
         == Outcome(if (l.sum + SumOf(data) + check as int) % 256 == 255 then Ok else NotOk,
                    m.(memory := Overlay(m.memory, l.address, data)), l.next + 2 * |data| + 2)
  {
    l := LeadReads(s, p, count, address, data + [check]);
    DataLed(s, p, |address|, l, data, check, m);
  }

  lemma FinalLed(s: Input, p: nat, n: nat, l: Lead, check: Byte, m: Machine)
    requires l == LeadAt(s, p, n) && l.ok && l.count > n && Spelt(s, l.next, [check])
    ensures FinalAt(s, p, n, m)
         == Outcome(Done, if (l.sum + check as int) % 256 == 255 then m.(go := l.address) else m, l.next + 2)
  {
    CheckReads(s, l.next, check, l.sum);
  }

  lemma FinalParts(s: Input, p: nat, count: Byte, address: seq<Byte>, check: Byte, m: Machine)
    requires count as int == |address| + 1
    requires Spelt(s, p, [count] + (address + [check]))
    ensures FinalAt(s, p, |address|, m)
         == Outcome(Done, if (count as int + SumOf(address) + check as int) % 256 == 255
                          then m.(go := Number(address)) else m,
                    p + 2 + 2 * |address| + 2)
  {
    var l := LeadReads(s, p, count, address, [check]);
    FinalLed(s, p, |address|, l, check, m);
  }

  // A record with a fitting count loads its data in any case, and is accepted
  // exactly when its bytes sum up to 255 modulo 256.
  lemma DataReads(s: Input, p: nat, address: seq<Byte>, data: seq<Byte>, check: Byte, m: Machine)
    requires |address| + |data| < 255
    requires Spelt(s, p, Bytes(address, data, check))
    ensures DataAt(s, p, |address|, m)
         == Outcome(if SumOf(Bytes(address, data, check)) % 256 == 255 then Ok else NotOk,
                    m.(memory := Overlay(m.memory, Number(address), data)),
                    p + 2 * |Bytes(address, data, check)|)
  {
    var l := DataParts(s, p, |address| + |data| + 1, address, data, check, m);
    SumBytes(address, data, check);
  }

  lemma FinalReads(s: Input, p: nat, address: seq<Byte>, check: Byte, m: Machine)
    requires |address| < 255
    requires Spelt(s, p, Bytes(address, [], check))
    ensures FinalAt(s, p, |address|, m)
         == Outcome(Done, if SumOf(Bytes(address, [], check)) % 256 == 255 then m.(go := Number(address)) else m,
                    p + 2 * |Bytes(address, [], check)|)
  {
    assert [] + [check] == [check];
    FinalParts(s, p, |address| + 1, address, check, m);
    SumBytes(address, [], check);
  }

  // ----- damage -------------------------------------------------------------------------------

  lemma DataStatus(s: Input, p: nat, n: nat, bytes: seq<Byte>, m: Machine)
    requires bytes != [] && n < bytes[0] as int == |bytes| - 1
    requires Spelt(s, p, bytes)
    ensures DataAt(s, p, n, m).status == if SumOf(bytes) % 256 == 255 then Ok else NotOk
  {
    var last := |bytes| - 1;
    assert bytes == Bytes(bytes[1..n + 1], bytes[n + 1..last], bytes[last]);
    DataReads(s, p, bytes[1..n + 1], bytes[n + 1..last], bytes[last], m);
  }

  // Of two records that differ in one byte of address, data or checksum (the
  // byte behind the first |front| + 1), at most one is accepted.
  lemma Damage(s: Input, p: nat, t: Input, q: nat, n: nat, count: Byte, front: seq<Byte>, x: Byte, y: Byte,
               rear: seq<Byte>, m: Machine)
    requires n < count as int == |front| + 1 + |rear|
    requires Spelt(s, p, [count] + front + [x] + rear)
    requires Spelt(t, q, [count] + front + [y] + rear)
    requires x != y && DataAt(s, p, n, m).status == Ok
    ensures DataAt(t, q, n, m).status == NotOk
  {
    DataStatus(s, p, n, [count] + front + [x] + rear, m);
    DataStatus(t, q, n, [count] + front + [y] + rear, m);
    SumNotices([count] + front, x, y, rear);
  }

  // ----- what a sender writes ------------------------------------------------------------------

  // n bytes of address: S1, S2 and S3 for data, S9, S8 and S7 at the end.
  datatype Record = Record(n: nat, address: nat, data: seq<Byte>)

  predicate Fits(r: Record) {
    2 <= r.n <= 4 && r.address < Room(r.n) && r.n + |r.data| < 255
  }

  function Written(r: Record): (bytes: seq<Byte>)
    requires Fits(r)
    ensures SumOf(bytes) % 256 == 255
  {
    var a := Big(r.address, r.n);
    var check := Check(SumOf(Bytes(a, r.data, 0)));
    SumBytes(a, r.data, 0);
    SumBytes(a, r.data, check);
    Bytes(a, r.data, check)
  }

  function DataType(n: nat): (c: char)
    requires 2 <= n <= 4
    ensures IsData(c) && Width(c) == n
  {
    if n == 2 then '1' else if n == 3 then '2' else '3'
  }

  function FinalType(n: nat): (c: char)
    requires 2 <= n <= 4
    ensures IsFinal(c) && Width(c) == n
  {
    if n == 2 then '9' else if n == 3 then '8' else '7'
  }

  // The line at p is a record of this type and these bytes, with nothing but
  // white space behind it.
  ghost predicate Carries(s: Input, p: nat, kind: char, bytes: seq<Byte>)
    requires Endless(s)
  {
    var q := Start(s, p);
    && s(q) == 'S'
    && s(q + 1) == kind
    && Spelt(s, q + 2, bytes)
    && Skipped(s, q + 2 + 2 * |bytes|, Ok) == Ok
  }

  // The line at p concerns neither memory nor the start address: it is no
  // record, or of a type that loads nothing.
  predicate Quiet(s: Input, p: nat) {
    var q := Start(s, p);
    s(q) == 'S' ==> !IsData(s(q + 1)) && !IsFinal(s(q + 1))
  }

  datatype Item = Data(record: Record) | Aside

  ghost function NextLine(s: Input, p: nat): nat
    requires Endless(s)
  {
    LineAt(s, p, Machine(map[], 0)).next
  }

  predicate Legal(item: Item) { item.Data? ==> Fits(item.record) }

  ghost predicate ItemAt(s: Input, p: nat, item: Item)
    requires Endless(s) && Legal(item)
  {
    if item.Aside? then Quiet(s, p)
    else Carries(s, p, DataType(item.record.n), Written(item.record))
  }

  // From p on, the items come in, and then a record that ends them.
  ghost predicate Stream(s: Input, p: nat, items: seq<Item>, final: Record)
    requires Endless(s)
    decreases items
  {
    if items == [] then
      Fits(final) && final.data == [] && Carries(s, p, FinalType(final.n), Written(final))
    else
      Legal(items[0]) && ItemAt(s, p, items[0]) && Stream(s, NextLine(s, p), items[1..], final)
  }

  // ----- what comes of it -------------------------------------------------------------------------

  // Every byte the items store, in order, with its address.
  function Stores(address: nat, data: seq<Byte>): seq<(nat, Byte)>
    decreases data
  {
    if data == [] then [] else [(address % ADDRESSES, data[0])] + Stores(address + 1, data[1..])
  }

  function AllStores(items: seq<Item>): seq<(nat, Byte)> {
    if items == [] then []
    else (if items[0].Data? then Stores(items[0].record.address, items[0].record.data) else []) + AllStores(items[1..])
  }

  function Stored(m: Memory, stores: seq<(nat, Byte)>): Memory
    decreases stores
  {
    if stores == [] then m else Stored(m[stores[0].0 := stores[0].1], stores[1..])
  }

  // A record's bytes go to consecutive addresses within 32 bits.
  lemma {:induction false} StoresAt(address: nat, data: seq<Byte>, i: nat)
    requires i < |data|
    ensures |Stores(address, data)| == |data|
    ensures Stores(address, data)[i] == ((address + i) % 0x1_0000_0000, data[i])
    decreases data
  {
    if |data| > 1 {
      StoresAt(address + 1, data[1..], if i == 0 then 0 else i - 1);
    }
  }

  ghost predicate Spares(stores: seq<(nat, Byte)>, a: nat) {
    forall j | 0 <= j < |stores| :: stores[j].0 != a
  }

  lemma {:induction false} StoredElsewhere(m: Memory, stores: seq<(nat, Byte)>, a: nat)
    requires Spares(stores, a)
    ensures (a in Stored(m, stores) <==> a in m) && (a in m ==> Stored(m, stores)[a] == m[a])
    decreases stores
  {
    if stores != [] {
      StoredElsewhere(m[stores[0].0 := stores[0].1], stores[1..], a);
    }
  }

  // The last byte stored at an address is the one that is there in the end.
  lemma {:induction false} StoredLast(m: Memory, stores: seq<(nat, Byte)>, k: nat)
    requires k < |stores| && Spares(stores[k + 1..], stores[k].0)
    ensures stores[k].0 in Stored(m, stores) && Stored(m, stores)[stores[k].0] == stores[k].1
    decreases stores
  {
    var next := m[stores[0].0 := stores[0].1];
    if k == 0 {
      StoredElsewhere(next, stores[1..], stores[0].0);
    } else {
      assert stores[1..][k..] == stores[k + 1..];
      StoredLast(next, stores[1..], k - 1);
    }
  }

  lemma {:induction false} StoredConcat(m: Memory, a: seq<(nat, Byte)>, b: seq<(nat, Byte)>)
    ensures Stored(m, a + b) == Stored(Stored(m, a), b)
    decreases a
  {
    if a == [] {
      assert a + b == b;
    } else {
      assert (a + b)[1..] == a[1..] + b;
      StoredConcat(m[a[0].0 := a[0].1], a[1..], b);
    }
  }

  lemma {:induction false} OverlayStores(m: Memory, address: nat, data: seq<Byte>)
    ensures Overlay(m, address, data) == Stored(m, Stores(address, data))
    decreases data
  {
    if data != [] {
      var stores := Stores(address, data);
      assert stores[1..] == Stores(address + 1, data[1..]);
      OverlayStores(m[address % ADDRESSES := data[0]], address + 1, data[1..]);
    }
  }

  lemma BodyData(s: Input, p: nat, n: nat, m: Machine)
    requires 2 <= n <= 4 && s(p) == DataType(n)
    ensures BodyAt(s, p, m) == DataAt(s, p + 1, n, m)
  {
  }

  lemma DataBody(s: Input, p: nat, r: Record, m: Machine)
    requires Fits(r) && s(p) == DataType(r.n) && Spelt(s, p + 1, Written(r))
    ensures BodyAt(s, p, m) == Outcome(Ok, m.(memory := Stored(m.memory, Stores(r.address, r.data))),
                                       p + 1 + 2 * |Written(r)|)
  {
    var a := Big(r.address, r.n);
    DataReads(s, p + 1, a, r.data, Check(SumOf(Bytes(a, r.data, 0))), m);
    BigNumber(r.address, r.n);
    OverlayStores(m.memory, r.address, r.data);
    BodyData(s, p, r.n, m);
  }

  lemma FinalRecord(s: Input, p: nat, r: Record, m: Machine)
    requires Fits(r) && r.data == [] && Spelt(s, p, Written(r))
    ensures FinalAt(s, p, r.n, m) == Outcome(Done, m.(go := r.address), p + 2 * |Written(r)|)
  {
    var a := Big(r.address, r.n);
    FinalReads(s, p, a, Check(SumOf(Bytes(a, [], 0))), m);
    BigNumber(r.address, r.n);
  }

  lemma BodyFinal(s: Input, p: nat, n: nat, m: Machine)
    requires 2 <= n <= 4 && s(p) == FinalType(n)
    ensures BodyAt(s, p, m) == FinalAt(s, p + 1, n, m)
  {
  }

  lemma FinalBody(s: Input, p: nat, r: Record, m: Machine)
    requires Fits(r) && r.data == [] && s(p) == FinalType(r.n) && Spelt(s, p + 1, Written(r))
    ensures BodyAt(s, p, m) == Outcome(Done, m.(go := r.address), p + 1 + 2 * |Written(r)|)
  {
    BodyFinal(s, p, r.n, m);
    FinalRecord(s, p + 1, r, m);
  }

  lemma CleanEnd(s: Input, o: Outcome)
    requires Endless(s) && Skipped(s, o.next, Ok) == Ok
    ensures Finished(s, o) == Outcome(o.status, o.machine, LineEnd(s, o.next) + 1)
  {
  }

  // With white space alone behind it, a record comes out of its line as it is.
  lemma CarriedLine(s: Input, p: nat, m: Machine, o: Outcome)
    requires Endless(s) && s(Start(s, p)) == 'S'
    requires o == BodyAt(s, Start(s, p) + 1, m) && Skipped(s, o.next, Ok) == Ok
    ensures LineAt(s, p, m) == Outcome(o.status, o.machine, LineEnd(s, o.next) + 1)
  {
    RecordLine(s, p, m);
    CleanEnd(s, o);
  }

  lemma DataLine(s: Input, p: nat, r: Record, m: Machine)
    requires Endless(s) && Fits(r) && Carries(s, p, DataType(r.n), Written(r))
    ensures LineAt(s, p, m) == Outcome(Ok, m.(memory := Stored(m.memory, Stores(r.address, r.data))), NextLine(s, p))
    ensures NextLine(s, p) == LineEnd(s, Start(s, p) + 2 + 2 * |Written(r)|) + 1
  {
    var q, none := Start(s, p) + 1, Machine(map[], 0);
    DataBody(s, q, r, m);
    DataBody(s, q, r, none);
    CarriedLine(s, p, m, BodyAt(s, q, m));
    CarriedLine(s, p, none, BodyAt(s, q, none));
  }

  lemma FinalLine(s: Input, p: nat, r: Record, m: Machine)
    requires Endless(s) && Fits(r) && r.data == [] && Carries(s, p, FinalType(r.n), Written(r))
    ensures LineAt(s, p, m) == Outcome(Done, m.(go := r.address), NextLine(s, p))
  {
    var q, none := Start(s, p) + 1, Machine(map[], 0);
    FinalBody(s, q, r, m);
    FinalBody(s, q, r, none);
    CarriedLine(s, p, m, BodyAt(s, q, m));
    CarriedLine(s, p, none, BodyAt(s, q, none));
  }

  lemma HeaderQuiet(s: Input, p: nat, m: Machine)
    ensures var o, x := HeaderAt(s, p, m), HeaderAt(s, p, Machine(map[], 0));
            o.machine == m && o.status == x.status != Done && o.next == x.next
  {
  }

  lemma CountQuiet(s: Input, p: nat, m: Machine)
    ensures var o, x := CountAt(s, p, m), CountAt(s, p, Machine(map[], 0));
            o.machine == m && o.status == x.status != Done && o.next == x.next
  {
  }

  lemma AsideQuiet(s: Input, p: nat, m: Machine)
    ensures var o, x := AsideAt(s, p, m), AsideAt(s, p, Machine(map[], 0));
            o.machine == m && o.status == x.status != Done && o.next == x.next
  {
    if s(p) == '0' {
      HeaderQuiet(s, p + 1, m);
    } else if s(p) == '5' {
      CountQuiet(s, p + 1, m);
    }
  }

  lemma BodyAside(s: Input, p: nat, m: Machine)
    requires !IsData(s(p)) && !IsFinal(s(p))
    ensures BodyAt(s, p, m) == AsideAt(s, p, m)
  {
  }

  lemma BodyQuiet(s: Input, p: nat, m: Machine)
    requires !IsData(s(p)) && !IsFinal(s(p))
    ensures var o, x := BodyAt(s, p, m), BodyAt(s, p, Machine(map[], 0));
            o.machine == m && o.status == x.status != Done && o.next == x.next
  {
    BodyAside(s, p, m);
    BodyAside(s, p, Machine(map[], 0));
    AsideQuiet(s, p, m);
  }

  lemma QuietLine(s: Input, p: nat, m: Machine)
    requires Endless(s) && Quiet(s, p)
    ensures LineAt(s, p, m).machine == m && LineAt(s, p, m).status != Done
    ensures LineAt(s, p, m).next == NextLine(s, p)
  {
    if s(Start(s, p)) == 'S' {
      BodyQuiet(s, Start(s, p) + 1, m);
    }
  }

  lemma DataGoesOn(s: Input, p: nat, n: nat, m: Machine)
    ensures DataAt(s, p, n, m).status != Done
  {
  }

  lemma BodyEnds(s: Input, p: nat, m: Machine)
    ensures BodyAt(s, p, m).status == Done <==> IsFinal(s(p))
  {
    if IsData(s(p)) {
      DataGoesOn(s, p + 1, Width(s(p)), m);
    } else if !IsFinal(s(p)) {
      BodyQuiet(s, p, m);
    }
  }

  ghost predicate AllBlank(s: Input, p: nat, r: nat) {
    forall k: nat | p <= k < r :: s(k) in {' ', '\t', '\U{0C}', '\r', '\n'}
  }

  lemma SkippedWhen(s: Input, p: nat)
    requires Endless(s)
    ensures Skipped(s, p, Ok) == Ok <==> AllBlank(s, p, LineEnd(s, p))
  {
    var r := LineEnd(s, p);
    if AllBlank(s, p, r) {
      assert forall k | p <= k < r :: Blank(s, k);
    } else {
      var k: nat :| p <= k < r && s(k) !in {' ', '\t', '\U{0C}', '\r', '\n'};
      assert !Blank(s, k);
    }
  }

  // A load ends with a line exactly when that is an end record with nothing
  // but white space behind what was read of it, whatever its checksum.
  lemma EndsWhen(s: Input, p: nat, m: Machine)
    requires Endless(s)
    ensures LineAt(s, p, m).status == Done
       <==> var q := Start(s, p);
            && s(q) == 'S' && IsFinal(s(q + 1))
            && var r := BodyAt(s, q + 1, m).next; AllBlank(s, r, LineEnd(s, r))
  {
    BodyEnds(s, Start(s, p) + 1, m);
    SkippedWhen(s, BodyAt(s, Start(s, p) + 1, m).next);
  }

  // The stream loads: memory is the overlay of all that is stored, in order,
  // and the start address is the one of the last record.
  lemma {:induction false} StreamLoads(s: Input, p: nat, items: seq<Item>, final: Record, m: Machine)
    requires Endless(s) && Stream(s, p, items, final)
    ensures var o := Loaded(s, p, m, |items|);
            o.status == Done && o.machine == Machine(Stored(m.memory, AllStores(items)), final.address)
    decreases items
  {
    if items == [] {
      FinalLine(s, p, final, m);
    } else {
      var first := items[0];
      var stores := if first.Data? then Stores(first.record.address, first.record.data) else [];
      if first.Data? {
        DataLine(s, p, first.record, m);
      } else {
        QuietLine(s, p, m);
      }
      var m' := m.(memory := Stored(m.memory, stores));
      StreamLoads(s, NextLine(s, p), items[1..], final, m');
      StoredConcat(m.memory, stores, AllStores(items[1..]));
    }
  }

  // How the bytes are divided among records, and which types those are, makes
  // no difference.
  lemma SameLoad(s: Input, p: nat, items: seq<Item>, final: Record,
                 t: Input, q: nat, others: seq<Item>, last: Record, m: Machine)
    requires Endless(s) && Stream(s, p, items, final)
    requires Endless(t) && Stream(t, q, others, last)
    requires AllStores(items) == AllStores(others) && final.address == last.address
    ensures Loaded(s, p, m, |items|).machine == Loaded(t, q, m, |others|).machine
  {
    StreamLoads(s, p, items, final, m);
    StreamLoads(t, q, others, last, m);
  }

  lemma {:induction false} StoresConcat(address: nat, a: seq<Byte>, b: seq<Byte>)
    ensures Stores(address, a + b) == Stores(address, a) + Stores(address + |a|, b)
    decreases a
  {
    if a == [] {
      assert a + b == b;
    } else {
      assert (a + b)[1..] == a[1..] + b;
      StoresConcat(address + 1, a[1..], b);
    }
  }

  // A record in two.
  lemma Divided(r: Record, k: nat, n: nat, n': nat)
    requires k <= |r.data|
    ensures AllStores([Data(r)])
         == AllStores([Data(Record(n, r.address, r.data[..k])), Data(Record(n', r.address + k, r.data[k..]))])
  {
    var a, b := Data(Record(n, r.address, r.data[..k])), Data(Record(n', r.address + k, r.data[k..]));
    assert r.data == r.data[..k] + r.data[k..];
    StoresConcat(r.address, r.data[..k], r.data[k..]);
    assert [a, b][1..] == [b] && [b][1..] == [] && [Data(r)][1..] == [];
    assert AllStores([b]) == Stores(r.address + k, r.data[k..]) + AllStores([]);
  }

  method LoadStream(loader: Loader, ghost items: seq<Item>, ghost final: Record)
    requires Endless(loader.input) && Stream(loader.input, loader.pos, items, final)
    modifies loader
    ensures loader.memory == Stored(old(loader.memory), AllStores(items))
    ensures loader.goAddress == final.address
  {
    StreamLoads(loader.input, loader.pos, items, final, loader.State());
    loader.Load(|items|);
  }

  // ----- a sender ------------------------------------------------------------------------------

  datatype Line = Line(kind: char, bytes: seq<Byte>)

  // A line whose S stands at `at`.
  function LineText(l: Line, small: Case, at: nat): string {
    "S" + [l.kind] + Text(l.bytes, small, at + 2) + "\r"
  }

  // Line after line, with a newline between them or without, each letter in
  // either case.
  function LinesText(lines: seq<Line>, newline: bool, small: Case, at: nat): string
    decreases lines
  {
    if lines == [] then ""
    else
      var text := LineText(lines[0], small, at);
      var gap := if newline && |lines| > 1 then "\n" else "";
      text + (gap + LinesText(lines[1..], newline, small, at + |text| + |gap|))
  }

  predicate AllFit(records: seq<Record>) { forall i | 0 <= i < |records| :: Fits(records[i]) }

  function DataLineOf(r: Record): Line
    requires Fits(r)
  {
    Line(DataType(r.n), Written(r))
  }

  function Lines(records: seq<Record>, final: Record): (lines: seq<Line>)
    requires AllFit(records) && Fits(final)
    ensures |lines| == |records| + 1
    decreases records
  {
    if records == [] then [Line(FinalType(final.n), Written(final))]
    else [DataLineOf(records[0])] + Lines(records[1..], final)
  }

  // What is sent for these records.
  function Sent(records: seq<Record>, final: Record, newline: bool, small: Case): string
    requires AllFit(records) && Fits(final)
  {
    LinesText(Lines(records, final), newline, small, 0)
  }

  function Items(records: seq<Record>): seq<Item> {
    if records == [] then [] else [Data(records[0])] + Items(records[1..])
  }

  lemma {:induction false} TextLength(bytes: seq<Byte>, small: Case, at: nat)
    ensures |Text(bytes, small, at)| == 2 * |bytes|
    decreases bytes
  {
    if bytes != [] { TextLength(bytes[1..], small, at + 2); }
  }

  lemma {:induction false} ShowsParts(s: Input, p: nat, a: string, b: string)
    ensures Shows(s, p, a + b) <==> Shows(s, p, a) && Shows(s, p + |a|, b)
    decreases a
  {
    if a == "" {
      assert a + b == b;
    } else {
      assert (a + b)[1..] == a[1..] + b;
      ShowsParts(s, p + 1, a[1..], b);
    }
  }

  lemma ShowsChar(s: Input, p: nat, c: char)
    ensures Shows(s, p, [c]) <==> s(p) == c
  {
    assert [c][1..] == "";
  }

  // A line is shown piece by piece.
  lemma PiecesShown(s: Input, p: nat, kind: char, body: string, rest: string)
    requires Shows(s, p, "S" + [kind] + body + "\r" + rest)
    ensures s(p) == 'S' && s(p + 1) == kind && Shows(s, p + 2, body) && s(p + 2 + |body|) == '\r'
    ensures Shows(s, p + 3 + |body|, rest)
  {
    ShowsParts(s, p, "S" + [kind] + body + "\r", rest);
    ShowsParts(s, p, "S" + [kind] + body, "\r");
    ShowsParts(s, p, "S" + [kind], body);
    ShowsParts(s, p, "S", [kind]);
    ShowsChar(s, p, 'S');
    ShowsChar(s, p + 1, kind);
    ShowsChar(s, p + 2 + |body|, '\r');
  }

  lemma LineShown(s: Input, p: nat, l: Line, small: Case, at: nat, rest: string)
    requires Shows(s, p, LineText(l, small, at) + rest)
    ensures s(p) == 'S' && s(p + 1) == l.kind && Spelt(s, p + 2, l.bytes) && s(p + 2 + 2 * |l.bytes|) == '\r'
    ensures Shows(s, p + 3 + 2 * |l.bytes|, rest)
  {
    TextLength(l.bytes, small, at + 2);
    PiecesShown(s, p, l.kind, Text(l.bytes, small, at + 2), rest);
    TextSpelt(s, p + 2, l.bytes, small, at + 2);
  }

  lemma EndsThere(s: Input, p: nat)
    requires Endless(s) && s(p) == '\r'
    ensures LineEnd(s, p) == p && Skipped(s, p, Ok) == Ok
  {
    assert Ends(s, p);
  }

  lemma GapShown(s: Input, p: nat, gap: string, rest: string)
    requires gap == "" || gap == "\n"
    requires Shows(s, p, gap + rest) && rest != "" && rest[0] == 'S'
    ensures Shows(s, Start(s, p), rest)
  {
    ShowsParts(s, p, gap, rest);
  }

  // The line at p as it is sent, and what is behind it.
  lemma LineSent(s: Input, p: nat, l: Line, small: Case, at: nat, rest: string)
    requires Endless(s) && Shows(s, Start(s, p), LineText(l, small, at) + rest)
    ensures var end := Start(s, p) + 2 + 2 * |l.bytes|;
            Carries(s, p, l.kind, l.bytes) && LineEnd(s, end) == end && Shows(s, end + 1, rest)
  {
    LineShown(s, Start(s, p), l, small, at, rest);
    EndsThere(s, Start(s, p) + 2 + 2 * |l.bytes|);
  }

  lemma LinesFirst(lines: seq<Line>, newline: bool, small: Case, at: nat)
    requires lines != []
    ensures LinesText(lines, newline, small, at) != "" && LinesText(lines, newline, small, at)[0] == 'S'
  {
  }

  // A line in front of others, and the gap behind it.
  lemma LineSpaced(s: Input, p: nat, l: Line, small: Case, at: nat, gap: string, rest: string) returns (end: nat)
    requires Endless(s) && Shows(s, Start(s, p), LineText(l, small, at) + (gap + rest))
    requires (gap == "" || gap == "\n") && rest != "" && rest[0] == 'S'
    ensures end == Start(s, p) + 2 + 2 * |l.bytes| && LineEnd(s, end) == end
    ensures Carries(s, p, l.kind, l.bytes) && Shows(s, Start(s, end + 1), rest)
  {
    LineSent(s, p, l, small, at, gap + rest);
    end := Start(s, p) + 2 + 2 * |l.bytes|;
    GapShown(s, end + 1, gap, rest);
  }

  lemma LinesMore(lines: seq<Line>, newline: bool, small: Case, at: nat, text: string, gap: string, next: nat)
    requires |lines| > 1 && text == LineText(lines[0], small, at) && gap == (if newline then "\n" else "")
    requires next == at + |text| + |gap|
    ensures LinesText(lines, newline, small, at) == text + (gap + LinesText(lines[1..], newline, small, next))
  {
  }

  // The first of several lines, and the text behind it, which stands at `next`.
  lemma FirstSent(s: Input, p: nat, lines: seq<Line>, newline: bool, small: Case, at: nat)
    returns (end: nat, next: nat)
    requires Endless(s) && |lines| > 1 && Shows(s, Start(s, p), LinesText(lines, newline, small, at))
    ensures end == Start(s, p) + 2 + 2 * |lines[0].bytes| && LineEnd(s, end) == end
    ensures Carries(s, p, lines[0].kind, lines[0].bytes)
    ensures Shows(s, Start(s, end + 1), LinesText(lines[1..], newline, small, next))
  {
    var gap := if newline then "\n" else "";
    var text := LineText(lines[0], small, at);
    next := at + |text| + |gap|;
    LinesMore(lines, newline, small, at, text, gap, next);
    LinesFirst(lines[1..], newline, small, next);
    end := LineSpaced(s, p, lines[0], small, at, gap, LinesText(lines[1..], newline, small, next));
  }

  // The lines come in one by one from p on, with nothing but white space
  // between them.
  ghost predicate Placed(s: Input, p: nat, lines: seq<Line>)
    requires Endless(s)
    decreases lines
  {
    lines == [] ||
    var end := Start(s, p) + 2 + 2 * |lines[0].bytes|;
    && Carries(s, p, lines[0].kind, lines[0].bytes) && LineEnd(s, end) == end
    && Placed(s, end + 1, lines[1..])
  }

  lemma LastSent(s: Input, p: nat, l: Line, newline: bool, small: Case, at: nat)
    requires Endless(s) && Shows(s, Start(s, p), LinesText([l], newline, small, at))
    ensures Placed(s, p, [l])
  {
    assert LinesText([l], newline, small, at) == LineText(l, small, at) + "";
    LineSent(s, p, l, small, at, "");
  }

  lemma DataNext(s: Input, p: nat, r: Record, l: Line, end: nat)
    requires Endless(s) && Fits(r) && l == DataLineOf(r) && Carries(s, p, l.kind, l.bytes)
    requires end == Start(s, p) + 2 + 2 * |l.bytes| && LineEnd(s, end) == end
    ensures NextLine(s, p) == end + 1 && ItemAt(s, p, Data(r))
  {
    DataLine(s, p, r, Machine(map[], 0));
  }

  lemma RecordAhead(s: Input, p: nat, q: nat, records: seq<Record>, final: Record)
    requires Endless(s) && records != [] && Fits(records[0]) && ItemAt(s, p, Data(records[0]))
    requires q == NextLine(s, p) && Stream(s, q, Items(records[1..]), final)
    ensures Stream(s, p, Items(records), final)
  {
    assert Items(records)[1..] == Items(records[1..]);
  }

  lemma {:induction false} LinesPlaced(s: Input, p: nat, lines: seq<Line>, newline: bool, small: Case, at: nat)
    requires Endless(s) && lines != [] && Shows(s, Start(s, p), LinesText(lines, newline, small, at))
    ensures Placed(s, p, lines)
    decreases lines
  {
    if |lines| == 1 {
      LastSent(s, p, lines[0], newline, small, at);
    } else {
      var end, next := FirstSent(s, p, lines, newline, small, at);
      LinesPlaced(s, end + 1, lines[1..], newline, small, next);
    }
  }

  lemma LinesParts(records: seq<Record>, final: Record)
    requires records != [] && AllFit(records) && Fits(final)
    ensures AllFit(records[1..]) && Lines(records, final)[0] == DataLineOf(records[0])
    ensures Lines(records, final)[1..] == Lines(records[1..], final)
  {
  }

  lemma FirstPlaced(s: Input, p: nat, lines: seq<Line>) returns (end: nat)
    requires Endless(s) && lines != [] && Placed(s, p, lines)
    ensures end == Start(s, p) + 2 + 2 * |lines[0].bytes| && LineEnd(s, end) == end
    ensures Carries(s, p, lines[0].kind, lines[0].bytes) && Placed(s, end + 1, lines[1..])
  {
    end := Start(s, p) + 2 + 2 * |lines[0].bytes|;
  }

  // A record's line, and where the next line begins.
  lemma RecordPlaced(s: Input, p: nat, r: Record, lines: seq<Line>) returns (q: nat)
    requires Endless(s) && Fits(r) && lines != [] && lines[0] == DataLineOf(r) && Placed(s, p, lines)
    ensures q == NextLine(s, p) && Placed(s, q, lines[1..]) && ItemAt(s, p, Data(r))
  {
    var end := FirstPlaced(s, p, lines);
    DataNext(s, p, r, lines[0], end);
    q := end + 1;
  }

  lemma {:induction false} PlacedStream(s: Input, p: nat, records: seq<Record>, final: Record)
    requires Endless(s) && AllFit(records) && Fits(final) && final.data == []
    requires Placed(s, p, Lines(records, final))
    ensures Stream(s, p, Items(records), final)
    decreases records
  {
    if records != [] {
      LinesParts(records, final);
      var q := RecordPlaced(s, p, records[0], Lines(records, final));
      PlacedStream(s, q, records[1..], final);
      RecordAhead(s, p, q, records, final);
    }
  }

  lemma SentStream(s: Input, p: nat, records: seq<Record>, final: Record, newline: bool, small: Case)
    requires Endless(s) && AllFit(records) && Fits(final) && final.data == []
    requires Shows(s, Start(s, p), Sent(records, final, newline, small))
    ensures Stream(s, p, Items(records), final)
  {
    LinesPlaced(s, p, Lines(records, final), newline, small, 0);
    PlacedStream(s, p, records, final);
  }

  // The text on the wire, and carriage returns for ever after.
  function Wire(text: string): Input {
    (i: nat) => if i < |text| then text[i] else '\r'
  }

  lemma {:induction false} WireShows(text: string, p: nat)
    requires p <= |text|
    ensures Shows(Wire(text), p, text[p..])
    decreases |text| - p
  {
    if p < |text| {
      WireShows(text, p + 1);
      assert text[p..][1..] == text[p + 1..];
    }
  }

  lemma WireEndless(text: string)
    ensures Endless(Wire(text))
  {
    var s := Wire(text);
    forall p: nat ensures LineEnds(s, p) {
      assert Ends(s, if p < |text| then |text| else p);
    }
  }

  lemma {:induction false} ItemsLength(records: seq<Record>)
    ensures |Items(records)| == |records|
  {
    if records != [] { ItemsLength(records[1..]); }
  }

  // From records to memory: what is sent is loaded, in letters of either case.
  lemma SentLoads(records: seq<Record>, final: Record, newline: bool, small: Case, m: Machine)
    requires AllFit(records) && Fits(final) && final.data == []
    ensures var s := Wire(Sent(records, final, newline, small));
            && Endless(s) && Stream(s, 0, Items(records), final)
            && var o := Loaded(s, 0, m, |records|);
               o.status == Done && o.machine == Machine(Stored(m.memory, AllStores(Items(records))), final.address)
  {
    var text := Sent(records, final, newline, small);
    var s := Wire(text);
    WireEndless(text);
    WireShows(text, 0);
    LinesFirst(Lines(records, final), newline, small, 0);
    assert text[0..] == text;
    SentStream(s, 0, records, final, newline, small);
    ItemsLength(records);
    StreamLoads(s, 0, Items(records), final, m);
  }
}
