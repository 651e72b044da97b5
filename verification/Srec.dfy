// The S-record loader of src/micromon/load_cmd.c, reading characters as they
// come in over the serial line.
module Srec {
  type Byte = b: nat | b < 256

  // What the sender sends, character by character, without an end.
  type Input = nat -> char

  type Memory = map<nat, Byte>

  const ADDRESSES: nat := 0x1_0000_0000

  // ----- hexadecimal ----------------------------------------------------------------

  function HexVal(c: char): (v: int)
    ensures -1 <= v < 16
  {
    if '0' <= c <= '9' then c as int - '0' as int
    else if 'a' <= c <= 'f' then c as int - 'a' as int + 10
    else if 'A' <= c <= 'F' then c as int - 'A' as int + 10
    else -1
  }

  // What is found where k bytes in hexadecimal are looked for: the bytes up to
  // the first character that is no digit, which is read as well.
  datatype Hex = Hex(bytes: seq<Byte>, next: nat, ok: bool)

  function HexAt(s: Input, p: nat, k: nat): (h: Hex)
    ensures h.next >= p && |h.bytes| <= k && (h.ok <==> |h.bytes| == k)
    decreases k
  {
    if k == 0 then Hex([], p, true)
    else if HexVal(s(p)) < 0 then Hex([], p + 1, false)
    else if HexVal(s(p + 1)) < 0 then Hex([], p + 2, false)
    else
      var h := HexAt(s, p + 2, k - 1);
      Hex([16 * HexVal(s(p)) + HexVal(s(p + 1))] + h.bytes, h.next, h.ok)
  }

  function SumOf(bytes: seq<Byte>): nat {
    if bytes == [] then 0 else (bytes[0] as int) + SumOf(bytes[1..])
  }

  // One more byte at the low end.
  function Shifted(n: nat, b: Byte): nat { 256 * n + b as int }

  // Big-endian bytes behind a number already read.
  function NumberFrom(n: nat, bytes: seq<Byte>): nat
    decreases bytes
  {
    if bytes == [] then n else NumberFrom(Shifted(n, bytes[0]), bytes[1..])
  }

  // The number big-endian bytes stand for.
  function Number(bytes: seq<Byte>): nat { NumberFrom(0, bytes) }

  // The checksum that goes with a sum.
  function Check(sum: nat): Byte { 255 - sum % 256 }

  // ----- one record ----------------------------------------------------------------------

  datatype Status = Ok | NotOk | Done

  datatype Machine = Machine(memory: Memory, go: nat)

  datatype Outcome = Outcome(status: Status, machine: Machine, next: nat)

  function Overlay(m: Memory, address: nat, bytes: seq<Byte>): Memory
    decreases bytes
  {
    if bytes == [] then m
    else Overlay(m[address % ADDRESSES := bytes[0]], address + 1, bytes[1..])
  }

  // The checksum at p against the sum so far. Text that is no number counts as
  // zero.
  function Checked(s: Input, p: nat, sum: nat): bool {
    var x := HexAt(s, p, 1);
    Check(sum) == if x.ok then x.bytes[0] else 0
  }

  // Count and address, n bytes long.
  datatype Lead = Lead(ok: bool, count: nat, address: nat, sum: nat, next: nat)

  function LeadAt(s: Input, p: nat, n: nat): Lead {
    var c := HexAt(s, p, 1);
    var a := HexAt(s, c.next, n);
    Lead(c.ok && a.ok, if c.ok then c.bytes[0] else 0, Number(a.bytes),
         SumOf(c.bytes) + SumOf(a.bytes), a.next)
  }

  // The data and the checksum of a record: the data goes to memory as it comes in.
  function PayloadAt(s: Input, p: nat, address: nat, k: nat, sum: nat, m: Machine): Outcome {
    var d := HexAt(s, p, k);
    var m' := m.(memory := Overlay(m.memory, address, d.bytes));
    if !d.ok then Outcome(NotOk, m', d.next)
    else Outcome(if Checked(s, d.next, sum + SumOf(d.bytes)) then Ok else NotOk, m', HexAt(s, d.next, 1).next)
  }

  // S1, S2 and S3, after the type.
  function DataAt(s: Input, p: nat, n: nat, m: Machine): Outcome {
    var l := LeadAt(s, p, n);
    if !l.ok || l.count <= n then Outcome(NotOk, m, l.next)
    else PayloadAt(s, l.next, l.address, l.count - n - 1, l.sum, m)
  }

  lemma DataRefused(s: Input, p: nat, n: nat, l: Lead, m: Machine)
    requires l == LeadAt(s, p, n) && (!l.ok || l.count <= n)
    ensures DataAt(s, p, n, m) == Outcome(NotOk, m, l.next)
  {
  }

  lemma DataTaken(s: Input, p: nat, n: nat, l: Lead, m: Machine)
    requires l == LeadAt(s, p, n) && l.ok && l.count > n
    ensures DataAt(s, p, n, m) == PayloadAt(s, l.next, l.address, l.count - n - 1, l.sum, m)
  {
  }

  // S9, S8 and S7: the end in any case, the start address only when all is well.
  function FinalAt(s: Input, p: nat, n: nat, m: Machine): Outcome {
    var l := LeadAt(s, p, n);
    if !l.ok || l.count <= n then Outcome(Done, m, l.next)
    else Outcome(Done, if Checked(s, l.next, l.sum) then m.(go := l.address) else m, HexAt(s, l.next, 1).next)
  }

  // S0: the name it carries goes nowhere, and only its shape matters.
  function JunkEnd(s: Input, p: nat, k: nat): (q: nat)
    ensures q >= p
    decreases k
  {
    if k == 0 then p else JunkEnd(s, HexAt(s, p, 1).next, k - 1)
  }

  function HeaderAt(s: Input, p: nat, m: Machine): Outcome {
    var l := LeadAt(s, p, 2);
    if !l.ok || l.address != 0 || l.count < 3 then Outcome(NotOk, m, l.next)
    else Outcome(Ok, m, HexAt(s, JunkEnd(s, l.next, l.count - 3), 1).next)
  }

  // S5: a count of 3 goes with the four bytes read as the address.
  function CountAt(s: Input, p: nat, m: Machine): Outcome {
    var l := LeadAt(s, p, 4);
    if !l.ok || l.count != 3 then Outcome(NotOk, m, l.next)
    else Outcome(if Checked(s, l.next, l.sum) then Ok else NotOk, m, HexAt(s, l.next, 1).next)
  }

  predicate IsData(kind: char) { kind == '1' || kind == '2' || kind == '3' }
  predicate IsFinal(kind: char) { kind == '7' || kind == '8' || kind == '9' }

  // How many bytes of address a type of record has.
  function Width(kind: char): (n: nat)
    ensures 2 <= n <= 4
  {
    match kind
    case '1' => 2
    case '9' => 2
    case '2' => 3
    case '8' => 3
    case _ => 4
  }

  // The types that load nothing.
  function AsideAt(s: Input, p: nat, m: Machine): Outcome {
    if s(p) == '0' then HeaderAt(s, p + 1, m)
    else if s(p) == '5' then CountAt(s, p + 1, m)
    else Outcome(Ok, m, p + 1)
  }

  // What follows the S.
  function BodyAt(s: Input, p: nat, m: Machine): Outcome {
    if IsData(s(p)) then DataAt(s, p + 1, Width(s(p)), m)
    else if IsFinal(s(p)) then FinalAt(s, p + 1, Width(s(p)), m)
    else AsideAt(s, p, m)
  }

  // ----- lines ---------------------------------------------------------------------------

  predicate IsSpace(c: char) { c == ' ' || c == '\t' || c == '\U{0C}' || c == '\r' || c == '\n' }

  predicate Ends(s: Input, p: nat) { s(p) == '\r' }

  ghost predicate LineEnds(s: Input, p: nat) { exists q: nat :: q >= p && Ends(s, q) }

  // The sender goes on ending lines.
  ghost predicate Endless(s: Input) { forall p: nat :: LineEnds(s, p) }

  // The line with the character at p ends at r.
  ghost predicate EndsAt(s: Input, p: nat, r: nat) {
    p <= r && Ends(s, r) && forall k | p <= k < r :: !Ends(s, k)
  }

  lemma {:induction false} FirstEnd(s: Input, p: nat, q: nat) returns (r: nat)
    requires p <= q && Ends(s, q)
    ensures EndsAt(s, p, r)
    decreases q - p
  {
    if Ends(s, p) {
      r := p;
    } else {
      r := FirstEnd(s, p + 1, q);
    }
  }

  lemma HasEnd(s: Input, p: nat)
    requires Endless(s)
    ensures exists r: nat :: EndsAt(s, p, r)
  {
    assert LineEnds(s, p);
    var q: nat :| q >= p && Ends(s, q);
    var r := FirstEnd(s, p, q);
  }

  // The next carriage return.
  ghost function LineEnd(s: Input, p: nat): (r: nat)
    requires Endless(s)
    ensures EndsAt(s, p, r)
  {
    HasEnd(s, p);
    var r: nat :| EndsAt(s, p, r);
    r
  }

  predicate Blank(s: Input, k: nat) { IsSpace(s(k)) }

  // The rest of the line: anything but white space spoils the record.
  ghost function Skipped(s: Input, p: nat, status: Status): Status
    requires Endless(s)
  {
    if forall k | p <= k < LineEnd(s, p) :: Blank(s, k) then status else NotOk
  }

  // A record with the rest of its line read.
  ghost function Finished(s: Input, o: Outcome): Outcome
    requires Endless(s)
  {
    Outcome(Skipped(s, o.next, o.status), o.machine, LineEnd(s, o.next) + 1)
  }

  // Where the text of the line at p begins.
  function Start(s: Input, p: nat): nat { if s(p) == '\n' then p + 1 else p }

  // One line: a newline left over from the last one is passed over, and a line
  // that does not begin with S is not looked at.
  ghost function LineAt(s: Input, p: nat, m: Machine): Outcome
    requires Endless(s)
  {
    var q := Start(s, p);
    if s(q) != 'S' then Outcome(NotOk, m, LineEnd(s, q) + 1)
    else Finished(s, BodyAt(s, q + 1, m))
  }

  lemma GarbageLine(s: Input, p: nat, m: Machine)
    requires Endless(s) && s(Start(s, p)) != 'S'
    ensures LineAt(s, p, m) == Outcome(NotOk, m, LineEnd(s, Start(s, p)) + 1)
  {
  }

  lemma RecordLine(s: Input, p: nat, m: Machine)
    requires Endless(s) && s(Start(s, p)) == 'S'
    ensures LineAt(s, p, m) == Finished(s, BodyAt(s, Start(s, p) + 1, m))
  {
  }

  // Line after line, at most k more of them, up to the one that ends the load.
  ghost function Loaded(s: Input, p: nat, m: Machine, k: nat): Outcome
    requires Endless(s)
    decreases k
  {
    var o := LineAt(s, p, m);
    if k == 0 || o.status == Done then o else Loaded(s, o.next, o.machine, k - 1)
  }

  // ----- the loader ------------------------------------------------------------------------

  ghost predicate LeadsTo(s: Input, p: nat, m: Machine, k: nat, result: Outcome)
    requires Endless(s)
  {
    Loaded(s, p, m, k) == result
  }

  lemma LoadedStep(s: Input, p: nat, m: Machine, k: nat)
    requires Endless(s)
    ensures var o := LineAt(s, p, m);
            Loaded(s, p, m, k) == if k == 0 || o.status == Done then o else Loaded(s, o.next, o.machine, k - 1)
  {
  }

  lemma SingleNumber(bytes: seq<Byte>)
    requires |bytes| == 1
    ensures Number(bytes) == bytes[0] as int && bytes == [bytes[0]]
  {
    assert NumberFrom(0, bytes) == NumberFrom(Shifted(0, bytes[0]), []) by {
      assert bytes[1..] == [];
    }
  }

  // With `rest` still to come and `sum` counted, what was to be read is `all`
  // and what was counted before it `start`.
  ghost predicate Awaits(all: Hex, start: nat, rest: Hex, sum: nat) {
    && all.next == rest.next
    && all.ok == rest.ok
    && start + SumOf(all.bytes) == sum + SumOf(rest.bytes)
  }

  // Storing the bytes still to come leads to `target`.
  ghost predicate StillTo(m: Memory, address: nat, rest: seq<Byte>, target: Memory) {
    Overlay(m, address, rest) == target
  }

  lemma HexStep(s: Input, p: nat, k: nat)
    requires k > 0
    ensures var b, h := HexAt(s, p, 1), HexAt(s, p, k);
            if !b.ok then h == Hex([], b.next, false)
            else
              var rest := HexAt(s, b.next, k - 1);
              |b.bytes| == 1 && h == Hex(b.bytes + rest.bytes, rest.next, rest.ok)
  {
    assert HexAt(s, p + 2, 0) == Hex([], p + 2, true);
  }

  lemma NextByte(n: nat, byte: Byte, rest: seq<Byte>)
    ensures SumOf([byte] + rest) == byte as int + SumOf(rest)
    ensures NumberFrom(n, [byte] + rest) == NumberFrom(Shifted(n, byte), rest)
  {
    assert ([byte] + rest)[1..] == rest;
  }

  lemma NextStore(m: Memory, address: nat, byte: Byte, rest: seq<Byte>)
    ensures Overlay(m, address, [byte] + rest) == Overlay(m[address % ADDRESSES := byte], address + 1, rest)
  {
    assert ([byte] + rest)[1..] == rest;
  }

  class Loader {
    const input: Input
    var pos: nat
    var xsum: nat
    var memory: Memory
    var goAddress: nat

    constructor (input: Input, memory: Memory, goAddress: nat)
      ensures this.input == input && pos == 0
      ensures this.memory == memory && this.goAddress == goAddress
    {
      this.input := input;
      this.memory := memory;
      this.goAddress := goAddress;
      pos := 0;
      xsum := 0;
    }

    ghost function State(): Machine
      reads this
    {
      Machine(memory, goAddress)
    }

    method GetChar() returns (c: char)
      modifies this`pos
      ensures c == input(old(pos)) && pos == old(pos) + 1
    {
      c := input(pos);
      pos := pos + 1;
    }

    // The two digits of a byte.
    method GetByte() returns (byte: Byte, error: bool)
      modifies this`pos
      ensures var h := HexAt(input, old(pos), 1);
              error == !h.ok && pos == h.next && (h.ok ==> h.bytes == [byte])
    {
      byte := 0;
      var c := GetChar();
      var high := HexVal(c);
      if high == -1 {
        return 0, true;
      }
      c := GetChar();
      var low := HexVal(c);
      if low == -1 {
        return 0, true;
      }
      return 16 * high + low, false;
    }

    // Two rounds of the loop of get_hex_bytes, with k bytes to come.
    method ReadPair(value0: nat, ghost k: nat) returns (value: nat, error: bool)
      requires k > 0
      modifies this`pos, this`xsum
      ensures var h := HexAt(input, old(pos), k);
              if error then
                h == Hex([], pos, false) && xsum == old(xsum)
              else
                var rest := HexAt(input, pos, k - 1);
                && Awaits(h, old(xsum), rest, xsum)
                && NumberFrom(value0, h.bytes) == NumberFrom(value, rest.bytes)
    {
      HexStep(input, pos, k);
      var byte;
      byte, error := GetByte();
      value := value0;
      if !error {
        NextByte(value0, byte, HexAt(input, pos, k - 1).bytes);
        value := Shifted(value0, byte);
        xsum := xsum + byte;
      }
    }

    // The loop of get_hex_bytes, over k0 bytes.
    method ReadNumber(k0: nat) returns (value: nat, error: bool)
      modifies this`pos, this`xsum
      ensures var h := HexAt(input, old(pos), k0);
              && error == !h.ok && pos == h.next && xsum == old(xsum) + SumOf(h.bytes)
              && value == if h.ok then Number(h.bytes) else 0
    {
      value := 0;
      ghost var all, sum := HexAt(input, pos, k0), xsum;
      var k := k0;
      while k > 0
        invariant Awaits(all, sum, HexAt(input, pos, k), xsum)
        invariant NumberFrom(value, HexAt(input, pos, k).bytes) == Number(all.bytes)
      {
        value, error := ReadPair(value, k);
        if error {
          return 0, true;
        }
        k := k - 1;
      }
      error := false;
    }

    // get_hex_bytes, told the number of digits. A digit string that breaks off
    // leaves zero, and the bytes before the break in the checksum. An odd digit at
    // the end has to be one, and goes nowhere.
    method GetHexBytes(digits: int) returns (value: nat, error: bool)
      modifies this`pos, this`xsum
      ensures digits < 0 || digits > 8 ==> error && value == 0 && pos == old(pos) && xsum == old(xsum)
      ensures 0 <= digits <= 8 ==>
                var h, odd := HexAt(input, old(pos), digits / 2), digits % 2 == 1;
                && error == !(h.ok && (odd ==> HexVal(input(h.next)) >= 0))
                && pos == (if h.ok && odd then h.next + 1 else h.next)
                && xsum == old(xsum) + SumOf(h.bytes)
                && value == if error then 0 else Number(h.bytes)
    {
      if digits < 0 || digits > 8 {
        return 0, true;
      }
      value, error := ReadNumber(digits / 2);
      if !error && digits % 2 == 1 {
        var c := GetChar();
        if HexVal(c) == -1 {
          return 0, true;
        }
      }
    }

    // get_hex_bytes as it is called: for n whole bytes.
    method GetWhole(n: nat) returns (value: nat, error: bool)
      requires n <= 4
      modifies this`pos, this`xsum
      ensures var h := HexAt(input, old(pos), n);
              && error == !h.ok && pos == h.next && xsum == old(xsum) + SumOf(h.bytes)
              && value == if h.ok then Number(h.bytes) else 0
    {
      value, error := GetHexBytes(2 * n);
    }

    method CompareXsums() returns (same: bool)
      modifies this`pos, this`xsum
      ensures same == Checked(input, old(pos), old(xsum))
      ensures pos == HexAt(input, old(pos), 1).next
    {
      var expected := 255 - xsum % 256;
      ghost var h := HexAt(input, pos, 1);
      var received, error := GetWhole(1);
      same := expected == received;
      if h.ok {
        SingleNumber(h.bytes);
      }
    }

    // get_hex_bytes(2), as a byte.
    method NextByteOf() returns (value: Byte, error: bool)
      modifies this`pos, this`xsum
      ensures var h := HexAt(input, old(pos), 1);
              && error == !h.ok && pos == h.next
              && (h.ok ==> h.bytes == [value] && xsum == old(xsum) + value as int)
              && (error ==> xsum == old(xsum))
    {
      ghost var h := HexAt(input, pos, 1);
      var n: nat;
      n, error := GetWhole(1);
      if error {
        return 0, true;
      }
      SingleNumber(h.bytes);
      value := n;
    }

    // The body of the loop of read_data, with the k bytes of `all` to come: a byte
    // is stored as soon as it is complete.
    method StoreByte(address: nat, ghost k: nat, ghost all: Hex, ghost target: Memory)
      returns (error: bool, ghost rest: Hex)
      requires k > 0 && all == HexAt(input, pos, k) && StillTo(memory, address, all.bytes, target)
      modifies this`pos, this`xsum, this`memory
      ensures error ==> all == Hex([], pos, false) && xsum == old(xsum) && memory == old(memory)
      ensures !error ==>
                && rest == HexAt(input, pos, k - 1)
                && Awaits(all, old(xsum), rest, xsum)
                && StillTo(memory, address + 1, rest.bytes, target)
    {
      HexStep(input, pos, k);
      var value;
      value, error := NextByteOf();
      rest := HexAt(input, pos, k - 1);
      if !error {
        NextByte(0, value, rest.bytes);
        NextStore(memory, address, value, rest.bytes);
        memory := memory[address % ADDRESSES := value];
      }
    }

    // read_data
    method ReadData(address: nat, count: nat) returns (ok: bool)
      modifies this`pos, this`xsum, this`memory
      ensures var d := HexAt(input, old(pos), count);
              && ok == d.ok && pos == d.next && xsum == old(xsum) + SumOf(d.bytes)
              && memory == Overlay(old(memory), address, d.bytes)
    {
      ghost var all, sum := HexAt(input, pos, count), xsum;
      ghost var target, rest, k := Overlay(memory, address, all.bytes), all, count;
      var to := address;
      for i := 0 to count
        invariant k == count - i && rest == HexAt(input, pos, k)
        invariant Awaits(all, sum, rest, xsum)
        invariant StillTo(memory, to, rest.bytes, target)
      {
        var error;
        error, rest := StoreByte(to, k, rest, target);
        if error {
          return false;
        }
        to, k := to + 1, k - 1;
      }
      return true;
    }

    // The count and an address of n bytes.
    method ReadLead(n: nat) returns (count: nat, address: nat, ok: bool, ghost l: Lead)
      requires n <= 4
      modifies this`pos, this`xsum
      ensures l == LeadAt(input, old(pos), n)
      ensures ok == l.ok && pos == l.next && xsum == old(xsum) + l.sum
      ensures ok ==> count == l.count && address == l.address
    {
      l := LeadAt(input, pos, n);
      ghost var h := HexAt(input, pos, 1);
      var countError, addressError;
      count, countError := GetWhole(1);
      address, addressError := GetWhole(n);
      ok := !countError && !addressError;
      if h.ok {
        SingleNumber(h.bytes);
      }
    }

    method LoadPayload(address: nat, k: nat) returns (status: Status)
      modifies this
      ensures Outcome(status, State(), pos) == PayloadAt(input, old(pos), address, k, old(xsum), old(State()))
    {
      var ok := ReadData(address, k);
      if !ok {
        return NotOk;
      }
      var same := CompareXsums();
      return if same then Ok else NotOk;
    }

    // The data and the checksum behind count and address.
    method LoadBehind(count: nat, address: nat, n: nat, ghost p: nat, ghost l: Lead) returns (status: Status)
      requires l == LeadAt(input, p, n) && l.ok && l.count == count > n && l.address == address
      requires pos == l.next && xsum == l.sum
      modifies this
      ensures Outcome(status, State(), pos) == DataAt(input, p, n, old(State()))
    {
      DataTaken(input, p, n, l, State());
      status := LoadPayload(address, count - n - 1);
    }

    method LoadData(n: nat) returns (status: Status)
      requires n <= 4 && xsum == 0
      modifies this
      ensures Outcome(status, State(), pos) == DataAt(input, old(pos), n, old(State()))
    {
      ghost var p, m := pos, State();
      var count, address, ok, l := ReadLead(n);
      if !ok || count <= n {
        DataRefused(input, p, n, l, m);
        return NotOk;
      }
      status := LoadBehind(count, address, n, p, l);
    }

    method LoadFinal(n: nat) returns (status: Status)
      requires n <= 4 && xsum == 0
      modifies this
      ensures Outcome(status, State(), pos) == FinalAt(input, old(pos), n, old(State()))
    {
      var count, address, ok, l := ReadLead(n);
      if ok && count > n {
        var same := CompareXsums();
        if same {
          goAddress := address;
        }
      }
      return Done;
    }

    method SkipName(k: nat)
      modifies this`pos, this`xsum
      ensures pos == JunkEnd(input, old(pos), k)
    {
      ghost var end := JunkEnd(input, pos, k);
      for i := 0 to k
        invariant JunkEnd(input, pos, k - i) == end
      {
        var value, error := NextByteOf();
      }
    }

    method LoadHeader() returns (status: Status)
      requires xsum == 0
      modifies this
      ensures Outcome(status, State(), pos) == HeaderAt(input, old(pos), old(State()))
    {
      var count, address, ok, l := ReadLead(2);
      if !ok || address != 0 || count < 3 {
        return NotOk;
      }
      SkipName(count - 3);
      var same := CompareXsums();
      return Ok;
    }

    method LoadCount() returns (status: Status)
      requires xsum == 0
      modifies this
      ensures Outcome(status, State(), pos) == CountAt(input, old(pos), old(State()))
    {
      var count, address, ok, l := ReadLead(4);
      if !ok || count != 3 {
        return NotOk;
      }
      var same := CompareXsums();
      return if same then Ok else NotOk;
    }

    method LoadAside(c: char) returns (status: Status)
      requires xsum == 0 && pos > 0 && c == input(pos - 1)
      modifies this
      ensures Outcome(status, State(), pos) == AsideAt(input, old(pos) - 1, old(State()))
    {
      match c {
        case '0' => status := LoadHeader();
        case '5' => status := LoadCount();
        case _ => status := Ok;
      }
    }

    method LoadBody() returns (status: Status)
      requires xsum == 0
      modifies this
      ensures Outcome(status, State(), pos) == BodyAt(input, old(pos), old(State()))
    {
      var c := GetChar();
      match c {
        case '1' => status := LoadData(2);
        case '2' => status := LoadData(3);
        case '3' => status := LoadData(4);
        case '7' => status := LoadFinal(4);
        case '8' => status := LoadFinal(3);
        case '9' => status := LoadFinal(2);
        case _ => status := LoadAside(c);
      }
    }

    // The loop over a line that is no record, its first character read.
    method SkipGarbage(first: char)
      requires Endless(input) && pos > 0 && first == input(pos - 1)
      modifies this`pos
      ensures pos == LineEnd(input, old(pos) - 1) + 1
    {
      var c := first;
      ghost var start := pos - 1;
      while c != '\r'
        invariant pos > start && c == input(pos - 1) && pos - 1 <= LineEnd(input, start)
        decreases LineEnd(input, start) - pos
      {
        assert !Ends(input, pos - 1);
        c := GetChar();
      }
      assert Ends(input, pos - 1);
    }

    // The loop over what a record leaves of its line.
    method FinishLine(body: Status) returns (status: Status)
      requires Endless(input)
      modifies this`pos
      ensures status == Skipped(input, old(pos), body) && pos == LineEnd(input, old(pos)) + 1
    {
      status := body;
      ghost var start := pos;
      var c := GetChar();
      while c != '\r'
        invariant pos > start && c == input(pos - 1) && pos - 1 <= LineEnd(input, start)
        invariant status == if forall k | start <= k < pos - 1 :: Blank(input, k) then body else NotOk
        decreases LineEnd(input, start) - pos
      {
        assert !Ends(input, pos - 1) && Blank(input, pos - 1) == IsSpace(c);
        if !IsSpace(c) {
          status := NotOk;
        }
        c := GetChar();
      }
      assert Ends(input, pos - 1);
    }

    // A record whose S has been read, and the rest of its line.
    method LoadRecord() returns (status: Status)
      requires Endless(input)
      modifies this
      ensures Outcome(status, State(), pos) == Finished(input, BodyAt(input, old(pos), old(State())))
    {
      xsum := 0;
      var body := LoadBody();
      ghost var o := Outcome(body, State(), pos);
      status := FinishLine(body);
      assert Outcome(status, State(), pos) == Finished(input, o);
    }

    // What is made of a line, its first character read.
    method LoadFrom(c: char, ghost p: nat) returns (status: Status)
      requires Endless(input) && pos == Start(input, p) + 1 && c == input(Start(input, p))
      modifies this
      ensures Outcome(status, State(), pos) == LineAt(input, p, old(State()))
    {
      if c != 'S' {
        GarbageLine(input, p, State());
        SkipGarbage(c);
        return NotOk;
      }
      RecordLine(input, p, State());
      status := LoadRecord();
    }

    // load_single_srec
    method LoadSingle() returns (status: Status)
      requires Endless(input)
      modifies this
      ensures Outcome(status, State(), pos) == LineAt(input, old(pos), old(State()))
    {
      ghost var p := pos;
      var c := GetChar();
      if c == '\n' {
        c := GetChar();
      }
      status := LoadFrom(c, p);
    }

    // One round of the loop of handle_load_command, with a last line to come.
    method LoadLine(ghost result: Outcome, ghost k: nat) returns (status: Status)
      requires Endless(input) && result.status == Done
      requires LeadsTo(input, pos, State(), k, result)
      modifies this
      ensures status == Done ==> result == Outcome(Done, State(), pos)
      ensures status != Done ==> k > 0 && LeadsTo(input, pos, State(), k - 1, result)
    {
      LoadedStep(input, pos, State(), k);
      status := LoadSingle();
    }

    // The loop of handle_load_command. It has an end when one of the lines to
    // come, the k-th at the latest, is the last one.
    method Load(ghost k0: nat)
      requires Endless(input)
      requires Loaded(input, pos, State(), k0).status == Done
      modifies this
      ensures Outcome(Done, State(), pos) == Loaded(input, old(pos), old(State()), k0)
    {
      ghost var result, left := Loaded(input, pos, State(), k0), k0 + 1;
      var status := NotOk;
      while status != Done
        invariant status == Done ==> result == Outcome(Done, State(), pos)
        invariant status != Done ==> left > 0 && LeadsTo(input, pos, State(), left - 1, result)
        decreases left
      {
        left := left - 1;
        status := LoadLine(result, left);
      }
    }
  }
}
