/** REP MOVS and REP STOS in the instruction emulator (host/kvm/emulate.c:1356-1379, 3041-3048,
    5131-5147, 5229-5237, 5384-5418 and the restart in x86.c:9194-9246).

    One call of the emulator moves one element.  It asks to be restarted at once, keeping decoded
    operands, or returns to the guest, which executes the instruction again.  Memory accesses are
    assumed to succeed. */
module RepString {
  import opened Arith

  /** What decoding finds out and the guest does not change meanwhile. */
  datatype Insn = Insn(
    movs: bool,              // MOVS, else STOS
    opBytes: nat,            // bytes per element
    adBytes: nat,            // address size
    df: bool,                // direction flag
    srcBase: nat, dstBase: nat,
    linear: nat,             // size of the linear address space
    accumulator: seq<Byte>,  // the low bytes of RAX, for STOS
    intel: bool)

  predicate ValidInsn(i: Insn) {
    && (i.opBytes == 1 || i.opBytes == 2 || i.opBytes == 4 || i.opBytes == 8)
    && (i.adBytes == 2 || i.adBytes == 4 || i.adBytes == 8)
    && (i.linear == 0x1_0000_0000 || i.linear == TWO_64)
    && |i.accumulator| == i.opBytes
  }

  // ----- registers and memory -----

  function AddressSpace(adBytes: nat): nat
    requires adBytes == 2 || adBytes == 4 || adBytes == 8
    ensures AddressSpace(adBytes) > 0
  {
    if adBytes == 2 then 0x1_0000 else if adBytes == 4 then 0x1_0000_0000 else TWO_64
  }

  /** address_mask */
  function Mask(i: Insn, r: U64): nat
    requires ValidInsn(i)
  {
    r % AddressSpace(i.adBytes)
  }

  /** register_address_increment: 16-bit writes keep the upper bits, 32-bit writes clear them. */
  function Increment(i: Insn, r: U64, inc: int): U64
    requires ValidInsn(i)
  {
    if i.adBytes == 2 then r / 0x1_0000 * 0x1_0000 + (r + inc) % 0x1_0000
    else (r + inc) % AddressSpace(i.adBytes)
  }

  /** How far the index registers move for one element. */
  function Stride(i: Insn): int {
    if i.df then 0 - i.opBytes else i.opBytes
  }

  /** How far the k-th element lies from the first: ahead, or behind if the direction flag is set. */
  function Shift(i: Insn, k: int): int {
    if i.df then -(k * i.opBytes) else k * i.opBytes
  }

  lemma {:induction false} ShiftNext(i: Insn, k: int)
    ensures Shift(i, 0) == 0 && Shift(i, k) == Shift(i, k - 1) + Stride(i)
  {
    assert k * i.opBytes == (k - 1) * i.opBytes + i.opBytes;
  }

  function At(memory: map<nat, Byte>, a: nat): Byte {
    if a in memory then memory[a] else 0
  }

  function Load(memory: map<nat, Byte>, a: nat, n: nat): seq<Byte> {
    if n == 0 then [] else Load(memory, a, n - 1) + [At(memory, a + n - 1)]
  }

  function Store(memory: map<nat, Byte>, a: nat, v: seq<Byte>): map<nat, Byte> {
    if v == [] then memory
    else Store(memory, a, v[..|v| - 1])[a + |v| - 1 := v[|v| - 1]]
  }

  function SrcAddress(i: Insn, ea: nat): nat
    requires ValidInsn(i)
  {
    (i.srcBase + ea) % i.linear
  }

  function DstAddress(i: Insn, ea: nat): nat
    requires ValidInsn(i)
  {
    (i.dstBase + ea) % i.linear
  }

  // ----- the simple loop -----

  datatype Machine = Machine(rsi: U64, rdi: U64, rcx: U64, memory: map<nat, Byte>)

  /** One element: what the instruction does per count. */
  function Element(i: Insn, m: Machine): Machine
    requires ValidInsn(i)
  {
    var v := if i.movs then Load(m.memory, SrcAddress(i, Mask(i, m.rsi)), i.opBytes) else i.accumulator;
    Machine(if i.movs then Increment(i, m.rsi, Stride(i)) else m.rsi,
            Increment(i, m.rdi, Stride(i)),
            Increment(i, m.rcx, -1),
            Store(m.memory, DstAddress(i, Mask(i, m.rdi)), v))
  }

  /** n elements in order. */
  function Elements(i: Insn, m: Machine, n: nat): Machine
    requires ValidInsn(i)
  {
    if n == 0 then m else Element(i, Elements(i, m, n - 1))
  }

  /** What Intel processors do to the registers when the count is zero. */
  function Quirk(i: Insn, m: Machine): Machine {
    if i.adBytes != 4 || !i.intel then m
    else m.(rcx := 0, rdi := m.rdi % 0x1_0000_0000, rsi := if i.movs then m.rsi % 0x1_0000_0000 else m.rsi)
  }

  lemma {:induction false} IncrementMask(i: Insn, r: U64, inc: int)
    requires ValidInsn(i)
    ensures Mask(i, Increment(i, r, inc)) == (Mask(i, r) + inc) % AddressSpace(i.adBytes)
  {
    ModPlus(r, inc, AddressSpace(i.adBytes));
    if i.adBytes == 2 {
      ModIs(Increment(i, r, inc), r / 0x1_0000, (r + inc) % 0x1_0000, 0x1_0000);
    } else {
      ModIs(Increment(i, r, inc), 0, (r + inc) % AddressSpace(i.adBytes), AddressSpace(i.adBytes));
    }
  }

  lemma {:induction false} CountDown(i: Insn, m: Machine)
    requires ValidInsn(i) && Mask(i, m.rcx) > 0
    ensures Mask(i, Element(i, m).rcx) == Mask(i, m.rcx) - 1
  {
    IncrementMask(i, m.rcx, -1);
    ModIs(Mask(i, m.rcx) - 1, 0, Mask(i, m.rcx) - 1, AddressSpace(i.adBytes));
  }

  lemma {:induction false} ElementsCount(i: Insn, m: Machine, n: nat)
    requires ValidInsn(i) && n <= Mask(i, m.rcx)
    ensures Mask(i, Elements(i, m, n).rcx) == Mask(i, m.rcx) - n
  {
    if n > 0 {
      ElementsCount(i, m, n - 1);
      CountDown(i, Elements(i, m, n - 1));
    }
  }

  // ----- what the simple loop achieves -----

  lemma {:induction false} LoadLength(memory: map<nat, Byte>, a: nat, n: nat)
    ensures |Load(memory, a, n)| == n
    ensures forall k :: 0 <= k < n ==> Load(memory, a, n)[k] == At(memory, a + k)
  {
    if n > 0 {
      LoadLength(memory, a, n - 1);
    }
  }

  lemma {:induction false} StoreAt(memory: map<nat, Byte>, a: nat, v: seq<Byte>, x: nat)
    ensures At(Store(memory, a, v), x) == if a <= x < a + |v| then v[x - a] else At(memory, x)
  {
    if v != [] {
      StoreAt(memory, a, v[..|v| - 1], x);
    }
  }

  /** The linear address of the k-th element, for an index register that starts as r. */
  function Address(i: Insn, base: nat, r: U64, k: nat): nat
    requires ValidInsn(i)
  {
    (base + (Mask(i, r) + Shift(i, k)) % AddressSpace(i.adBytes)) % i.linear
  }

  function Src(i: Insn, m: Machine, k: nat): nat
    requires ValidInsn(i)
  {
    Address(i, i.srcBase, m.rsi, k)
  }

  function Dst(i: Insn, m: Machine, k: nat): nat
    requires ValidInsn(i)
  {
    Address(i, i.dstBase, m.rdi, k)
  }

  /** An index register after n elements. */
  function Advance(i: Insn, r: U64, n: nat): U64
    requires ValidInsn(i)
  {
    if n == 0 then r else Increment(i, Advance(i, r, n - 1), Stride(i))
  }

  lemma {:induction false} ElementsAdvance(i: Insn, m: Machine, n: nat)
    requires ValidInsn(i)
    ensures Elements(i, m, n).rdi == Advance(i, m.rdi, n)
    ensures Elements(i, m, n).rsi == if i.movs then Advance(i, m.rsi, n) else m.rsi
  {
    if n > 0 {
      ElementsAdvance(i, m, n - 1);
    }
  }

  /** It moves by n elements in the direction of the flag, within the address size. */
  lemma {:induction false} AdvanceMask(i: Insn, r: U64, n: nat)
    requires ValidInsn(i)
    ensures Mask(i, Advance(i, r, n)) == (Mask(i, r) + Shift(i, n)) % AddressSpace(i.adBytes)
  {
    hide Shift, Stride, Increment;
    ShiftNext(i, n);
    if n == 0 {
      ModIs(Mask(i, r), 0, Mask(i, r), AddressSpace(i.adBytes));
    } else {
      AdvanceMask(i, r, n - 1);
      IncrementMask(i, Advance(i, r, n - 1), Stride(i));
      ModPlus(Mask(i, r) + Shift(i, n - 1), Stride(i), AddressSpace(i.adBytes));
    }
  }

  lemma {:induction false} ElementsRegisters(i: Insn, m: Machine, n: nat)
    requires ValidInsn(i)
    ensures DstAddress(i, Mask(i, Elements(i, m, n).rdi)) == Dst(i, m, n)
    ensures i.movs ==> SrcAddress(i, Mask(i, Elements(i, m, n).rsi)) == Src(i, m, n)
  {
    hide Shift, AddressSpace, Elements, Advance, Mask;
    ElementsAdvance(i, m, n);
    AdvanceMask(i, m.rdi, n);
    AdvanceMask(i, m.rsi, n);
  }

  predicate Disjoint(a: nat, b: nat, size: nat) {
    a + size <= b || b + size <= a
  }

  /** The elements do not overlap, and none is read after an earlier one was written over it. */
  ghost predicate NoOverlap(i: Insn, m: Machine, n: nat)
    requires ValidInsn(i)
  {
    forall j, k :: 0 <= j < k < n ==>
      && Disjoint(Dst(i, m, j), Dst(i, m, k), i.opBytes)
      && (i.movs ==> Disjoint(Dst(i, m, j), Src(i, m, k), i.opBytes))
  }

  /** Address x lies in one of the first n destination elements. */
  ghost predicate Written(i: Insn, m: Machine, n: nat, x: nat)
    requires ValidInsn(i)
  {
    exists k :: 0 <= k < n && Dst(i, m, k) <= x < Dst(i, m, k) + i.opBytes
  }

  function Moved(i: Insn, m: Machine, memory: map<nat, Byte>, k: nat): (v: seq<Byte>)
    requires ValidInsn(i)
    ensures |v| == i.opBytes
  {
    LoadLength(memory, Src(i, m, k), i.opBytes);
    if i.movs then Load(memory, Src(i, m, k), i.opBytes) else i.accumulator
  }

  /** The memory after one more element. */
  lemma {:induction false} ElementsStep(i: Insn, m: Machine, n: nat)
    requires ValidInsn(i)
    ensures var p := Elements(i, m, n).memory;
            Elements(i, m, n + 1).memory == Store(p, Dst(i, m, n), Moved(i, m, p, n))
  {
    ElementsRegisters(i, m, n);
  }

  lemma {:induction false} ElementsElsewhere(i: Insn, m: Machine, n: nat, x: nat)
    requires ValidInsn(i) && !Written(i, m, n, x)
    ensures At(Elements(i, m, n).memory, x) == At(m.memory, x)
  {
    if n > 0 {
      assert forall k :: 0 <= k < n - 1 && Dst(i, m, k) <= x < Dst(i, m, k) + i.opBytes ==> Written(i, m, n, x);
      ElementsElsewhere(i, m, n - 1, x);
      ElementsStep(i, m, n - 1);
      var p := Elements(i, m, n - 1).memory;
      StoreAt(p, Dst(i, m, n - 1), Moved(i, m, p, n - 1), x);
    }
  }

  lemma LoadSame(memory: map<nat, Byte>, memory': map<nat, Byte>, a: nat, n: nat)
    requires forall x :: a <= x < a + n ==> At(memory, x) == At(memory', x)
    ensures Load(memory, a, n) == Load(memory', a, n)
  {
    LoadLength(memory, a, n);
    LoadLength(memory', a, n);
  }

  lemma LoadStored(memory: map<nat, Byte>, a: nat, v: seq<Byte>)
    ensures Load(Store(memory, a, v), a, |v|) == v
  {
    LoadLength(Store(memory, a, v), a, |v|);
    forall k | 0 <= k < |v| ensures At(Store(memory, a, v), a + k) == v[k] {
      StoreAt(memory, a, v, a + k);
    }
  }

  lemma LoadDisjoint(memory: map<nat, Byte>, a: nat, v: seq<Byte>, b: nat)
    requires Disjoint(b, a, |v|)
    ensures Load(Store(memory, a, v), b, |v|) == Load(memory, b, |v|)
  {
    forall x | b <= x < b + |v| ensures At(Store(memory, a, v), x) == At(memory, x) {
      StoreAt(memory, a, v, x);
    }
    LoadSame(Store(memory, a, v), memory, b, |v|);
  }

  /** The source of element n is untouched by the elements before it. */
  lemma {:induction false} SourceKept(i: Insn, m: Machine, n: nat)
    requires ValidInsn(i) && NoOverlap(i, m, n + 1)
    ensures Moved(i, m, Elements(i, m, n).memory, n) == Moved(i, m, m.memory, n)
  {
    if i.movs {
      var p, a := Elements(i, m, n).memory, Src(i, m, n);
      forall x | a <= x < a + i.opBytes ensures At(p, x) == At(m.memory, x) {
        assert forall k :: 0 <= k < n ==> Disjoint(Dst(i, m, k), a, i.opBytes);
        ElementsElsewhere(i, m, n, x);
      }
      LoadSame(p, m.memory, a, i.opBytes);
    }
  }

  lemma NoOverlapAt(i: Insn, m: Machine, n: nat, k: nat)
    requires ValidInsn(i) && NoOverlap(i, m, n) && k + 1 < n
    ensures NoOverlap(i, m, n - 1) && Disjoint(Dst(i, m, k), Dst(i, m, n - 1), i.opBytes)
  {
  }

  lemma {:induction false} NextElementKeeps(i: Insn, m: Machine, n: nat, a: nat, v: seq<Byte>)
    requires ValidInsn(i) && Disjoint(a, Dst(i, m, n), i.opBytes) && |v| == i.opBytes
    requires Load(Elements(i, m, n).memory, a, i.opBytes) == v
    ensures Load(Elements(i, m, n + 1).memory, a, i.opBytes) == v
  {
    var p := Elements(i, m, n).memory;
    ElementsStep(i, m, n);
    LoadDisjoint(p, Dst(i, m, n), Moved(i, m, p, n), a);
  }

  lemma {:induction false} LastElementHolds(i: Insn, m: Machine, n: nat)
    requires ValidInsn(i) && NoOverlap(i, m, n + 1)
    ensures Load(Elements(i, m, n + 1).memory, Dst(i, m, n), i.opBytes) == Moved(i, m, m.memory, n)
  {
    var p := Elements(i, m, n).memory;
    ElementsStep(i, m, n);
    SourceKept(i, m, n);
    LoadStored(p, Dst(i, m, n), Moved(i, m, p, n));
  }

  lemma {:induction false} ElementHolds(i: Insn, m: Machine, n: nat, k: nat)
    requires ValidInsn(i) && NoOverlap(i, m, n) && k < n
    ensures Load(Elements(i, m, n).memory, Dst(i, m, k), i.opBytes) == Moved(i, m, m.memory, k)
  {
    if k + 1 < n {
      NoOverlapAt(i, m, n, k);
      ElementHolds(i, m, n - 1, k);
      NextElementKeeps(i, m, n - 1, Dst(i, m, k), Moved(i, m, m.memory, k));
    } else {
      LastElementHolds(i, m, k);
    }
  }

  /** Without such overlap the loop is a block move (or fill): every destination element holds what
      its source held at the start, and nothing else has changed. */
  lemma {:induction false} BlockMoved(i: Insn, m: Machine, n: nat)
    requires ValidInsn(i) && NoOverlap(i, m, n)
    ensures forall k: nat :: k < n ==>
              Load(Elements(i, m, n).memory, Dst(i, m, k), i.opBytes) == Moved(i, m, m.memory, k)
    ensures forall x: nat :: !Written(i, m, n, x) ==> At(Elements(i, m, n).memory, x) == At(m.memory, x)
  {
    forall k: nat | k < n
      ensures Load(Elements(i, m, n).memory, Dst(i, m, k), i.opBytes) == Moved(i, m, m.memory, k)
    {
      ElementHolds(i, m, n, k);
    }
    forall x: nat | !Written(i, m, n, x) ensures At(Elements(i, m, n).memory, x) == At(m.memory, x) {
      ElementsElsewhere(i, m, n, x);
    }
  }

  // ----- the same, in terms of the operands alone -----

  /** The address space has as many addresses as the address size has values. */
  lemma AddressSpaceIs(i: Insn)
    requires ValidInsn(i)
    ensures AddressSpace(i.adBytes) == Pow(256, i.adBytes)
  {
    assert Pow(256, 4) == 0x1_0000_0000;
  }

  /** An index register that has moved by this much. */
  function Moving(i: Insn, r: U64, dist: int): U64
    requires ValidInsn(i)
  {
    if i.adBytes == 2 then r / 0x1_0000 * 0x1_0000 + (r + dist) % 0x1_0000
    else if i.adBytes == 4 then (r + dist) % 0x1_0000_0000
    else (r + dist) % TWO_64
  }

  /** The first element is at a: the lowest address of n elements. */
  function Lowest(i: Insn, a: int, n: nat): int {
    if i.df && n > 0 then a - (n - 1) * i.opBytes else a
  }

  function First(i: Insn, base: nat, r: U64): nat
    requires ValidInsn(i)
  {
    (base + r % AddressSpace(i.adBytes)) % i.linear
  }

  /** n elements from this register on wrap around neither in the address size nor in the linear
      address space. */
  predicate Unwrapped(i: Insn, base: nat, r: U64, n: nat)
    requires ValidInsn(i)
  {
    var ea := r % AddressSpace(i.adBytes);
    var a := First(i, base, r);
    && 0 <= Lowest(i, ea, n) && Lowest(i, ea, n) + n * i.opBytes <= AddressSpace(i.adBytes)
    && 0 <= Lowest(i, a, n) && Lowest(i, a, n) + n * i.opBytes <= i.linear
  }

  /** The lowest address of the source and of the destination. */
  function SrcLow(i: Insn, m: Machine, n: nat): int
    requires ValidInsn(i)
  {
    Lowest(i, First(i, i.srcBase, m.rsi), n)
  }

  function DstLow(i: Insn, m: Machine, n: nat): int
    requires ValidInsn(i)
  {
    Lowest(i, First(i, i.dstBase, m.rdi), n)
  }

  /** The block does not wrap, and the part of the source still to be read is never written over. */
  predicate Simple(i: Insn, m: Machine, n: nat)
    requires ValidInsn(i)
  {
    && Unwrapped(i, i.dstBase, m.rdi, n)
    && (i.movs ==>
          && Unwrapped(i, i.srcBase, m.rsi, n)
          && var s, d, len := SrcLow(i, m, n), DstLow(i, m, n), n * i.opBytes;
             s + len <= d || d + len <= s || (if i.df then s <= d else d <= s))
  }

  /** The byte at x after a block move, or fill, of n elements. */
  function BlockByte(i: Insn, m: Machine, n: nat, x: nat): Byte
    requires ValidInsn(i) && Simple(i, m, n)
  {
    var s, d := SrcLow(i, m, n), DstLow(i, m, n);
    if !(d <= x < d + n * i.opBytes) then At(m.memory, x)
    else if i.movs then At(m.memory, s + (x - d))
    else i.accumulator[(x - d) % i.opBytes]
  }

  lemma {:induction false} ElementFits(i: Insn, k: nat, n: nat)
    requires ValidInsn(i) && k < n
    ensures 0 <= k * i.opBytes <= (n - 1) * i.opBytes == n * i.opBytes - i.opBytes
  {
  }

  lemma {:induction false} AddressOfElement(i: Insn, base: nat, r: U64, n: nat, k: nat)
    requires ValidInsn(i) && Unwrapped(i, base, r, n) && k < n
    ensures Address(i, base, r, k) == First(i, base, r) + Shift(i, k)
  {
    var space := AddressSpace(i.adBytes);
    var ea, dist := r % space, Shift(i, k);
    var a := (base + ea) % i.linear;
    ElementFits(i, k, n);
    ModIs(ea + dist, 0, ea + dist, space);
    assert base + ea + dist == i.linear * ((base + ea) / i.linear) + (a + dist);
    ModIs(base + (ea + dist), (base + ea) / i.linear, a + dist, i.linear);
  }

  /** The k-th element, counted in the direction of the move, and its place in the block. */
  function Place(i: Insn, n: nat, k: nat): nat
    requires k < n
  {
    if i.df then n - 1 - k else k
  }

  lemma {:induction false} PlaceInBlock(i: Insn, a: int, n: nat, k: nat)
    requires k < n
    ensures a + Shift(i, k) == Lowest(i, a, n) + Place(i, n, k) * i.opBytes
  {
    assert (n - 1) * i.opBytes - k * i.opBytes == (n - 1 - k) * i.opBytes;
  }

  lemma {:induction false} SpotInBlock(i: Insn, base: nat, r: U64, n: nat, k: nat)
    requires ValidInsn(i) && Unwrapped(i, base, r, n) && k < n
    ensures Address(i, base, r, k) == Lowest(i, First(i, base, r), n) + Place(i, n, k) * i.opBytes
  {
    hide Shift, Place, Lowest, AddressSpace, Unwrapped, First, Address;
    AddressOfElement(i, base, r, n, k);
    PlaceInBlock(i, First(i, base, r), n, k);
  }

  lemma {:induction false} ElementInBlock(i: Insn, m: Machine, n: nat, k: nat)
    requires ValidInsn(i) && Simple(i, m, n) && k < n
    ensures Dst(i, m, k) == DstLow(i, m, n) + Place(i, n, k) * i.opBytes
    ensures i.movs ==> Src(i, m, k) == SrcLow(i, m, n) + Place(i, n, k) * i.opBytes
  {
    hide Shift, Place, Lowest, AddressSpace, Unwrapped, First, Address;
    SpotInBlock(i, i.dstBase, m.rdi, n, k);
    if i.movs {
      SpotInBlock(i, i.srcBase, m.rsi, n, k);
    }
  }

  lemma {:induction false} PlacesApart(ob: nat, p: nat, q: nat)
    requires p < q
    ensures p * ob + ob <= q * ob
  {
    assert q * ob == (p + 1) * ob + (q - p - 1) * ob;
  }

  lemma {:induction false} SimpleMeansNoOverlap(i: Insn, m: Machine, n: nat)
    requires ValidInsn(i) && Simple(i, m, n)
    ensures NoOverlap(i, m, n)
  {
    forall j, k | 0 <= j < k < n
      ensures Disjoint(Dst(i, m, j), Dst(i, m, k), i.opBytes)
      ensures i.movs ==> Disjoint(Dst(i, m, j), Src(i, m, k), i.opBytes)
    {
      ElementInBlock(i, m, n, j);
      ElementInBlock(i, m, n, k);
      ElementFits(i, Place(i, n, j), n);
      ElementFits(i, Place(i, n, k), n);
      if i.df {
        PlacesApart(i.opBytes, Place(i, n, k), Place(i, n, j));
      } else {
        PlacesApart(i.opBytes, j, k);
      }
    }
  }

  lemma {:induction false} ByteInElement(i: Insn, m: Machine, n: nat, x: nat) returns (k: nat)
    requires ValidInsn(i) && Simple(i, m, n) && DstLow(i, m, n) <= x < DstLow(i, m, n) + n * i.opBytes
    ensures k < n
    ensures var within := (x - DstLow(i, m, n)) % i.opBytes;
            x == Dst(i, m, k) + within && (i.movs ==> SrcLow(i, m, n) + (x - DstLow(i, m, n)) == Src(i, m, k) + within)
  {
    var at := x - DstLow(i, m, n);
    var place := at / i.opBytes;
    assert at == i.opBytes * place + at % i.opBytes;
    MulSign(i.opBytes, place - n + 1);
    k := Place(i, n, place);
    ElementInBlock(i, m, n, k);
  }

  /** Without wrap and harmful overlap n elements move, or fill, a block: each byte of the destination
      holds what the byte at the same place of the source held at the start, and nothing else changes. */
  lemma {:induction false} ElementsMoveBlock(i: Insn, m: Machine, n: nat, x: nat)
    requires ValidInsn(i) && Simple(i, m, n)
    ensures At(Elements(i, m, n).memory, x) == BlockByte(i, m, n, x)
  {
    hide Dst, Src, DstLow, SrcLow, Unwrapped, Lowest, NoOverlap, Written, Moved, Elements, Load;
    SimpleMeansNoOverlap(i, m, n);
    BlockMoved(i, m, n);
    if DstLow(i, m, n) <= x < DstLow(i, m, n) + n * i.opBytes {
      var k := ByteInElement(i, m, n, x);
      ByteOfElement(i, m, Elements(i, m, n).memory, k, (x - DstLow(i, m, n)) % i.opBytes);
    } else {
      NotInElement(i, m, n, x);
    }
  }

  lemma {:induction false} ByteOfElement(i: Insn, m: Machine, after: map<nat, Byte>, k: nat, within: nat)
    requires ValidInsn(i) && within < i.opBytes
    requires Load(after, Dst(i, m, k), i.opBytes) == Moved(i, m, m.memory, k)
    ensures At(after, Dst(i, m, k) + within)
              == if i.movs then At(m.memory, Src(i, m, k) + within) else i.accumulator[within]
  {
    hide Dst, Src;
    LoadLength(after, Dst(i, m, k), i.opBytes);
    LoadLength(m.memory, Src(i, m, k), i.opBytes);
    assert At(after, Dst(i, m, k) + within) == Load(after, Dst(i, m, k), i.opBytes)[within];
  }

  lemma {:induction false} NotInElement(i: Insn, m: Machine, n: nat, x: nat)
    requires ValidInsn(i) && Simple(i, m, n) && !(DstLow(i, m, n) <= x < DstLow(i, m, n) + n * i.opBytes)
    ensures !Written(i, m, n, x)
  {
    forall k | 0 <= k < n ensures !(Dst(i, m, k) <= x < Dst(i, m, k) + i.opBytes) {
      ElementInBlock(i, m, n, k);
      ElementFits(i, Place(i, n, k), n);
    }
  }

  lemma {:induction false} MovingStep(i: Insn, r: U64, dist: int, inc: int)
    requires ValidInsn(i)
    ensures Increment(i, Moving(i, r, dist), inc) == Moving(i, r, dist + inc)
  {
    var space := AddressSpace(i.adBytes);
    ModPlus(r + dist, inc, space);
    if i.adBytes == 2 {
      var q := r / 0x1_0000;
      ModIs(Moving(i, r, dist), q, (r + dist) % 0x1_0000, 0x1_0000);
      ModPlus(Moving(i, r, dist), inc, 0x1_0000);
    }
  }

  lemma {:induction false} AdvanceMoves(i: Insn, r: U64, n: nat)
    requires ValidInsn(i) && n > 0
    ensures Advance(i, r, n) == Moving(i, r, Shift(i, n))
  {
    hide Shift, Stride, Moving, Increment;
    ShiftNext(i, n);
    MovingNothing(i, r);
    if n > 1 {
      AdvanceMoves(i, r, n - 1);
      MovingStep(i, r, Shift(i, n - 1), Stride(i));
    }
  }

  lemma {:induction false} MovingNothing(i: Insn, r: U64)
    requires ValidInsn(i)
    ensures forall inc :: Increment(i, r, inc) == Moving(i, r, inc)
  {
  }

  lemma {:induction false} CountMoves(i: Insn, m: Machine, n: nat)
    requires ValidInsn(i) && n > 0
    ensures Elements(i, m, n).rcx == Moving(i, m.rcx, 0 - n)
  {
    if n > 1 {
      CountMoves(i, m, n - 1);
      MovingStep(i, m.rcx, 0 - (n - 1), -1);
    }
  }

  /** What executing the instruction in state m comes to. */
  ghost predicate Executed(i: Insn, m: Machine, t: Machine)
    requires ValidInsn(i)
  {
    var n := m.rcx % AddressSpace(i.adBytes);
    && t.rcx % AddressSpace(i.adBytes) == 0
    && (n > 0 ==>
          && t.rdi == Moving(i, m.rdi, Shift(i, n))
          && t.rsi == (if i.movs then Moving(i, m.rsi, Shift(i, n)) else m.rsi)
          && t.rcx == Moving(i, m.rcx, 0 - n))
    && (n == 0 ==> t == Quirk(i, m))
    && (Simple(i, m, n) ==> forall x: nat :: At(t.memory, x) == BlockByte(i, m, n, x))
  }

  lemma {:induction false} LoopExecutes(i: Insn, m: Machine)
    requires ValidInsn(i)
    ensures Executed(i, m, Quirk(i, Elements(i, m, Mask(i, m.rcx))))
  {
    var n := Mask(i, m.rcx);
    var t := Elements(i, m, n);
    ElementsCount(i, m, n);
    if n > 0 {
      ElementsAdvance(i, m, n);
      AdvanceMoves(i, m.rdi, n);
      AdvanceMoves(i, m.rsi, n);
      CountMoves(i, m, n);
      QuirkIdle(i, t, m.rdi, m.rsi, Shift(i, n));
    }
    if Simple(i, m, n) {
      forall x: nat ensures At(t.memory, x) == BlockByte(i, m, n, x) {
        ElementsMoveBlock(i, m, n, x);
      }
    }
  }

  /** After at least one element the clean-up at the end has nothing left to do. */
  lemma {:induction false} QuirkIdle(i: Insn, t: Machine, rdi: U64, rsi: U64, dist: int)
    requires ValidInsn(i) && Mask(i, t.rcx) == 0 && (i.adBytes == 4 ==> t.rcx < 0x1_0000_0000)
    requires t.rdi == Moving(i, rdi, dist) && (i.movs ==> t.rsi == Moving(i, rsi, dist))
    ensures Quirk(i, t) == t
  {
  }

  // ----- the emulator -----

  datatype Outcome = Restart | Returned

  class Emulator {
    const insn: Insn
    const nextEip: nat             // ctxt->_eip
    // guest state
    var eip: nat
    var rsi: U64
    var rdi: U64
    var rcx: U64
    var memory: map<nat, Byte>
    // decoded operands
    var srcEa: nat
    var dstEa: nat
    // mem_read: data, pos, end
    const cache: array<Byte>
    var pos: nat
    var end: nat

    predicate Valid()
      reads this
    {
      ValidInsn(insn) && cache.Length == 1024
    }

    function View(): Machine
      reads this
    {
      Machine(rsi, rdi, rcx, memory)
    }

    /** The operands point where the registers say. */
    predicate Synced()
      requires Valid()
      reads this
    {
      (insn.movs ==> srcEa == Mask(insn, rsi)) && dstEa == Mask(insn, rdi)
    }

    /** init_decode_cache and the operand decoding. */
    method Decode()
      requires Valid()
      modifies `srcEa, `dstEa, `end
      ensures Synced() && end == 0
    {
      end := 0;
      if insn.movs {
        srcEa := Mask(insn, rsi);
      }
      dstEa := Mask(insn, rdi);
    }

    /** read_emulated: what is behind pos in the cache is served from there, however old it is. */
    method ReadEmulated(a: nat, size: nat) returns (v: seq<Byte>)
      requires Valid() && 0 < size <= 8 && pos <= end <= 1000 && (pos < end ==> pos + size <= end)
      modifies `pos, `end, cache
      ensures |v| == size
      ensures if old(pos) < old(end) then v == old(cache[pos..pos + size]) else v == Load(memory, a, size)
      ensures pos == old(pos) + size <= end <= old(end) + size
    {
      if pos >= end {
        var loaded := Load(memory, a, size);
        LoadLength(memory, a, size);
        forall k | 0 <= k < size {
          cache[end + k] := loaded[k];
        }
        end := end + size;
        assert cache[pos..pos + size] == loaded;
      }
      v := cache[pos..pos + size];
      pos := pos + size;
    }

    /** One call of x86_emulate_insn. */
    method EmulateInsn() returns (outcome: Outcome)
      requires Valid() && Synced() && end == 0
      modifies this, cache
      ensures Valid()
      ensures old(Mask(insn, rcx)) == 0 ==>
                outcome == Returned && eip == nextEip && View() == Quirk(insn, old(View()))
      ensures old(Mask(insn, rcx)) > 0 ==>
                && eip == old(eip)
                && View() == Element(insn, old(View()))
                && Synced()
                && (outcome == Restart <==> rcx % 1024 != 0)
                && (outcome == Restart ==> end == 0)
    {
      pos := 0;
      if Mask(insn, rcx) == 0 {
        StringRegistersQuirk();
        eip := nextEip;
        return Returned;
      }
      var value := insn.accumulator;
      if insn.movs {
        value := ReadEmulated(SrcAddress(insn, srcEa), insn.opBytes);
      }
      memory := Store(memory, DstAddress(insn, dstEa), value);
      if insn.movs {
        rsi := Increment(insn, rsi, Stride(insn));
        srcEa := Mask(insn, rsi);
      }
      rdi := Increment(insn, rdi, Stride(insn));
      dstEa := Mask(insn, rdi);
      rcx := Increment(insn, rcx, -1);
      // the PIO read-ahead buffer is not used by these instructions
      if rcx % 1024 != 0 {
        end := 0;
        return Restart;
      }
      outcome := Returned;
    }

    method StringRegistersQuirk()
      requires Valid()
      modifies `rsi, `rdi, `rcx
      ensures View() == Quirk(insn, old(View()))
    {
      if insn.adBytes == 4 && insn.intel {
        rcx := 0;
        if insn.movs {
          rsi := rsi % 0x1_0000_0000;
        }
        rdi := rdi % 0x1_0000_0000;
      }
    }

    /** How far the execution that started in m with count n has come after k elements. */
    ghost predicate Progress(m: Machine, n: nat, k: nat)
      requires Valid()
      reads this
    {
      && n == Mask(insn, m.rcx) && k <= n
      && View() == (if eip == nextEip then Quirk(insn, Elements(insn, m, n)) else Elements(insn, m, k))
    }

    method OneElement(ghost m: Machine, ghost n: nat, ghost k: nat) returns (outcome: Outcome, ghost k': nat)
      requires Valid() && Synced() && end == 0 && eip != nextEip && Progress(m, n, k)
      modifies this, cache
      ensures Valid() && Progress(m, n, k')
      ensures if k < n then eip != nextEip && k' == k + 1 else eip == nextEip && k' == n && outcome == Returned
      ensures outcome == Restart ==> Synced() && end == 0
    {
      ElementsCount(insn, m, k);
      k' := if k < n then k + 1 else n;
      outcome := EmulateInsn();
    }

    /** From a decoding to the next return to the guest. */
    method RunDecoded(ghost m: Machine, ghost n: nat, ghost k: nat) returns (ghost k': nat)
      requires Valid() && eip != nextEip && Progress(m, n, k)
      modifies this, cache
      ensures Valid() && Progress(m, n, k')
      ensures if eip != nextEip then k' > k else k' == n
    {
      Decode();
      var outcome;
      outcome, k' := OneElement(m, n, k);
      while outcome == Restart
        invariant Valid() && Progress(m, n, k')
        invariant outcome == Restart ==> Synced() && end == 0 && eip != nextEip
        invariant if eip != nextEip then k' > k else k' == n
        decreases n - k', outcome == Restart
      {
        outcome, k' := OneElement(m, n, k');
      }
    }

    /** The guest executes the instruction until it is past it: decoding after every return to the
        guest, restarting without decoding otherwise.  The result is the simple loop. */
    method ExecuteInstruction()
      requires Valid() && eip != nextEip
      modifies this, cache
      ensures eip == nextEip && Mask(insn, rcx) == 0
      ensures View() == Quirk(insn, Elements(insn, old(View()), old(Mask(insn, rcx))))
      ensures Executed(insn, old(View()), View())
    {
      ghost var m, n, k := View(), Mask(insn, rcx), 0;
      while eip != nextEip
        invariant Valid() && Progress(m, n, k)
        decreases n - k, eip != nextEip
      {
        k := RunDecoded(m, n, k);
      }
      ElementsCount(insn, m, n);
      LoopExecutes(insn, m);
    }
  }
}
