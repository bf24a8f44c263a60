/** Protection-key domains of the bare-metal WAMR runtime (wamr-pal/mpk_allocator_vmpl1.c:86-544,
    built with MPK isolation).

    Every call into the monitor and into dlmalloc has an outcome the code cannot know: outcome k of
    the run is answers(k).  Leaving a domain is taken to succeed. */
module MpkAllocator {

  const MIN_MSPACE_SIZE: nat := 4 * 4096         // four pages
  const REGION_BASE: nat := 0x60_0000_0000       // MPK_REGION_BASE
  const REGION_LIMIT: nat := 0x280_0000_0000     // the input channel
  const DEFAULT_HEAP_SIZE: nat := 0x40_0000
  const POOL_SIZE: nat := 1                      // PKEY_POOL_SIZE
  const POOL_MAX: nat := 15                      // PKEY_POOL_MAX

  /** Outcomes of the calls whose code is not part of this model. */
  class Monitor {
    const answers: nat -> int
    var asked: nat

    constructor (answers: nat -> int)
      ensures this.answers == answers && asked == 0
    {
      this.answers, asked := answers, 0;
    }

    method Ask() returns (answer: int)
      modifies this
      ensures asked == old(asked) + 1 && answer == answers(old(asked))
    {
      answer := answers(asked);
      asked := asked + 1;
    }
  }

  // ----- what the answers decide -----

  /** Whether a domain whose heap is made, or not, is entered, and how many outcomes that takes. */
  predicate EnterOk(answers: nat -> int, o: nat, heapMade: bool) {
    answers(o) == 0 && (heapMade || answers(o + 1) != 0)
  }

  function EnterAsks(answers: nat -> int, o: nat, heapMade: bool): nat {
    if answers(o) != 0 || heapMade then 1 else if answers(o + 1) != 0 then 2 else 3
  }

  function DestroyAsks(answers: nat -> int, o: nat, heapMade: bool): nat {
    if !heapMade then 1 else if answers(o) == 0 then 3 else 2
  }

  // ----- keys -----

  predicate NoDuplicates(s: seq<int>) {
    forall j, k :: 0 <= j < k < |s| ==> s[j] != s[k]
  }

  /** All keys, and the stack of those not in use. */
  class PkeyPool {
    const pool: array<int>
    const free: array<int>
    var total: nat
    var top: nat
    ghost var out: set<int>        // the keys in use

    constructor ()
      ensures Valid() && total == 0 && fresh(pool) && fresh(free)
    {
      pool, free, total, top, out := new int[POOL_MAX], new int[POOL_MAX], 0, 0, {};
    }

    ghost function Idle(): seq<int>
      requires top <= free.Length
      reads this, free
    {
      free[..top]
    }

    /** Each key is in use or on the stack, once. */
    ghost predicate Valid()
      reads this, pool, free
    {
      && pool.Length == POOL_MAX && free.Length == POOL_MAX && pool != free
      && total <= POOL_SIZE && top + |out| == total
      && NoDuplicates(Idle())
      && (forall k :: k in pool[..total] <==> k in Idle() || k in out)
      && (forall k :: k in Idle() ==> k !in out)
      && (forall k :: k in pool[..total] ==> 1 <= k <= 15)
    }

    /** pkey_pool_init */
    method Init(monitor: Monitor) returns (ret: int)
      requires Valid() && total == 0
      modifies monitor, this, pool, free
      ensures Valid() && out == {}
      ensures ret == if 1 <= monitor.answers(old(monitor.asked)) <= 15 then 0 else -1
      ensures total == if ret == 0 then POOL_SIZE else 0
      ensures monitor.asked == old(monitor.asked) + 1
    {
      var i := 0;
      top := 0;
      while i < POOL_SIZE
        invariant 0 <= i == total <= POOL_SIZE && top == 0 && out == {}
        invariant monitor.asked == old(monitor.asked) + i
        invariant i == 1 ==> 1 <= monitor.answers(old(monitor.asked)) <= 15
        invariant forall k :: 0 <= k < i ==> free[k] == pool[k] && 1 <= pool[k] <= 15
      {
        var pkey := monitor.Ask();
        if pkey < 1 || pkey > 15 {
          break;
        }
        pool[total] := pkey;
        free[total] := pkey;
        total := total + 1;
        i := i + 1;
      }
      if total == 0 {
        return -1;
      }
      top := total;
      assert Idle() == pool[..total];
      return 0;
    }

    /** pkey_pool_destroy */
    method Destroy(monitor: Monitor)
      requires Valid()
      modifies monitor, this
      ensures Valid() && total == 0 && out == {}
      ensures monitor.asked == old(monitor.asked) + old(total)
    {
      var i := 0;
      while i < total
        invariant 0 <= i <= total == old(total) && monitor.asked == old(monitor.asked) + i
      {
        var _ := monitor.Ask();
        i := i + 1;
      }
      total, top, out := 0, 0, {};
    }

    /** pkey_pool_alloc */
    method Alloc() returns (pkey: int)
      requires Valid()
      modifies this
      ensures Valid() && total == old(total)
      ensures if old(Idle()) == [] then pkey == -1 && out == old(out)
              else pkey > 0 && pkey !in old(out) && out == old(out) + {pkey}
    {
      if top <= 0 {
        return -1;
      }
      top := top - 1;
      pkey := free[top];
      out := out + {pkey};
      assert old(Idle()) == Idle() + [pkey];
    }

    /** pkey_pool_free */
    method Free(pkey: int)
      requires Valid() && pkey in out
      modifies this, free
      ensures Valid() && total == old(total) && out == old(out) - {pkey}
    {
      if top < total {
        free[top] := pkey;
        top := top + 1;
      }
      out := out - {pkey};
      assert Idle() == old(Idle()) + [pkey];
    }
  }

  // ----- address space -----

  datatype Region = Region(base: nat, size: nat, pkey: int)

  /** ALIGN_UP(x, PAGE_SIZE) */
  function PageUp(x: nat): (y: nat)
    ensures x <= y < x + 4096 && y % 4096 == 0
  {
    (x + 4095) / 4096 * 4096
  }

  lemma HeapIsWholePages()
    ensures PageUp(DEFAULT_HEAP_SIZE) == DEFAULT_HEAP_SIZE
  {
  }

  lemma PageUpTwice(x: nat)
    ensures PageUp(PageUp(x)) == PageUp(x)
  {
  }

  /** Each region begins where the one before ends. */
  predicate Chained(regions: seq<Region>) {
    forall k :: 0 <= k < |regions| ==> regions[k].base == EndOf(regions[..k])
  }

  predicate Layout(regions: seq<Region>, next: nat) {
    Chained(regions) && REGION_BASE <= next == EndOf(regions) < REGION_LIMIT
  }

  function EndOf(regions: seq<Region>): nat {
    if regions == [] then REGION_BASE else regions[|regions| - 1].base + regions[|regions| - 1].size
  }

  lemma LayoutExtends(regions: seq<Region>, next: nat, size: nat, pkey: int)
    requires Layout(regions, next) && next + size < REGION_LIMIT
    ensures Layout(regions + [Region(next, size, pkey)], next + size)
  {
    var after := regions + [Region(next, size, pkey)];
    forall k | 0 <= k < |after| ensures after[k].base == EndOf(after[..k]) {
      assert k < |regions| ==> after[..k] == regions[..k];
      assert k == |regions| ==> after[..k] == regions;
    }
  }

  lemma {:induction false} RegionInside(regions: seq<Region>, j: nat)
    requires Chained(regions)
    ensures EndOf(regions) >= REGION_BASE
    ensures j < |regions| ==> REGION_BASE <= regions[j].base && regions[j].base + regions[j].size <= EndOf(regions)
  {
    if regions != [] {
      ChainedFront(regions);
      RegionInside(regions[..|regions| - 1], j);
    }
  }

  /** So regions never overlap and lie in the runtime's range. */
  lemma RegionsDisjoint(regions: seq<Region>, next: nat, j: nat, k: nat)
    requires Layout(regions, next) && j < k < |regions|
    ensures REGION_BASE <= regions[j].base && regions[j].base + regions[j].size <= regions[k].base
    ensures regions[k].base + regions[k].size <= next < REGION_LIMIT
  {
    assert forall i :: 0 <= i < k ==> regions[..k][..i] == regions[..i];
    RegionInside(regions[..k], j);
    RegionInside(regions, k);
  }

  lemma ChainedFront(regions: seq<Region>)
    requires Chained(regions) && regions != []
    ensures Chained(regions[..|regions| - 1])
    ensures regions[|regions| - 1].base == EndOf(regions[..|regions| - 1])
  {
    var front := regions[..|regions| - 1];
    assert forall k :: 0 <= k < |front| ==> front[..k] == regions[..k];
  }

  /** Addresses are not reused: of regions of at least 4 MB, which are all this runtime maps, there are
      at most 557055 in its life. */
  lemma {:induction false} RegionsRunOut(regions: seq<Region>, next: nat)
    requires Layout(regions, next)
    requires forall r :: r in regions ==> r.size >= DEFAULT_HEAP_SIZE
    ensures next >= REGION_BASE + |regions| * DEFAULT_HEAP_SIZE && |regions| <= 557055
  {
    if regions != [] {
      ChainedFront(regions);
      RegionInside(regions[..|regions| - 1], 0);
      RegionsRunOut(regions[..|regions| - 1], regions[|regions| - 1].base);
    }
  }

  class AddressSpace {
    var next: nat                      // g_mpk_next_addr
    ghost var regions: seq<Region>     // everything ever mapped

    constructor ()
      ensures Valid() && regions == []
    {
      next, regions := REGION_BASE, [];
    }

    ghost predicate Valid()
      reads this
    {
      Layout(regions, next)
    }

    /** No room for this many bytes more. */
    predicate Exhausted(size: nat)
      reads this
    {
      next + PageUp(size) >= REGION_LIMIT
    }

    /** mpk_region_map: 0 is the null pointer, and then nothing has changed. */
    method Map(monitor: Monitor, size: nat, pkey: int) returns (base: nat)
      requires Valid()
      modifies monitor, this
      ensures Valid()
      ensures base == if old(Exhausted(size)) || monitor.answers(old(monitor.asked)) != 0 then 0 else old(next)
      ensures monitor.asked == old(monitor.asked) + if old(Exhausted(size)) then 0 else 1
      ensures next == old(next) + if base == 0 then 0 else PageUp(size)
      ensures regions == old(regions) + if base == 0 then [] else [Region(base, PageUp(size), pkey)]
    {
      base := MapAligned(monitor, PageUp(size), pkey);
    }

    method MapAligned(monitor: Monitor, size: nat, pkey: int) returns (base: nat)
      requires Valid()
      modifies monitor, this
      ensures Valid()
      ensures base == if old(next) + size >= REGION_LIMIT || monitor.answers(old(monitor.asked)) != 0 then 0 else old(next)
      ensures monitor.asked == old(monitor.asked) + if old(next) + size >= REGION_LIMIT then 0 else 1
      ensures next == old(next) + if base == 0 then 0 else size
      ensures regions == old(regions) + if base == 0 then [] else [Region(base, size, pkey)]
    {
      var addr := next;
      next := next + size;
      if next >= REGION_LIMIT {
        next := addr;
        return 0;
      }
      var ret := monitor.Ask();
      if ret != 0 {
        next := addr;
        return 0;
      }
      LayoutExtends(regions, addr, size, pkey);
      regions := regions + [Region(addr, size, pkey)];
      return addr;
    }
  }

  // ----- the allocator and its domains -----

  /** Which mspace serves allocations. */
  datatype Heap = NoHeap | DefaultHeap | DomainHeap(base: nat)

  /** mpk_domain_t; regionBase 0 is the null pointer. */
  class Domain {
    var pkey: int
    var regionBase: nat
    var regionSize: nat
    var heapMade: bool

    constructor ()
      ensures regionBase == 0 && !heapMade
    {
      pkey, regionBase, regionSize, heapMade := 0, 0, 0, false;
    }
  }

  class Allocator {
    const monitor: Monitor
    const keys: PkeyPool
    const space: AddressSpace
    const domain: Domain               // the one domain of this runtime
    var initialized: bool
    var current: Heap
    var access: set<int>               // keys that PKRU lets the runtime use

    constructor (answers: nat -> int)
      ensures Valid() && !initialized && domain.regionBase == 0
      ensures fresh(monitor) && fresh(keys) && fresh(keys.pool) && fresh(keys.free) && fresh(space) && fresh(domain)
      ensures monitor.answers == answers && monitor.asked == 0 && space.regions == []
    {
      monitor := new Monitor(answers);
      keys := new PkeyPool();
      space := new AddressSpace();
      domain := new Domain();
      initialized, current, access := false, NoHeap, {};
    }

    /** Between calls nothing is entered and the default heap serves allocations; the one key in use
        is that of the domain, which has a mapped region. */
    ghost predicate Valid()
      reads this, keys, keys.pool, keys.free, space, domain
    {
      && keys.Valid() && space.Valid() && access == {}
      && (if initialized then current == DefaultHeap && keys.total > 0 else current == NoHeap && keys.total == 0)
      && (domain.regionBase == 0 ==> keys.out == {} && !domain.heapMade)
      && (domain.regionBase != 0 ==> initialized && keys.out == {domain.pkey} && Mapped())
    }

    /** Without a domain the key is on the stack. */
    lemma KeyIsIdle()
      requires Valid() && initialized && domain.regionBase == 0
      ensures keys.Idle() != []
    {
    }

    ghost predicate Mapped()
      reads space, domain
    {
      Region(domain.regionBase, domain.regionSize, domain.pkey) in space.regions
    }

    /** The domain is entered: its heap is current and its key the only one accessible. */
    ghost predicate Entered()
      reads this, keys, keys.pool, keys.free, space, domain
    {
      && initialized && keys.Valid() && space.Valid() && keys.total > 0
      && domain.regionBase != 0 && keys.out == {domain.pkey} && Mapped() && domain.heapMade
      && current == DomainHeap(domain.regionBase) && access == {domain.pkey}
    }

    /** mpk_allocator_init */
    method Init() returns (ret: int)
      requires Valid()
      modifies this, monitor, keys, keys.pool, keys.free, space
      ensures Valid() && domain.regionBase == old(domain.regionBase)
      ensures var o, answers := old(monitor.asked), monitor.answers;
              ret == if !old(initialized) && 1 <= answers(o) <= 15 && !old(space.Exhausted(DEFAULT_HEAP_SIZE))
                        && answers(o + 1) == 0 && answers(o + 2) != 0 then 0 else -1
      ensures ret == 0 ==> initialized && monitor.asked == old(monitor.asked) + 3
      ensures ret != 0 ==> initialized == old(initialized)
      ensures forall r :: r in space.regions ==> r in old(space.regions) || r.size == DEFAULT_HEAP_SIZE
      ensures ret == 0 ==> space.next == old(space.next) + DEFAULT_HEAP_SIZE
    {
      if initialized {
        return -1;
      }
      ret := keys.Init(monitor);
      if ret != 0 {
        return -1;
      }
      var made := MakeDefaultHeap();
      if !made {
        keys.Destroy(monitor);
        return -1;
      }
      current, initialized := DefaultHeap, true;
      return 0;
    }

    method MakeDefaultHeap() returns (made: bool)
      requires space.Valid()
      modifies monitor, space
      ensures space.Valid()
      ensures var o, answers := old(monitor.asked), monitor.answers;
              made <==> !old(space.Exhausted(DEFAULT_HEAP_SIZE)) && answers(o) == 0 && answers(o + 1) != 0
      ensures made ==> monitor.asked == old(monitor.asked) + 2 && space.next == old(space.next) + DEFAULT_HEAP_SIZE
      ensures forall r :: r in space.regions ==> r in old(space.regions) || r.size == DEFAULT_HEAP_SIZE
    {
      hide Chained, EndOf, PageUp;
      HeapIsWholePages();
      made := false;
      var base := space.Map(monitor, DEFAULT_HEAP_SIZE, 0);
      if base != 0 {
        var msp := monitor.Ask();
        made := msp != 0;
      }
    }

    /** mpk_allocator_destroy */
    method Destroy()
      requires Valid() && domain.regionBase == 0
      modifies this, monitor, keys
      ensures Valid() && !initialized
    {
      if !initialized {
        return;
      }
      keys.Destroy(monitor);
      current, initialized := NoHeap, false;
    }

    /** mpk_domain_create: all or nothing. */
    method DomainCreate(size: nat) returns (ret: int)
      requires Valid() && initialized && domain.regionBase == 0
      modifies monitor, keys, keys.free, space, domain
      ensures Valid()
      ensures ret == if domain.regionBase != 0 then 0 else -1
      ensures ret == 0 ==> !domain.heapMade && domain.regionSize == PageUp(size)
      ensures space.regions == old(space.regions) +
                if ret == 0 then [Region(domain.regionBase, domain.regionSize, domain.pkey)] else []
      ensures ret == 0 <==> size >= MIN_MSPACE_SIZE && old(keys.Idle()) != [] && !old(space.Exhausted(size))
                            && monitor.answers(old(monitor.asked)) == 0
      ensures size >= MIN_MSPACE_SIZE && old(keys.Idle()) != [] && !old(space.Exhausted(size)) ==>
                monitor.asked == old(monitor.asked) + 1
      ensures old(space.Exhausted(size)) ==> monitor.asked == old(monitor.asked)
      ensures space.next == old(space.next) + if ret == 0 then PageUp(size) else 0
    {
      if size < MIN_MSPACE_SIZE {
        return -1;
      }
      var pkey := keys.Alloc();
      if pkey < 0 {
        return -1;
      }
      assert keys.out == {pkey};
      ret := CreateWithKey(size, pkey);
    }

    method CreateWithKey(size: nat, pkey: int) returns (ret: int)
      requires keys.Valid() && space.Valid() && access == {}
      requires initialized && current == DefaultHeap && keys.total > 0
      requires domain.regionBase == 0 && !domain.heapMade && keys.out == {pkey}
      modifies monitor, keys, keys.free, space, domain
      ensures Valid()
      ensures ret == if domain.regionBase != 0 then 0 else -1
      ensures ret == 0 ==> !domain.heapMade && domain.regionSize == PageUp(size)
      ensures space.regions == old(space.regions) +
                if ret == 0 then [Region(domain.regionBase, domain.regionSize, domain.pkey)] else []
      ensures ret == 0 <==> !old(space.Exhausted(size)) && monitor.answers(old(monitor.asked)) == 0
      ensures monitor.asked == old(monitor.asked) + if old(space.Exhausted(size)) then 0 else 1
      ensures space.next == old(space.next) + if ret == 0 then PageUp(size) else 0
    {
      ret := MapDomain(size, pkey);
      if ret != 0 {
        keys.Free(pkey);
      }
    }

    method MapDomain(size: nat, pkey: int) returns (ret: int)
      requires space.Valid()
      modifies monitor, space, domain
      ensures space.Valid()
      ensures ret == 0 ==>
                && domain.regionBase != 0 && domain.pkey == pkey && !domain.heapMade
                && domain.regionSize == PageUp(size)
      ensures ret != 0 ==> ret == -1 && domain.regionBase == old(domain.regionBase) && domain.heapMade == old(domain.heapMade)
      ensures space.regions == old(space.regions) +
                if ret == 0 then [Region(domain.regionBase, domain.regionSize, pkey)] else []
      ensures ret == 0 <==> !old(space.Exhausted(size)) && monitor.answers(old(monitor.asked)) == 0
      ensures monitor.asked == old(monitor.asked) + if old(space.Exhausted(size)) then 0 else 1
      ensures space.next == old(space.next) + if ret == 0 then PageUp(size) else 0
    {
      var aligned := PageUp(size);
      PageUpTwice(size);
      var base := space.Map(monitor, aligned, pkey);
      if base == 0 {
        return -1;
      }
      domain.pkey, domain.regionBase, domain.regionSize, domain.heapMade := pkey, base, aligned, false;
      return 0;
    }

    /** mpk_domain_enter: the monitor may refuse, and so may dlmalloc when the heap is first made. */
    method DomainEnter() returns (ret: int)
      requires Valid()
      modifies this, monitor, domain`heapMade
      ensures ret == 0 ==> Entered()
      ensures ret != 0 ==> ret == -1 && Valid() && domain.heapMade == old(domain.heapMade)
      ensures initialized == old(initialized)
      ensures ret == 0 <==> domain.regionBase != 0 && EnterOk(monitor.answers, old(monitor.asked), old(domain.heapMade))
      ensures domain.regionBase != 0 ==>
                monitor.asked == old(monitor.asked) + EnterAsks(monitor.answers, old(monitor.asked), old(domain.heapMade))
    {
      if domain.regionBase == 0 {
        return -1;
      }
      ret := monitor.Ask();
      if ret != 0 {
        return -1;
      }
      access := access + {domain.pkey};
      if !domain.heapMade {
        var msp := monitor.Ask();
        if msp == 0 {
          var _ := monitor.Ask();
          access := access - {domain.pkey};
          return -1;
        }
        domain.heapMade := true;
      }
      current := DomainHeap(domain.regionBase);
      return 0;
    }

    /** mpk_domain_exit */
    method DomainExit()
      requires (Valid() && initialized) || Entered()
      modifies this, monitor
      ensures Valid() && initialized && monitor.asked == old(monitor.asked) + 1
    {
      var _ := monitor.Ask();
      access := access - {domain.pkey};
      current := DefaultHeap;
    }

    /** The first part of mpk_domain_destroy: the domain is entered once more to tear its heap down. */
    method DestroyHeap()
      requires Valid() && initialized && domain.regionBase != 0
      modifies this, monitor, domain`heapMade
      ensures Valid() && initialized && !domain.heapMade
      ensures monitor.asked + 1 == old(monitor.asked) + DestroyAsks(monitor.answers, old(monitor.asked), old(domain.heapMade))
    {
      if domain.heapMade {
        var ret := DomainEnter();
        if ret == 0 {
          DomainExit();
        }
        domain.heapMade := false;
      }
    }

    /** mpk_domain_destroy: the key is back in the pool. */
    method DomainDestroy()
      requires Valid() && initialized
      modifies this, monitor, keys, keys.free, domain
      ensures Valid() && initialized && domain.regionBase == 0
      ensures old(domain.regionBase) != 0 ==>
                monitor.asked == old(monitor.asked) + DestroyAsks(monitor.answers, old(monitor.asked), old(domain.heapMade))
    {
      if domain.regionBase == 0 {
        return;
      }
      DestroyHeap();
      ReleaseDomain();
    }

    method ReleaseDomain()
      requires Valid() && initialized && domain.regionBase != 0 && !domain.heapMade
      modifies monitor, keys, keys.free, domain
      ensures Valid() && domain.regionBase == 0 && monitor.asked == old(monitor.asked) + 1
    {
      keys.Free(domain.pkey);
      domain.regionBase, domain.regionSize, domain.pkey := 0, 0, 0;
      var _ := monitor.Ask();
    }
  }
}
