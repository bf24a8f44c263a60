/** The WAMR runtime's module lifecycle and request loop, built with MPK isolation
    (wamr-pal/wasmlet_vmpl1.c:57-368, wamr-pal/wamr_pal_main.c:140-501).

    Outcomes of the monitor, of pal_malloc and of WAMR are those of MpkAllocator.Monitor. */
module WamrRuntime {
  import opened Arith
  import opened InputChannel
  import opened MpkAllocator

  const MPK_MODULE_HEAP: nat := 0x40_0000    // as large as the default heap

  /** What the guest sees: a status and result in the output channel, and the notification. */
  datatype Event = Wrote(status: nat, result: nat) | Notified

  /** A completed call: module, function and arguments, and what it returned. */
  datatype Run = Run(call: Message, result: nat)

  /** The module in effect: its byte code, if one is loaded. */
  datatype InEffect = NoModule | Module(wasm: seq<Byte>)

  // ----- what a guest can tell from requests and replies -----

  predicate IsShutdown(input: seq<Byte>) {
    WasmSize(input) == 0 && NameLen(input) == 0
  }

  /** The shutdown signal is the message without module and name. */
  lemma ShutdownIsEmpty(m: Message)
    requires |m.wasm| < 0x1_0000_0000 && |m.args| < 0x1_0000 && |m.name| <= MAX_NAME
    ensures IsShutdown(Encode(m)) <==> m.wasm == [] && m.name == []
  {
    HeaderRead(m);
  }

  /** The first n requests are not the shutdown signal. */
  ghost predicate Working(requests: seq<seq<Byte>>, n: nat)
    requires n <= |requests|
  {
    forall k :: 0 <= k < n ==> !IsShutdown(requests[k])
  }

  predicate BadName(input: seq<Byte>) {
    NameLen(input) == 0 || NameLen(input) > MAX_NAME
  }

  /** The statuses a request may get when this module is in effect. */
  function Statuses(before: InEffect, input: seq<Byte>): set<nat> {
    if BadName(input) then {1}
    else if WasmSize(input) > 0 then {0, 2, 3, 4}
    else if before.NoModule? then {5}
    else {0, 4}
  }

  /** The module in effect after it: a load that fails loses the module that was there before. */
  function AfterReply(before: InEffect, input: seq<Byte>, status: nat): InEffect {
    if BadName(input) || WasmSize(input) == 0 then before
    else if status == 2 || status == 3 then NoModule
    else Module(Received(input).wasm)
  }

  /** The module in effect after n requests, told from the replies alone. */
  function Ledger(requests: seq<seq<Byte>>, statuses: seq<nat>, n: nat): InEffect
    requires n <= |requests| && n <= |statuses|
  {
    if n == 0 then NoModule
    else AfterReply(Ledger(requests, statuses, n - 1), requests[n - 1], statuses[n - 1])
  }

  /** Every reply is one status write and one notification. */
  function Replies(statuses: seq<nat>, results: seq<nat>): seq<Event>
    requires |statuses| == |results|
  {
    if statuses == [] then []
    else
      var n := |statuses| - 1;
      Replies(statuses[..n], results[..n]) + [Wrote(statuses[n], results[n]), Notified]
  }

  /** What a mode has sent when it is done: an error reply, or the output without the notification. */
  ghost function Sent(status: nat, result: nat): seq<Event> {
    if status == 0 then [Wrote(0, result)] else [Wrote(status, 0), Notified]
  }

  /** Every status is one the request may get when the module that the ledger says is in effect. */
  ghost predicate Fitting(requests: seq<seq<Byte>>, statuses: seq<nat>) {
    |statuses| <= |requests| && forall k: nat :: k < |statuses| ==> Fits(requests, statuses, k)
  }

  predicate Fits(requests: seq<seq<Byte>>, statuses: seq<nat>, k: nat)
    requires k < |requests| && k < |statuses|
  {
    statuses[k] in Statuses(Ledger(requests, statuses, k), requests[k])
  }

  // ----- what the answers decide -----

  /** Where the allocator's addresses and the sequence of answers stand. */
  datatype Position = Position(next: nat, asked: nat)

  predicate NoRoom(next: nat) {
    next + MPK_MODULE_HEAP >= REGION_LIMIT
  }

  /** Initialising: a key, the default heap's region and mspace, and wasm_runtime_full_init. */
  predicate InitOk(answers: nat -> int, at: Position) {
    && 1 <= answers(at.asked) <= 15
    && !NoRoom(at.next) && answers(at.asked + 1) == 0 && answers(at.asked + 2) != 0
    && answers(at.asked + 3) != 0
  }

  function AfterInit(at: Position): Position {
    Position(at.next + DEFAULT_HEAP_SIZE, at.asked + 4)
  }

  /** Loading: mapping, entering, making the heap and wasm_runtime_load succeed. */
  predicate LoadOk(answers: nat -> int, o: nat) {
    answers(o) == 0 && EnterOk(answers, o + 1, false) && answers(o + 3) != 0
  }

  function LoadAsks(answers: nat -> int, o: nat): nat {
    if answers(o) != 0 then 1
    else if !EnterOk(answers, o + 1, false) then 1 + EnterAsks(answers, o + 1, false) + 1
    else if answers(o + 3) != 0 then 5
    else 5 + DestroyAsks(answers, o + 5, true)
  }

  /** Unloading: entering, leaving and destroying the domain. */
  function UnloadAsks(answers: nat -> int, o: nat): nat {
    2 + DestroyAsks(answers, o + 2, true)
  }

  /** Calling: entering and the four calls into WAMR succeed. */
  predicate CallOk(answers: nat -> int, o: nat) {
    answers(o) == 0 && FourOk(answers, o + 1)
  }

  predicate FourOk(answers: nat -> int, o: nat) {
    answers(o) != 0 && answers(o + 1) != 0 && answers(o + 2) != 0 && answers(o + 3) != 0
  }

  function FourAsks(answers: nat -> int, o: nat): nat {
    if answers(o) == 0 then 1 else if answers(o + 1) == 0 then 2 else if answers(o + 2) == 0 then 3 else 4
  }

  function CallAsks(answers: nat -> int, o: nat): nat {
    if answers(o) != 0 then 1
    else 1 + FourAsks(answers, o + 1) + if FourOk(answers, o + 1) then 2 else 1
  }

  /** Status and result of a call, made when the answers stand at o. */
  function CallReply(answers: nat -> int, o: nat): (nat, nat) {
    if CallOk(answers, o) then (0, answers(o + 5) % 0x1_0000_0000) else (4, 0)
  }

  /** Where the answers stand when pal_malloc is asked for the byte code's memory. */
  function MallocAt(before: InEffect, answers: nat -> int, o: nat): nat {
    if before.NoModule? then o else o + UnloadAsks(answers, o)
  }

  /** The status of a load, or 0: no memory, or any failure after that. */
  function LoadStatus(answers: nat -> int, at: Position): nat {
    if answers(at.asked) == 0 then 2
    else if NoRoom(at.next) || !LoadOk(answers, at.asked + 1) then 3
    else 0
  }

  function AfterLoad(answers: nat -> int, at: Position): Position {
    if answers(at.asked) == 0 || NoRoom(at.next) then at.(asked := at.asked + 1)
    else Position(at.next + if answers(at.asked + 1) == 0 then MPK_MODULE_HEAP else 0,
                  at.asked + 1 + LoadAsks(answers, at.asked + 1))
  }

  function AfterCall(answers: nat -> int, at: Position): Position {
    at.(asked := at.asked + CallAsks(answers, at.asked))
  }

  function LoadAndCallReply(answers: nat -> int, at: Position): (nat, nat) {
    var status := LoadStatus(answers, at);
    if status != 0 then (status, 0) else CallReply(answers, AfterLoad(answers, at).asked)
  }

  function AfterLoadAndCall(answers: nat -> int, at: Position): Position {
    var loaded := AfterLoad(answers, at);
    if LoadStatus(answers, at) != 0 then loaded else AfterCall(answers, loaded)
  }

  /** The reply that a request gets: decided by it, the module in effect, the addresses left and the
      answers that come. */
  function ReplyTo(before: InEffect, input: seq<Byte>, answers: nat -> int, at: Position): (nat, nat) {
    if BadName(input) then (1, 0)
    else if WasmSize(input) > 0 then LoadAndCallReply(answers, at.(asked := MallocAt(before, answers, at.asked)))
    else if before.NoModule? then (5, 0)
    else CallReply(answers, at.asked)
  }

  function PositionAfter(before: InEffect, input: seq<Byte>, answers: nat -> int, at: Position): Position {
    if BadName(input) then at
    else if WasmSize(input) > 0 then AfterLoadAndCall(answers, at.(asked := MallocAt(before, answers, at.asked)))
    else if before.NoModule? then at
    else AfterCall(answers, at)
  }

  /** The position after n requests. */
  function PositionAt(requests: seq<seq<Byte>>, statuses: seq<nat>, answers: nat -> int, begin: Position, n: nat): Position
    requires n <= |requests| && n <= |statuses|
  {
    if n == 0 then begin
    else
      var before := PositionAt(requests, statuses, answers, begin, n - 1);
      PositionAfter(Ledger(requests, statuses, n - 1), requests[n - 1], answers, before)
  }

  /** The first request that brings byte code is served if the eleven calls that it takes succeed. */
  lemma FirstRequestServed(input: seq<Byte>, answers: nat -> int, at: Position)
    requires 1 <= NameLen(input) <= MAX_NAME && WasmSize(input) > 0 && at.next + 0x40_0000 < 0x280_0000_0000
    requires answers(at.asked) != 0                                           // pal_malloc
    requires answers(at.asked + 1) == 0 && answers(at.asked + 2) == 0         // map, enter
    requires answers(at.asked + 3) != 0 && answers(at.asked + 4) != 0         // heap, load
    requires answers(at.asked + 6) == 0                                       // enter, after leaving
    requires answers(at.asked + 7) != 0 && answers(at.asked + 8) != 0         // the four calls
    requires answers(at.asked + 9) != 0 && answers(at.asked + 10) != 0
    ensures ReplyTo(NoModule, input, answers, at) == (0, answers(at.asked + 11) % 0x1_0000_0000)
  {
  }

  lemma {:induction false} LedgerExtends(requests: seq<seq<Byte>>, statuses: seq<nat>, status: nat, n: nat)
    requires n <= |statuses| && n <= |requests|
    ensures Ledger(requests, statuses + [status], n) == Ledger(requests, statuses, n)
  {
    if n > 0 {
      LedgerExtends(requests, statuses, status, n - 1);
    }
  }

  lemma {:induction false} FittingExtends(requests: seq<seq<Byte>>, statuses: seq<nat>, status: nat)
    requires Fitting(requests, statuses) && |statuses| < |requests|
    requires status in Statuses(Ledger(requests, statuses, |statuses|), requests[|statuses|])
    ensures Fitting(requests, statuses + [status])
    ensures Ledger(requests, statuses + [status], |statuses| + 1)
              == AfterReply(Ledger(requests, statuses, |statuses|), requests[|statuses|], status)
  {
    var after := statuses + [status];
    forall k: nat | k < |after| ensures Fits(requests, after, k) {
      LedgerExtends(requests, statuses, status, k);
      if k < |statuses| {
        assert Fits(requests, statuses, k);
      }
    }
    LedgerExtends(requests, statuses, status, |statuses|);
  }

  /** Every reply is the one that the answers decide. */
  ghost predicate AllDecided(requests: seq<seq<Byte>>, statuses: seq<nat>, results: seq<nat>, answers: nat -> int, begin: Position) {
    && |statuses| == |results| <= |requests|
    && forall k: nat :: k < |statuses| ==> DecidedAt(requests, statuses, results, answers, begin, k)
  }

  predicate DecidedAt(requests: seq<seq<Byte>>, statuses: seq<nat>, results: seq<nat>, answers: nat -> int, begin: Position, k: nat)
    requires k < |requests| && k < |statuses| && k < |results|
  {
    (statuses[k], results[k])
      == ReplyTo(Ledger(requests, statuses, k), requests[k], answers, PositionAt(requests, statuses, answers, begin, k))
  }

  /** The calls that completed, told from the replies. */
  function Completed(requests: seq<seq<Byte>>, statuses: seq<nat>, results: seq<nat>, n: nat): seq<Run>
    requires n <= |requests| && n <= |statuses| && n <= |results|
  {
    if n == 0 then []
    else
      var module' := Ledger(requests, statuses, n);
      Completed(requests, statuses, results, n - 1)
        + if statuses[n - 1] == 0 && module'.Module? then
            [Run(Received(requests[n - 1]).(wasm := module'.wasm), results[n - 1])] else []
  }

  lemma SuccessHasModule(before: InEffect, input: seq<Byte>)
    requires 0 in Statuses(before, input)
    ensures AfterReply(before, input, 0).Module?
  {
  }

  lemma FailureHasNoResult(before: InEffect, input: seq<Byte>, answers: nat -> int, at: Position)
    ensures var (status, result) := ReplyTo(before, input, answers, at); status != 0 ==> result == 0
  {
  }

  lemma {:induction false} CompletedExtends(requests: seq<seq<Byte>>, statuses: seq<nat>, results: seq<nat>, status: nat,
                                            result: nat, n: nat)
    requires n <= |statuses| == |results| && n <= |requests|
    ensures Completed(requests, statuses + [status], results + [result], n) == Completed(requests, statuses, results, n)
  {
    LedgerExtends(requests, statuses, status, n);
    if n > 0 {
      CompletedExtends(requests, statuses, results, status, result, n - 1);
    }
  }

  lemma {:induction false} PositionExtends(requests: seq<seq<Byte>>, statuses: seq<nat>, status: nat, answers: nat -> int,
                                           begin: Position, n: nat)
    requires n <= |statuses| && n <= |requests|
    ensures PositionAt(requests, statuses + [status], answers, begin, n) == PositionAt(requests, statuses, answers, begin, n)
  {
    hide PositionAfter, AfterReply;
    if n > 0 {
      PositionExtends(requests, statuses, status, answers, begin, n - 1);
      LedgerExtends(requests, statuses, status, n - 1);
    }
  }

  lemma {:induction false} DecidedExtends(requests: seq<seq<Byte>>, statuses: seq<nat>, results: seq<nat>, status: nat,
                                          result: nat, answers: nat -> int, begin: Position)
    requires AllDecided(requests, statuses, results, answers, begin) && |statuses| < |requests|
    requires var n := |statuses|;
             (status, result)
               == ReplyTo(Ledger(requests, statuses, n), requests[n], answers, PositionAt(requests, statuses, answers, begin, n))
    ensures AllDecided(requests, statuses + [status], results + [result], answers, begin)
    ensures var n := |statuses|;
            PositionAt(requests, statuses + [status], answers, begin, n + 1)
              == PositionAfter(Ledger(requests, statuses, n), requests[n], answers,
                               PositionAt(requests, statuses, answers, begin, n))
  {
    hide ReplyTo, PositionAfter, AfterReply;
    var statuses', results' := statuses + [status], results + [result];
    forall k: nat | k < |statuses'| ensures DecidedAt(requests, statuses', results', answers, begin, k) {
      LedgerExtends(requests, statuses, status, k);
      PositionExtends(requests, statuses, status, answers, begin, k);
      if k < |statuses| {
        assert DecidedAt(requests, statuses, results, answers, begin, k);
      }
    }
    LedgerExtends(requests, statuses, status, |statuses|);
    PositionExtends(requests, statuses, status, answers, begin, |statuses|);
  }

  lemma RepliesExtend(statuses: seq<nat>, results: seq<nat>, status: nat, result: nat)
    requires |statuses| == |results|
    ensures Replies(statuses + [status], results + [result]) == Replies(statuses, results) + [Wrote(status, result), Notified]
  {
    var n := |statuses|;
    assert (statuses + [status])[..n] == statuses && (results + [result])[..n] == results;
  }

  class Runtime {
    const alloc: Allocator
    var initialized: bool              // g_runtime_initialized
    var loaded: bool                   // g_module
    var domainCreated: bool            // g_domain_created
    var buffer: array?<Byte>           // g_wasm_buf
    var output: seq<Event>
    ghost var wasm: seq<Byte>          // the byte code the loaded module was made from
    ghost var runs: seq<Run>           // calls that completed
    ghost var strays: nat              // WAMR calls on a module while its domain was not entered

    constructor (answers: nat -> int)
      ensures Valid() && !initialized && buffer == null && !loaded
      ensures output == [] && runs == [] && strays == 0
      ensures fresh(alloc) && fresh(alloc.monitor) && fresh(alloc.keys) && fresh(alloc.keys.pool)
      ensures fresh(alloc.keys.free) && fresh(alloc.space) && fresh(alloc.domain)
    {
      alloc := new Allocator(answers);
      initialized, loaded, domainCreated, buffer, output := false, false, false, null, [];
      wasm, runs, strays := [], [], 0;
    }

    /** A module is loaded if and only if its domain exists; its key is then out of the pool, and no
        other is (Allocator.Valid). */
    ghost predicate Valid()
      reads this, alloc, alloc.keys, alloc.keys.pool, alloc.keys.free, alloc.space, alloc.domain
    {
      && alloc.Valid() && initialized == alloc.initialized && Uniform()
      && loaded == domainCreated == (alloc.domain.regionBase != 0)
      && (loaded ==> initialized && alloc.domain.heapMade)
    }

    /** ... and if and only if the buffer is held. */
    ghost predicate AtLoopHead()
      reads this, alloc, alloc.keys, alloc.keys.pool, alloc.keys.free, alloc.space, alloc.domain
    {
      Valid() && initialized && (buffer != null <==> loaded)
    }

    /** Every region is of the one size this runtime asks for. */
    ghost predicate Uniform()
      reads alloc.space
    {
      forall r :: r in alloc.space.regions ==> r.size == DEFAULT_HEAP_SIZE
    }

    /** In the life of the runtime at most 557054 modules can be loaded: the default heap and every
        domain take 4 MB of addresses that are never reused, and no two of them overlap. */
    lemma RegionsAreFew(j: nat, k: nat)
      requires Valid()
      ensures |alloc.space.regions| <= 557055
      ensures j < k < |alloc.space.regions| ==>
                alloc.space.regions[j].base + DEFAULT_HEAP_SIZE <= alloc.space.regions[k].base
    {
      RegionsRunOut(alloc.space.regions, alloc.space.next);
      if j < k < |alloc.space.regions| {
        RegionsDisjoint(alloc.space.regions, alloc.space.next, j, k);
      }
    }

    ghost function Now(): InEffect
      reads this
    {
      if loaded then Module(wasm) else NoModule
    }

    ghost function Standing(): Position
      reads alloc.space, alloc.monitor
    {
      Position(alloc.space.next, alloc.monitor.asked)
    }

    ghost method Touch()
      modifies `strays
      ensures strays == old(strays) + if alloc.Entered() then 0 else 1
    {
      strays := if alloc.Entered() then strays else strays + 1;
    }

    /** wasmlet_load_module */
    method LoadModule(code: array<Byte>) returns (ret: int)
      requires Valid()
      modifies this, alloc, alloc.monitor, alloc.keys, alloc.keys.free, alloc.space, alloc.domain
      ensures Valid() && initialized == old(initialized) && buffer == old(buffer) && output == old(output)
      ensures var may := initialized && code.Length > 0 && !old(loaded) && !NoRoom(old(alloc.space.next));
              var answers, o := alloc.monitor.answers, old(alloc.monitor.asked);
              && ret == (if may && LoadOk(answers, o) then 0 else -1)
              && alloc.monitor.asked == o + (if may then LoadAsks(answers, o) else 0)
              && alloc.space.next == old(alloc.space.next) + if may && answers(o) == 0 then MPK_MODULE_HEAP else 0
      ensures if ret == 0 then loaded && wasm == code[..] else loaded == old(loaded) && wasm == old(wasm)
      ensures strays == old(strays) && runs == old(runs)
    {
      hide EnterOk, EnterAsks, DestroyAsks, NoRoom;
      ret := -1;
      if initialized && code.Length > 0 && !loaded {
        ret := CreateDomain();
        if ret == 0 {
          domainCreated := true;
          ret := LoadInDomain(code);
        }
      }
    }

    method CreateDomain() returns (ret: int)
      requires Valid() && initialized && !loaded
      modifies alloc.monitor, alloc.keys, alloc.keys.free, alloc.space, alloc.domain
      ensures alloc.Valid() && Uniform() && !alloc.domain.heapMade
      ensures var room, answers, o := !NoRoom(old(alloc.space.next)), alloc.monitor.answers, old(alloc.monitor.asked);
              && ret == (if room && answers(o) == 0 then 0 else -1)
              && (ret == 0 <==> alloc.domain.regionBase != 0)
              && alloc.monitor.asked == o + (if room then 1 else 0)
              && alloc.space.next == old(alloc.space.next) + if ret == 0 then MPK_MODULE_HEAP else 0
    {
      hide PageUp;
      HeapIsWholePages();
      alloc.KeyIsIdle();
      ret := alloc.DomainCreate(MPK_MODULE_HEAP);
    }

    method LoadInDomain(code: array<Byte>) returns (ret: int)
      requires alloc.Valid() && initialized && alloc.initialized && Uniform()
      requires !loaded && domainCreated && alloc.domain.regionBase != 0 && !alloc.domain.heapMade
      modifies this, alloc, alloc.monitor, alloc.keys, alloc.keys.free, alloc.domain
      ensures var answers, o := alloc.monitor.answers, old(alloc.monitor.asked);
              var entered := EnterOk(answers, o, false);
              && ret == (if entered && answers(o + 2) != 0 then 0 else -1)
              && alloc.monitor.asked == (if !entered then o + EnterAsks(answers, o, false) + 1
                                         else if answers(o + 2) != 0 then o + 4
                                         else o + 4 + DestroyAsks(answers, o + 4, true))
      ensures Valid() && initialized && buffer == old(buffer) && output == old(output)
      ensures if ret == 0 then loaded && wasm == code[..] else !loaded && wasm == old(wasm)
      ensures strays == old(strays) && runs == old(runs)
    {
      ret := alloc.DomainEnter();
      if ret == 0 {
        ret := LoadEntered();
      }
      if ret == 0 {
        wasm := code[..];
      } else {
        DropDomain();
      }
    }

    method LoadEntered() returns (ret: int)
      requires alloc.Entered()
      modifies `loaded, `strays, alloc, alloc.monitor
      ensures alloc.Valid() && alloc.initialized && strays == old(strays)
      ensures loaded <==> alloc.monitor.answers(old(alloc.monitor.asked)) != 0
      ensures ret == if loaded then 0 else -1
      ensures alloc.monitor.asked == old(alloc.monitor.asked) + 2
    {
      Touch();
      var m := alloc.monitor.Ask();                // wasm_runtime_load
      loaded := m != 0;
      ret := if loaded then 0 else -1;
      alloc.DomainExit();
    }

    method DropDomain()
      requires alloc.Valid() && alloc.initialized && Uniform()
      modifies `domainCreated, alloc, alloc.monitor, alloc.keys, alloc.keys.free, alloc.domain
      ensures alloc.Valid() && alloc.initialized && alloc.domain.regionBase == 0 && !domainCreated && Uniform()
      ensures old(alloc.domain.regionBase) != 0 ==>
                var o := old(alloc.monitor.asked);
                alloc.monitor.asked == o + DestroyAsks(alloc.monitor.answers, o, old(alloc.domain.heapMade))
    {
      alloc.DomainDestroy();
      domainCreated := false;
    }

    /** wasmlet_unload_module: the module is unloaded inside its domain exactly if the monitor lets the
        runtime enter it; the result of entering is not looked at. */
    method UnloadModule()
      requires Valid()
      modifies this, alloc, alloc.monitor, alloc.keys, alloc.keys.free, alloc.domain
      ensures Valid() && !loaded && initialized == old(initialized) && buffer == old(buffer) && output == old(output)
      ensures strays == old(strays) +
                if old(loaded) && alloc.monitor.answers(old(alloc.monitor.asked)) != 0 then 1 else 0
      ensures runs == old(runs)
      ensures var o := old(alloc.monitor.asked);
              alloc.monitor.asked == o + if old(loaded) then UnloadAsks(alloc.monitor.answers, o) else 0
    {
      if loaded {
        UnloadInDomain();
        loaded := false;
        if domainCreated {
          DropDomain();
        }
      }
    }

    method UnloadInDomain()
      requires Valid() && loaded
      modifies `strays, alloc, alloc.monitor, alloc.domain`heapMade
      ensures alloc.Valid() && alloc.initialized
      ensures strays == old(strays) + if alloc.monitor.answers(old(alloc.monitor.asked)) != 0 then 1 else 0
      ensures alloc.domain.heapMade && alloc.monitor.asked == old(alloc.monitor.asked) + 2
    {
      if domainCreated {
        var _ := alloc.DomainEnter();
      }
      Touch();                                     // wasm_runtime_unload
      if domainCreated {
        alloc.DomainExit();
      }
    }

    /** wasmlet_invoke, by its calls into WAMR; the domain is left again in every case. */
    method Invoke(name: seq<Byte>, args: seq<U32>) returns (ret: int, result: nat)
      requires Valid()
      modifies this, alloc, alloc.monitor, alloc.domain`heapMade
      ensures Valid() && initialized == old(initialized) && loaded == old(loaded) && buffer == old(buffer)
      ensures output == old(output) && wasm == old(wasm) && strays == old(strays)
      ensures var answers, o := alloc.monitor.answers, old(alloc.monitor.asked);
              && ret == (if initialized && loaded && CallOk(answers, o) then 0 else -1)
              && result == (if ret == 0 then answers(o + 5) % 0x1_0000_0000 else 0)
              && alloc.monitor.asked == o + if initialized && loaded then CallAsks(answers, o) else 0
      ensures runs == if ret == 0 then old(runs) + [Run(Message(wasm, name, args), result)] else old(runs)
    {
      hide FourOk, FourAsks;
      ret, result := -1, 0;
      if initialized && loaded {
        var r := 0;
        if domainCreated {
          r := alloc.DomainEnter();
        }
        if r == 0 {
          ret, result := InvokeInside(name, args);
        }
      }
    }

    method InvokeInside(name: seq<Byte>, args: seq<U32>) returns (ret: int, result: nat)
      requires alloc.Entered() && domainCreated
      modifies `strays, `runs, alloc, alloc.monitor
      ensures alloc.Valid() && alloc.initialized && strays == old(strays)
      ensures var answers, o := alloc.monitor.answers, old(alloc.monitor.asked);
              && ret == (if FourOk(answers, o) then 0 else -1)
              && result == (if ret == 0 then answers(o + 4) % 0x1_0000_0000 else 0)
              && alloc.monitor.asked == o + FourAsks(answers, o) + if ret == 0 then 2 else 1
      ensures runs == if ret == 0 then old(runs) + [Run(Message(wasm, name, args), result)] else old(runs)
    {
      hide FourOk, FourAsks;
      ret, result := RunInside(name, args);
      if domainCreated {
        alloc.DomainExit();
      }
    }

    method RunInside(name: seq<Byte>, args: seq<U32>) returns (ret: int, result: nat)
      requires alloc.Entered()
      modifies `strays, `runs, alloc.monitor
      ensures alloc.Entered() && strays == old(strays)
      ensures var answers, o := alloc.monitor.answers, old(alloc.monitor.asked);
              && ret == (if FourOk(answers, o) then 0 else -1)
              && result == (if ret == 0 then answers(o + 4) % 0x1_0000_0000 else 0)
              && alloc.monitor.asked == o + FourAsks(answers, o) + if ret == 0 then 1 else 0
      ensures runs == if ret == 0 then old(runs) + [Run(Message(wasm, name, args), result)] else old(runs)
    {
      ret, result := -1, 0;
      Touch();
      var done := CallsSucceed();
      if done {
        var value := alloc.monitor.Ask();          // argv[0]
        result := value % 0x1_0000_0000;
        runs := runs + [Run(Message(wasm, name, args), result)];
        ret := 0;
      }
    }

    /** Each of the four calls is made only if the ones before have succeeded. */
    method CallsSucceed() returns (done: bool)
      modifies alloc.monitor
      ensures var answers, o := alloc.monitor.answers, old(alloc.monitor.asked);
              (done <==> FourOk(answers, o)) && alloc.monitor.asked == o + FourAsks(answers, o)
    {
      var answer := alloc.monitor.Ask();           // wasm_runtime_instantiate
      if answer != 0 {
        answer := alloc.monitor.Ask();             // wasm_runtime_create_exec_env
      }
      if answer != 0 {
        answer := alloc.monitor.Ask();             // wasm_runtime_lookup_function
      }
      if answer != 0 {
        answer := alloc.monitor.Ask();             // wasm_runtime_call_wasm
      }
      done := answer != 0;
    }

    /** wasmlet_runtime_init */
    method Init() returns (ret: int)
      requires Valid()
      modifies this, alloc, alloc.monitor, alloc.keys, alloc.keys.pool, alloc.keys.free, alloc.space
      ensures Valid() && buffer == old(buffer) && loaded == old(loaded)
      ensures output == old(output) && runs == old(runs) && strays == old(strays)
      ensures ret == if !old(initialized) && InitOk(alloc.monitor.answers, old(Standing())) then 0 else -1
      ensures if ret == 0 then initialized && Standing() == AfterInit(old(Standing())) else initialized == old(initialized)
    {
      hide PageUp;
      HeapIsWholePages();
      ret := -1;
      if !initialized {
        var heap := alloc.Init();
        if heap == 0 {
          var full := alloc.monitor.Ask();         // wasm_runtime_full_init
          if full == 0 {
            alloc.Destroy();
          } else {
            initialized := true;
            ret := 0;
          }
        }
      }
    }

    /** wasmlet_runtime_destroy */
    method Destroy()
      requires Valid()
      modifies this, alloc, alloc.monitor, alloc.keys, alloc.keys.free, alloc.domain
      ensures Valid() && !initialized && buffer == old(buffer) && output == old(output)
    {
      if initialized {
        UnloadModule();
        alloc.Destroy();
        initialized := false;
      }
    }

    // ----- the request loop -----

    /** write_output_channel */
    method WriteOutput(status: nat, result: nat)
      modifies `output
      ensures output == old(output) + [Wrote(status, result)] && AtLoopHead() == old(AtLoopHead())
    {
      output := output + [Wrote(status, result)];
    }

    /** pal_svsm_get_result */
    method Notify()
      modifies `output
      ensures output == old(output) + [Notified] && AtLoopHead() == old(AtLoopHead())
    {
      output := output + [Notified];
    }

    /** An error reply, after which the loop goes on with the next request. */
    method Fail(status: nat)
      requires status != 0
      modifies `output
      ensures output == old(output) + Sent(status, 0) && AtLoopHead() == old(AtLoopHead())
    {
      WriteOutput(status, 0);
      Notify();
    }

    /** Unloading the module before another one is loaded, or at shutdown. */
    method DropModule()
      requires AtLoopHead()
      modifies this, alloc, alloc.monitor, alloc.keys, alloc.keys.free, alloc.domain
      ensures AtLoopHead() && !loaded && output == old(output) && runs == old(runs)
      ensures old(loaded) && alloc.monitor.answers(old(alloc.monitor.asked)) != 0 <==> strays != old(strays)
      ensures alloc.monitor.asked == MallocAt(old(Now()), alloc.monitor.answers, old(alloc.monitor.asked))
    {
      if buffer != null {
        UnloadModule();
        buffer := null;
      }
    }

    /** Mode 1 up to the call: 0, or the status to report. */
    method LoadRequested(input: seq<Byte>, offset: nat) returns (status: nat)
      requires AtLoopHead() && !loaded && WasmSize(input) > 0 && offset == WasmOffset(input)
      modifies this, alloc, alloc.monitor, alloc.keys, alloc.keys.free, alloc.space, alloc.domain
      ensures AtLoopHead() && runs == old(runs) && strays == old(strays)
      ensures status == LoadStatus(alloc.monitor.answers, old(Standing()))
      ensures Standing() == AfterLoad(alloc.monitor.answers, old(Standing()))
      ensures output == old(output) + if status == 0 then [] else Sent(status, 0)
      ensures Now() == if status == 0 then Module(Received(input).wasm) else NoModule
    {
      hide LoadOk, LoadAsks, NoRoom;
      status := 0;
      var memory := alloc.monitor.Ask();           // pal_malloc
      if memory == 0 {
        status := 2;
        Fail(status);
      } else {
        var code := ReadWasm(input, offset, WasmSize(input));
        var ret := LoadBuffered(code);
        if ret != 0 {
          status := 3;
          Fail(status);
        }
      }
    }

    method LoadBuffered(code: array<Byte>) returns (ret: int)
      requires AtLoopHead() && !loaded && code.Length > 0
      modifies this, alloc, alloc.monitor, alloc.keys, alloc.keys.free, alloc.space, alloc.domain
      ensures AtLoopHead() && output == old(output) && runs == old(runs) && strays == old(strays)
      ensures var room, answers, o := !NoRoom(old(alloc.space.next)), alloc.monitor.answers, old(alloc.monitor.asked);
              && ret == (if room && LoadOk(answers, o) then 0 else -1)
              && alloc.monitor.asked == o + (if room then LoadAsks(answers, o) else 0)
              && alloc.space.next == old(alloc.space.next) + if room && answers(o) == 0 then MPK_MODULE_HEAP else 0
      ensures Now() == if ret == 0 then Module(code[..]) else NoModule
    {
      hide LoadOk, LoadAsks, NoRoom;
      buffer := code;
      ret := LoadModule(code);
      if ret != 0 {
        buffer := null;
      }
    }

    /** The call of either mode, with the name and arguments read before. */
    method Call(input: seq<Byte>, funcName: array<Byte>, argv: array<U32>, argc: nat) returns (status: nat, result: nat)
      requires AtLoopHead() && loaded
      requires NameLen(input) <= MAX_NAME < funcName.Length && argc <= argv.Length
      requires CString(funcName[..NameLen(input) + 1]) == Received(input).name && argv[..argc] == Received(input).args
      modifies this, alloc, alloc.monitor, alloc.domain`heapMade
      ensures AtLoopHead() && Now() == old(Now())
      ensures (status, result) == CallReply(alloc.monitor.answers, old(alloc.monitor.asked))
      ensures Standing() == AfterCall(alloc.monitor.answers, old(Standing()))
      ensures output == old(output) + Sent(status, result)
      ensures runs == if status == 0 then old(runs) + [Run(Message(wasm, Received(input).name, Received(input).args), result)]
                      else old(runs)
    {
      var ret;
      ret, result := Invoke(CString(funcName[..NameLen(input) + 1]), argv[..argc]);
      if ret != 0 {
        status := 4;
        Fail(status);
      } else {
        status := 0;
        WriteOutput(status, result);
      }
    }

    /** What every mode promises: how the module in effect, the status and the calls made hang together. */
    ghost predicate Answered(before: InEffect, ran: seq<Run>, input: seq<Byte>, status: nat, result: nat)
      reads this
    {
      && status in Statuses(before, input) && Now() == AfterReply(before, input, status)
      && runs == if status == 0 then ran + [Run(Message(wasm, Received(input).name, Received(input).args), result)] else ran
    }

    /** ... and that the reply is the one that the answers decide. */
    ghost predicate Decided(before: InEffect, at: Position, input: seq<Byte>, status: nat, result: nat)
      reads alloc.space, alloc.monitor
    {
      && (status, result) == ReplyTo(before, input, alloc.monitor.answers, at)
      && Standing() == PositionAfter(before, input, alloc.monitor.answers, at)
    }

    /** Mode 1: load a new module and call a function of it. */
    method LoadAndCall(input: seq<Byte>) returns (status: nat, result: nat)
      requires AtLoopHead() && !BadName(input) && WasmSize(input) > 0
      modifies this, alloc, alloc.monitor, alloc.keys, alloc.keys.free, alloc.space, alloc.domain
      ensures AtLoopHead() && output == old(output) + Sent(status, result)
      ensures Answered(old(Now()), old(runs), input, status, result)
      ensures Decided(old(Now()), old(Standing()), input, status, result)
    {
      hide LoadAndCallReply, AfterLoadAndCall, Received, NameLen, WasmOffset, UnloadAsks, Sent, Valid;
      DropModule();
      status, result := ReadThenLoad(input);
    }

    method ReadThenLoad(input: seq<Byte>) returns (status: nat, result: nat)
      requires AtLoopHead() && !loaded && !BadName(input) && WasmSize(input) > 0
      modifies this, alloc, alloc.monitor, alloc.keys, alloc.keys.free, alloc.space, alloc.domain
      ensures AtLoopHead() && output == old(output) + Sent(status, result) && status in {0, 2, 3, 4}
      ensures (status, result) == LoadAndCallReply(alloc.monitor.answers, old(Standing()))
      ensures Standing() == AfterLoadAndCall(alloc.monitor.answers, old(Standing()))
      ensures Now() == if status in {2, 3} then NoModule else Module(Received(input).wasm)
      ensures runs == if status == 0 then old(runs) + [Run(Message(wasm, Received(input).name, Received(input).args), result)]
                      else old(runs)
    {
      hide LoadAndCallReply, AfterLoadAndCall, Received, WasmOffset, Sent, Now;
      var funcName, argv := new Byte[MAX_NAME + 1], new U32[MAX_ARGS];
      var argc, offset := ReadCall(input, funcName, argv);
      status, result := LoadThenCall(input, funcName, argv, argc, offset);
    }

    method LoadThenCall(input: seq<Byte>, funcName: array<Byte>, argv: array<U32>, argc: nat, offset: nat)
      returns (status: nat, result: nat)
      requires AtLoopHead() && !loaded && WasmSize(input) > 0 && offset == WasmOffset(input)
      requires NameLen(input) <= MAX_NAME < funcName.Length && argc <= argv.Length
      requires CString(funcName[..NameLen(input) + 1]) == Received(input).name && argv[..argc] == Received(input).args
      modifies this, alloc, alloc.monitor, alloc.keys, alloc.keys.free, alloc.space, alloc.domain
      ensures AtLoopHead() && output == old(output) + Sent(status, result) && status in {0, 2, 3, 4}
      ensures (status, result) == LoadAndCallReply(alloc.monitor.answers, old(Standing()))
      ensures Standing() == AfterLoadAndCall(alloc.monitor.answers, old(Standing()))
      ensures Now() == if status in {2, 3} then NoModule else Module(Received(input).wasm)
      ensures runs == if status == 0 then old(runs) + [Run(Message(wasm, Received(input).name, Received(input).args), result)]
                      else old(runs)
    {
      hide Valid, Received, NameLen, WasmOffset;
      result := 0;
      status := LoadRequested(input, offset);
      if status == 0 {
        status, result := Call(input, funcName, argv, argc);
      }
    }

    /** Mode 2: call a function of the module that is loaded. */
    method CallOnly(input: seq<Byte>) returns (status: nat, result: nat)
      requires AtLoopHead() && !BadName(input) && WasmSize(input) == 0
      modifies this, alloc, alloc.monitor, alloc.domain`heapMade
      ensures AtLoopHead() && output == old(output) + Sent(status, result)
      ensures Answered(old(Now()), old(runs), input, status, result)
      ensures Decided(old(Now()), old(Standing()), input, status, result)
    {
      status, result := 5, 0;
      if buffer == null {
        Fail(status);
      } else {
        var funcName, argv := new Byte[MAX_NAME + 1], new U32[MAX_ARGS];
        var argc, offset := ReadCall(input, funcName, argv);
        status, result := Call(input, funcName, argv, argc);
      }
    }

    method Dispatch(input: seq<Byte>) returns (status: nat, result: nat)
      requires AtLoopHead() && !IsShutdown(input)
      modifies this, alloc, alloc.monitor, alloc.keys, alloc.keys.free, alloc.space, alloc.domain
      ensures AtLoopHead() && output == old(output) + Sent(status, result) && (status != 0 ==> result == 0)
      ensures Answered(old(Now()), old(runs), input, status, result)
      ensures Decided(old(Now()), old(Standing()), input, status, result)
    {
      hide Received, Sent, Valid, AtLoopHead;
      FailureHasNoResult(Now(), input, alloc.monitor.answers, Standing());
      if BadName(input) {
        status := 1;
        Fail(status);
        result := 0;
      } else if WasmSize(input) > 0 {
        status, result := LoadAndCall(input);
      } else {
        status, result := CallOnly(input);
      }
    }

    /** One request that is not the shutdown signal: exactly one reply. */
    method HandleRequest(input: seq<Byte>) returns (status: nat, result: nat)
      requires AtLoopHead() && !IsShutdown(input)
      modifies this, alloc, alloc.monitor, alloc.keys, alloc.keys.free, alloc.space, alloc.domain
      ensures AtLoopHead()
      ensures Answered(old(Now()), old(runs), input, status, result)
      ensures Decided(old(Now()), old(Standing()), input, status, result)
      ensures output == old(output) + [Wrote(status, result), Notified]
      ensures status != 0 ==> result == 0
    {
      hide AtLoopHead, Valid, WasmSize, NameLen, Received, ReplyTo, PositionAfter, Statuses, AfterReply;
      status, result := Dispatch(input);
      if status == 0 {
        Notify();
      }
    }

    /** What the runtime's state and the replies to the first requests have to do with each other. */
    ghost predicate Served(requests: seq<seq<Byte>>, statuses: seq<nat>, results: seq<nat>, begin: Position, ran: seq<Run>)
      reads this, alloc.space, alloc.monitor
    {
      && AllDecided(requests, statuses, results, alloc.monitor.answers, begin) && Fitting(requests, statuses)
      && Now() == Ledger(requests, statuses, |statuses|)
      && Standing() == PositionAt(requests, statuses, alloc.monitor.answers, begin, |statuses|)
      && runs == ran + Completed(requests, statuses, results, |statuses|)
    }

    /** One request, and what that adds. */
    method ServeOne(requests: seq<seq<Byte>>, ghost statuses: seq<nat>, ghost results: seq<nat>, served: nat,
                    ghost begin: Position, ghost ran: seq<Run>)
        returns (ghost status: nat, ghost result: nat)
      requires AtLoopHead() && |statuses| == |results| == served < |requests| && !IsShutdown(requests[served])
      requires Served(requests, statuses, results, begin, ran)
      modifies this, alloc, alloc.monitor, alloc.keys, alloc.keys.free, alloc.space, alloc.domain
      ensures AtLoopHead() && output == old(output) + [Wrote(status, result), Notified]
      ensures Served(requests, statuses + [status], results + [result], begin, ran)
    {
      hide Statuses, AfterReply, IsShutdown, Fits, AtLoopHead, Valid, Received, ReplyTo, PositionAfter, DecidedAt;
      status, result := HandleRequest(requests[served]);
      if status == 0 {
        SuccessHasModule(Ledger(requests, statuses, served), requests[served]);
      }
      FittingExtends(requests, statuses, status);
      DecidedExtends(requests, statuses, results, status, result, alloc.monitor.answers, begin);
      CompletedExtends(requests, statuses, results, status, result, served);
    }

    /** The request loop up to the shutdown signal.  Each reply is the one that its request, the module in
        effect and the answers decide, and the guest can tell which module is in effect and which calls
        have completed from its requests and the replies. */
    method Serve(requests: seq<seq<Byte>>) returns (served: nat, ghost statuses: seq<nat>, ghost results: seq<nat>)
      requires AtLoopHead() && !loaded
      modifies this, alloc, alloc.monitor, alloc.keys, alloc.keys.free, alloc.space, alloc.domain
      ensures AtLoopHead()
      ensures served <= |requests| && |statuses| == |results| == served
      ensures Working(requests, served)
      ensures served < |requests| ==> IsShutdown(requests[served])
      ensures output == old(output) + Replies(statuses, results)
      ensures Served(requests, statuses, results, old(Standing()), old(runs))
    {
      hide Statuses, AfterReply, IsShutdown, Fits, AtLoopHead, Valid, Received, ReplyTo, PositionAfter;
      served, statuses, results := 0, [], [];
      while served < |requests| && !IsShutdown(requests[served])
        invariant AtLoopHead()
        invariant served <= |requests| && |statuses| == |results| == served
        invariant Working(requests, served)
        invariant output == old(output) + Replies(statuses, results)
        invariant Served(requests, statuses, results, old(Standing()), old(runs))
      {
        ghost var status, result := ServeOne(requests, statuses, results, served, old(Standing()), old(runs));
        RepliesExtend(statuses, results, status, result);
        statuses, results, served := statuses + [status], results + [result], served + 1;
      }
    }

    /** wamr_pal_main: it starts if the heap and the runtime can be initialised; every request before the
        shutdown signal has the one reply that the answers decide; and after it nothing is left. */
    method PalMain(requests: seq<seq<Byte>>) returns (exit: int, finished: bool)
      requires Valid() && !initialized && !loaded && buffer == null && output == []
      modifies this, alloc, alloc.monitor, alloc.keys, alloc.keys.pool, alloc.keys.free, alloc.space, alloc.domain
      ensures Valid()
      ensures var answers, at := alloc.monitor.answers, old(Standing());
              exit == if answers(at.asked) == 0 && InitOk(answers, at.(asked := at.asked + 1)) then 0 else 1
      ensures exit != 0 ==> !initialized && !finished && output == []
      ensures finished ==> !initialized && !loaded && buffer == null && alloc.keys.out == {} && alloc.keys.total == 0
      ensures exit == 0 && !finished ==> AtLoopHead() && Working(requests, |requests|)
      ensures exit == 0 ==> exists statuses, results ::
                && AllDecided(requests, statuses, results, alloc.monitor.answers, FirstPosition(old(Standing())))
                && output == Replies(statuses, results)
                && (if finished then |results| < |requests| && IsShutdown(requests[|results|]) else |results| == |requests|)
    {
      hide InitOk, IsShutdown, AllDecided;
      exit, finished := 1, false;
      var heap := alloc.monitor.Ask();             // pal_heap_init
      if heap == 0 {
        var ret := Init();
        if ret == 0 {
          exit := 0;
          finished := Loop(requests);
        }
      }
    }

    static function FirstPosition(at: Position): Position {
      AfterInit(at.(asked := at.asked + 1))
    }

    /** The request loop and what comes after it. */
    method Loop(requests: seq<seq<Byte>>) returns (finished: bool)
      requires AtLoopHead() && !loaded && output == []
      modifies this, alloc, alloc.monitor, alloc.keys, alloc.keys.free, alloc.space, alloc.domain
      ensures Valid()
      ensures finished ==> !initialized && !loaded && buffer == null && alloc.keys.out == {} && alloc.keys.total == 0
      ensures !finished ==> AtLoopHead() && Working(requests, |requests|)
      ensures exists statuses, results ::
                && AllDecided(requests, statuses, results, alloc.monitor.answers, old(Standing()))
                && output == Replies(statuses, results)
                && (if finished then |results| < |requests| && IsShutdown(requests[|results|]) else |results| == |requests|)
    {
      hide IsShutdown, AllDecided, Fitting;
      var served, statuses, results := Serve(requests);
      assert AllDecided(requests, statuses, results, alloc.monitor.answers, old(Standing()));
      finished := served < |requests|;
      if finished {
        DropModule();
        Destroy();
      }
    }
  }
}
