/** The simulation loop: nodes and globals updated in place (AzureTraces/simulate.py:53-328 and
    AzureTraces/scheduler.py:3-66). */
module Simulation {
  import opened SimState
  import opened Wrappers

  /** One row of the trace; the times are in seconds. */
  datatype Row = Row(app: string, func: string, duration: real, arrival: real)

  datatype Boot = Cold | SoftWarm | Warm

  /** How a chosen node boots the function; without dynamic soft warming a coin decides. */
  function BootOf(c: Choice, coin: bool, dynamicSoftWarm: bool): Boot
    requires c.Chosen?
  {
    if !c.cold then Warm else if (if dynamicSoftWarm then c.softWarm else coin) then SoftWarm else Cold
  }

  class Node {
    const maxFunctions: nat
    const maxExecutionSlots: nat
    var functionsRegistered: seq<string>
    var functionSlotsFree: seq<bool>
    var functionLastCallTime: seq<real>
    var executionSlots: seq<Option<Func>>

    predicate Valid()
      reads this
    {
      && |functionsRegistered| == |functionSlotsFree| == |functionLastCallTime| == maxFunctions
      && |executionSlots| == maxExecutionSlots
    }

    function View(): (n: NodeState)
      requires Valid()
      reads this
      ensures Shaped(n)
    {
      NodeState(functionSlotsFree, functionsRegistered, functionLastCallTime, executionSlots)
    }

    constructor (maxFunctions: nat, maxExecutionSlots: nat)
      ensures Valid() && this.maxFunctions == maxFunctions && this.maxExecutionSlots == maxExecutionSlots
      ensures (forall i :: 0 <= i < maxFunctions ==> functionSlotsFree[i])
      ensures (forall i :: 0 <= i < maxExecutionSlots ==> executionSlots[i] == None)
    {
      this.maxFunctions := maxFunctions;
      this.maxExecutionSlots := maxExecutionSlots;
      functionsRegistered := seq(maxFunctions, _ => "");
      functionSlotsFree := seq(maxFunctions, _ => true);
      functionLastCallTime := seq(maxFunctions, _ => 0.0);
      executionSlots := seq(maxExecutionSlots, _ => None);
    }

    /** The inner loop of update_cached_functions. */
    method Age(inc: real, ttl: real) returns (evicted: nat)
      requires Valid()
      modifies `functionLastCallTime, `functionSlotsFree
      ensures Valid() && Aged(old(View()), View(), inc, ttl)
      ensures LiveSlots(functionSlotsFree) + evicted == LiveSlots(old(functionSlotsFree))
    {
      ghost var before := View();
      evicted := 0;
      var i := 0;
      while i < maxFunctions
        invariant i <= maxFunctions && Valid()
        invariant functionsRegistered == before.registered && executionSlots == before.running
        invariant forall j :: 0 <= j < i ==>
                    functionLastCallTime[j] == if before.free[j] then before.age[j] else before.age[j] + inc
        invariant forall j :: 0 <= j < i ==> functionSlotsFree[j] == (before.free[j] || before.age[j] + inc > ttl)
        invariant forall j :: i <= j < maxFunctions ==> functionLastCallTime[j] == before.age[j]
        invariant forall j :: i <= j < maxFunctions ==> functionSlotsFree[j] == before.free[j]
        invariant LiveSlots(functionSlotsFree) + evicted == LiveSlots(before.free)
      {
        if !functionSlotsFree[i] {
          functionLastCallTime := functionLastCallTime[i := functionLastCallTime[i] + inc];
          if functionLastCallTime[i] > ttl {
            LiveSlotsUpdate(functionSlotsFree, i, true);
            functionSlotsFree := functionSlotsFree[i := true];
            evicted := evicted + 1;
          }
        }
        i := i + 1;
      }
    }

    method HasFreeSlot() returns (found: bool, slot: nat)
      requires Valid()
      ensures found <==> exists i :: 0 <= i < maxExecutionSlots && executionSlots[i] == None
      ensures found ==> slot < maxExecutionSlots && executionSlots[slot] == None
      ensures found ==> forall j :: 0 <= j < slot ==> executionSlots[j] != None
    {
      for i := 0 to maxExecutionSlots
        invariant forall j :: 0 <= j < i ==> executionSlots[j] != None
      {
        if executionSlots[i] == None {
          return true, i;
        }
      }
      return false, 0;
    }

    /** The search of pick_next_node through the cache of one free node. */
    method LookFor(id: string, app: string) returns (warm: bool, soft: bool)
      requires Valid()
      ensures warm <==> HasFunction(View(), id)
      ensures !warm ==> (soft <==> HasApplication(View(), app))
    {
      soft := false;
      for i := 0 to maxFunctions
        invariant forall j :: 0 <= j < i ==> !Holds(View(), id, j)
        invariant soft <==> exists j :: 0 <= j < i && OfApplication(View(), app, j)
      {
        if !functionSlotsFree[i] && functionsRegistered[i] == id {
          assert Holds(View(), id, i);
          return true, soft;
        }
        if !functionSlotsFree[i] && BeforeDash(functionsRegistered[i]) == app {
          assert OfApplication(View(), app, i);
          soft := true;
        }
      }
      warm := false;
    }

    /** The three loops of cache_function: which slot the function gets. */
    method FindCacheSlot(id: string) returns (slot: nat)
      requires Valid() && maxFunctions > 0
      requires forall i :: 0 <= i < maxFunctions ==> functionSlotsFree[i] || functionLastCallTime[i] >= 0.0
      ensures RightSlot(View(), id, slot)
    {
      for i := 0 to maxFunctions
        invariant forall j :: 0 <= j < i ==> !Holds(View(), id, j)
      {
        if !functionSlotsFree[i] && functionsRegistered[i] == id {
          assert Holds(View(), id, i);
          return i;
        }
      }
      for i := 0 to maxFunctions
        invariant forall j :: 0 <= j < i ==> !functionSlotsFree[j]
      {
        if functionSlotsFree[i] {
          return i;
        }
      }
      var maxTime := 0.0;
      slot := 0;
      for i := 0 to maxFunctions
        invariant slot < maxFunctions && maxTime >= 0.0
        invariant maxTime == if maxTime > 0.0 then functionLastCallTime[slot] else 0.0
        invariant maxTime == 0.0 ==> slot == 0
        invariant forall j :: 0 <= j < i ==> functionLastCallTime[j] <= maxTime
        invariant forall j :: 0 <= j < slot ==> functionLastCallTime[j] < maxTime
      {
        if functionLastCallTime[i] > maxTime {
          maxTime := functionLastCallTime[i];
          slot := i;
        }
      }
      assert forall j :: 0 <= j < maxFunctions ==> functionLastCallTime[j] <= functionLastCallTime[slot];
    }

    method Register(id: string, slot: nat)
      requires Valid() && slot < maxFunctions
      modifies `functionSlotsFree, `functionsRegistered, `functionLastCallTime
      ensures Valid() && View() == Cached(old(View()), id, slot)
    {
      functionSlotsFree := functionSlotsFree[slot := false];
      functionsRegistered := functionsRegistered[slot := id];
      functionLastCallTime := functionLastCallTime[slot := 0.0];
    }
  }

  /** Where and when a function started, and how it booted. */
  datatype Record = Record(node: nat, slot: nat, start: real, delay: real, boot: Boot)

  class Simulation {
    const nodes: seq<Node>
    var curCacheUtil: int
    var maxCacheUtil: int
    var simTime: real
    ghost var views: seq<NodeState>   // what the nodes hold
    ghost var log: seq<Start>         // the starts so far

    ghost predicate Valid()
      reads this`views, nodes
    {
      && |views| == |nodes|
      && (forall i, j :: 0 <= i < j < |nodes| ==> nodes[i] != nodes[j])
      && (forall i :: 0 <= i < |nodes| ==> nodes[i].Valid() && views[i] == nodes[i].View())
      && (forall i :: 0 <= i < |nodes| ==> Shaped(views[i]))
    }

    ghost predicate Inv(ttl: real)
      reads this, nodes
    {
      && Valid()
      && StateTrue(views, log, simTime, ttl)
      && curCacheUtil == TotalLive(views) <= maxCacheUtil
    }

    /** The set-up in main_sim. */
    constructor (numNodes: nat, maxFunctions: nat, maxExecutionSlots: nat, ttl: real)
      ensures Inv(ttl) && log == [] && simTime == 0.0 && |nodes| == numNodes
      ensures numNodes > 0 && maxFunctions > 0 && maxExecutionSlots > 0 ==> Usable()
    {
      var made: seq<Node> := [];
      ghost var empty: seq<NodeState> := [];
      for i := 0 to numNodes
        invariant |made| == |empty| == i && fresh(made)
        invariant forall j, k :: 0 <= j < k < i ==> made[j] != made[k]
        invariant forall j :: 0 <= j < i ==> made[j].Valid() && empty[j] == made[j].View() && Unused(empty[j])
        invariant forall j :: 0 <= j < i ==> made[j].maxFunctions == maxFunctions && made[j].maxExecutionSlots == maxExecutionSlots
      {
        var n := new Node(maxFunctions, maxExecutionSlots);
        made, empty := made + [n], empty + [n.View()];
      }
      UnusedTrue(empty, ttl);
      nodes, views, log := made, empty, [];
      curCacheUtil, maxCacheUtil, simTime := 0, 0, 0.0;
    }

    /** The turn of one node in update_cached_functions. */
    method AgeNode(k: nat, inc: real, ttl: real)
      requires Valid() && curCacheUtil == TotalLive(views) && k < |nodes|
      modifies `curCacheUtil, `views, nodes[k]
      ensures Valid() && curCacheUtil == TotalLive(views) <= old(curCacheUtil)
      ensures views == old(views)[k := views[k]] && Aged(old(views)[k], views[k], inc, ttl)
    {
      var evicted := nodes[k].Age(inc, ttl);
      TotalUpdate(views, k, nodes[k].View());
      views := views[k := nodes[k].View()];
      curCacheUtil := curCacheUtil - evicted;
    }

    method UpdateCachedFunctions(inc: real, ttl: real)
      requires Valid() && curCacheUtil == TotalLive(views)
      modifies `curCacheUtil, `views, nodes
      ensures Valid() && curCacheUtil == TotalLive(views) <= old(curCacheUtil)
      ensures AllAged(old(views), views, inc, ttl)
    {
      ghost var before := views;
      var k := 0;
      while k < |nodes|
        invariant k <= |nodes| && Valid()
        invariant forall i :: 0 <= i < k ==> Aged(before[i], views[i], inc, ttl)
        invariant forall i :: k <= i < |nodes| ==> views[i] == before[i]
        invariant curCacheUtil == TotalLive(views) <= old(curCacheUtil)
      {
        AgeNode(k, inc, ttl);
        k := k + 1;
      }
    }

    /** get_earliest_func_finish: the first of the running functions with the earliest end. */
    method GetEarliestFuncFinish() returns (found: bool, node: nat, slot: nat)
      requires Valid()
      ensures found <==> AnyRunning(views)
      ensures found ==> Earliest(views, node, slot) && NoneBeforeAsEarly(views, node, slot)
    {
      found, node, slot := false, 0, 0;
      for k := 0 to |nodes|
        invariant !found ==> forall k', i' :: RunsAt(views, k', i') ==> k' >= k
        invariant found ==> RunsAt(views, node, slot)
        invariant found ==> NoneBeforeAsEarly(views, node, slot)
        invariant found ==> forall k', i' :: RunsAt(views, k', i') && k' < k ==> EndAt(views, node, slot) <= EndAt(views, k', i')
      {
        for i := 0 to nodes[k].maxExecutionSlots
          invariant !found ==> forall k', i' :: RunsAt(views, k', i') ==> k' > k || (k' == k && i' >= i)
          invariant found ==> RunsAt(views, node, slot)
          invariant found ==> NoneBeforeAsEarly(views, node, slot)
          invariant found ==> forall k', i' :: RunsAt(views, k', i') && (k' < k || (k' == k && i' < i)) ==>
                      EndAt(views, node, slot) <= EndAt(views, k', i')
        {
          if nodes[k].executionSlots[i] != None {
            assert RunsAt(views, k, i);
            if !found || nodes[k].executionSlots[i].value.endTime < nodes[node].executionSlots[slot].value.endTime {
              found, node, slot := true, k, i;
            }
          }
        }
      }
    }

    /** Time moves on, past no end of a running function, and the caches age. */
    method AdvanceTo(later: real, ttl: real)
      requires Valid() && curCacheUtil == TotalLive(views) <= maxCacheUtil
      requires CacheTrue(views, log, simTime, ttl) && NoPast(views, later) && simTime <= later
      requires SlotsTrue(views, log, later)
      modifies `simTime, `curCacheUtil, `views, nodes
      ensures Inv(ttl) && simTime == later
      ensures AllAged(old(views), views, later - old(simTime), ttl)
    {
      hide CacheTrue, NoPast, SlotsTrue, AllAged;
      ghost var before, now := views, simTime;
      var inc := later - simTime;
      UpdateCachedFunctions(inc, ttl);
      simTime := later;
      AdvanceTrue(before, views, log, now, inc, later, ttl);
    }

    method StopFunction(node: nat, slot: nat)
      requires Valid() && RunsAt(views, node, slot)
      modifies `views, nodes[node]
      ensures Valid() && views == old(views)[node := Stopped(old(views[node]), slot)]
      ensures TotalBusy(views) + 1 == TotalBusy(old(views))
      ensures TotalLive(views) == TotalLive(old(views))
    {
      BusyUpdate(nodes[node].executionSlots, slot, None);
      nodes[node].executionSlots := nodes[node].executionSlots[slot := None];
      TotalUpdate(views, node, nodes[node].View());
      views := views[node := nodes[node].View()];
    }

    /** Time moves to the end of the function that ends first, which leaves its slot. */
    method Finish(node: nat, slot: nat, ttl: real)
      requires Inv(ttl) && Earliest(views, node, slot) && EndAt(views, node, slot) >= simTime
      modifies `simTime, `curCacheUtil, `views, nodes
      ensures Inv(ttl) && simTime == old(EndAt(views, node, slot))
      ensures TotalBusy(views) + 1 == old(TotalBusy(views)) && EmptyAt(views, node, slot)
    {
      var end := nodes[node].executionSlots[slot].value.endTime;
      EarliestNoPast(views, node, slot);
      StoppedTrue(views, node, slot, log, simTime, ttl);
      SlotsStopped(views, log, simTime, node, slot);
      StopFunction(node, slot);
      ghost var stopped, inc := views, end - simTime;
      AdvanceTo(end, ttl);
      AllAgedBusy(stopped, views, inc, ttl);
      AllAgedRunning(stopped, views, inc, ttl, node);
    }

    /** Time moves to the next start; no function ends before. */
    method MoveToStart(nextTime: real, ttl: real)
      requires Inv(ttl) && NothingEndsBy(views, nextTime) && nextTime >= simTime
      modifies `simTime, `curCacheUtil, `views, nodes
      ensures Inv(ttl) && simTime == nextTime
      ensures AllAged(old(views), views, nextTime - old(simTime), ttl)
      ensures old(AnyFree(views)) ==> AnyFree(views)
    {
      hide CacheTrue, NoPast, SlotsTrue, NothingEndsBy, AllAged, AnyFree;
      ghost var before, inc := views, nextTime - simTime;
      NoPastUntil(views, nextTime);
      SlotsLater(views, log, simTime, nextTime);
      AdvanceTo(nextTime, ttl);
      if AnyFree(before) {
        AllAgedFree(before, views, inc, ttl);
      }
    }

    /** Runs until a function ends or, unless the caller waits for a free slot, until the time of the
        next start.  Time can only move forward: the error branches of the source are dead. */
    method UpdateSimulation(nextTime: real, ttl: real, runUntilNodeFree: bool) returns (newFunc: bool)
      requires Inv(ttl)
      requires if runUntilNodeFree then AnyRunning(views) else nextTime >= simTime
      modifies `simTime, `curCacheUtil, `views, nodes
      ensures Inv(ttl) && simTime >= old(simTime)
      ensures newFunc <==> !runUntilNodeFree && NothingEndsBy(old(views), nextTime)
      ensures newFunc ==> simTime == nextTime && AllAged(old(views), views, nextTime - old(simTime), ttl)
      ensures !newFunc ==> TotalBusy(views) + 1 == old(TotalBusy(views)) && AnyFree(views)
      ensures !newFunc ==> forall k, i :: old(RunsAt(views, k, i)) ==> simTime <= old(EndAt(views, k, i))
      ensures !runUntilNodeFree ==> simTime <= nextTime
      ensures newFunc ==> old(AnyFree(views)) ==> AnyFree(views)
    {
      var found, node, slot := GetEarliestFuncFinish();
      if found {
        EarliestInFuture(views, node, slot, simTime);
      }
      if runUntilNodeFree || (found && nodes[node].executionSlots[slot].value.endTime <= nextTime) {
        if nodes[node].executionSlots[slot].value.endTime < simTime {
          assert false;  // "going back in time"
        }
        Finish(node, slot, ttl);
        assert EmptyAt(views, node, slot);
        newFunc := false;
      } else {
        if nextTime < simTime {
          assert false;  // "going back in time"
        }
        MoveToStart(nextTime, ttl);
        newFunc := true;
      }
    }

    /** cache_function: the globals follow the number of live slots. */
    method CacheFunction(node: nat, id: string) returns (slot: nat)
      requires Valid() && node < |nodes| && nodes[node].maxFunctions > 0
      requires forall i :: 0 <= i < |views[node].free| ==> views[node].free[i] || views[node].age[i] >= 0.0
      requires curCacheUtil == TotalLive(views) <= maxCacheUtil
      modifies `curCacheUtil, `maxCacheUtil, `views, nodes[node]
      ensures Valid() && RightSlot(old(views)[node], id, slot)
      ensures views == old(views)[node := Cached(old(views)[node], id, slot)]
      ensures curCacheUtil == TotalLive(views) <= maxCacheUtil
    {
      slot := nodes[node].FindCacheSlot(id);
      TakeCacheSlot(node, id, slot);
    }

    method TakeCacheSlot(node: nat, id: string, slot: nat)
      requires Valid() && node < |nodes| && slot < nodes[node].maxFunctions
      requires curCacheUtil == TotalLive(views) <= maxCacheUtil
      modifies `curCacheUtil, `maxCacheUtil, `views, nodes[node]
      ensures Valid() && views == old(views)[node := Cached(old(views)[node], id, slot)]
      ensures curCacheUtil == TotalLive(views) <= maxCacheUtil
    {
      CachedLive(views, node, id, slot);
      if nodes[node].functionSlotsFree[slot] {
        curCacheUtil := curCacheUtil + 1;
        if curCacheUtil > maxCacheUtil {
          maxCacheUtil := curCacheUtil;
        }
      }
      nodes[node].Register(id, slot);
      views := views[node := Cached(views[node], id, slot)];
    }

    /** What pick_next_node looks at in one node. */
    method InspectNode(k: nat, id: string, app: string) returns (found: bool, slot: nat, warm: bool, soft: bool)
      requires Valid() && k < |nodes|
      ensures found <==> FreeNode(views, k)
      ensures found ==> FirstEmpty(views, k, slot) && (warm <==> HasFunction(views[k], id))
      ensures found && !warm ==> (soft <==> HasApplication(views[k], app))
    {
      found, slot := nodes[k].HasFreeSlot();
      if found {
        assert EmptyAt(views, k, slot);
        warm, soft := nodes[k].LookFor(id, app);
      } else {
        warm, soft := false, false;
      }
    }

    /** SimpleScheduler.pick_next_node */
    method PickNextNode(app: string, func: string) returns (c: Choice)
      requires Valid()
      ensures RightChoice(views, app, FuncId(app, func), c)
    {
      hide FuncId, HasFunction, HasApplication;
      var id := FuncId(app, func);
      var coldNode, coldSlot, anyCold := 0, 0, false;
      var softNode, softSlot, anySoft := 0, 0, false;
      for k := 0 to |nodes|
        invariant anyCold ==> coldNode < k && FirstEmpty(views, coldNode, coldSlot)
        invariant forall j :: 0 <= j < (if anyCold then coldNode else k) ==> !FreeNode(views, j)
        invariant forall j :: 0 <= j < k && FreeNode(views, j) ==> !HasFunction(views[j], id)
        invariant anySoft ==> softNode < k && FirstEmpty(views, softNode, softSlot) && HasApplication(views[softNode], app)
        invariant forall j :: (if anySoft then softNode + 1 else 0) <= j < k && FreeNode(views, j) ==> !HasApplication(views[j], app)
      {
        var found, slot, warm, soft := InspectNode(k, id, app);
        if found {
          if !anyCold {
            anyCold, coldNode, coldSlot := true, k, slot;
          }
          if warm {
            return Chosen(k, slot, false, false);
          }
          if soft {
            anySoft, softNode, softSlot := true, k, slot;
          }
        }
      }
      if anySoft {
        return Chosen(softNode, softSlot, true, true);
      }
      if anyCold {
        return Chosen(coldNode, coldSlot, true, false);
      }
      assert forall k, i :: EmptyAt(views, k, i) ==> FreeNode(views, k);
      return NoNode;
    }

    /** Every node can run and cache something. */
    predicate Usable() {
      |nodes| > 0 && forall i :: 0 <= i < |nodes| ==> nodes[i].maxFunctions > 0 && nodes[i].maxExecutionSlots > 0
    }

    /** Without an empty slot something is running. */
    lemma FullMeansRunning()
      requires Valid() && Usable() && !AnyFree(views)
      ensures AnyRunning(views) && TotalBusy(views) > 0
    {
      assert !EmptyAt(views, 0, 0);
      assert RunsAt(views, 0, 0);
      RunningIsBusy(views, 0, 0);
    }

    /** The test of the first wait of main_sim. */
    method SomeNodeFree(app: string, func: string) returns (free: bool)
      requires Valid() && Usable()
      ensures free <==> AnyFree(views)
      ensures !free ==> AnyRunning(views)
    {
      var c := PickNextNode(app, func);
      free := c.Chosen?;
      if free {
        assert EmptyAt(views, c.node, c.slot);
      } else {
        FullMeansRunning();
      }
    }

    /** The body of that wait: up to the earliest end. */
    method RunUntilNodeFree(ttl: real)
      requires Inv(ttl) && AnyRunning(views)
      modifies `simTime, `curCacheUtil, `views, nodes
      ensures Inv(ttl) && simTime >= old(simTime) && TotalBusy(views) < old(TotalBusy(views)) && AnyFree(views)
      ensures forall k, i :: old(RunsAt(views, k, i)) ==> simTime <= old(EndAt(views, k, i))
    {
      var _ := UpdateSimulation(simTime, ttl, true);
    }

    /** The first wait of main_sim: until some node has an empty slot, and no longer. */
    method WaitForFreeNode(app: string, func: string, ttl: real)
      requires Inv(ttl) && Usable()
      modifies `simTime, `curCacheUtil, `views, nodes
      ensures Inv(ttl) && simTime >= old(simTime) && AnyFree(views)
      ensures forall t :: old(simTime) <= t < simTime ==> AllBusy(old(views), t)
    {
      hide AnyRunning, TotalBusy;
      var found := SomeNodeFree(app, func);
      ghost var before := views;
      while !found
        invariant Inv(ttl) && simTime >= old(simTime)
        invariant found ==> AnyFree(views)
        invariant !found ==> AnyRunning(views) && !AnyFree(views) && views == before && simTime == old(simTime)
        invariant forall t :: old(simTime) <= t < simTime ==> AllBusy(before, t)
        decreases TotalBusy(views)
      {
        RunUntilNodeFree(ttl);
        BusyUntilFirstEnd(before, simTime);
        found := SomeNodeFree(app, func);
      }
    }

    /** The second wait: functions that end before the start make room and age the caches. */
    method WaitUntilStart(arrival: real, ttl: real)
      requires Inv(ttl) && AnyFree(views)
      modifies `simTime, `curCacheUtil, `views, nodes
      ensures Inv(ttl) && simTime == Max(old(simTime), arrival) && AnyFree(views)
    {
      var scheduled := false;
      while !scheduled
        invariant Inv(ttl) && old(simTime) <= simTime <= Max(old(simTime), arrival) && AnyFree(views)
        invariant scheduled ==> simTime >= arrival
        decreases !scheduled, TotalBusy(views)
      {
        var schedTime := if simTime >= arrival then simTime else arrival;
        scheduled := UpdateSimulation(schedTime, ttl, false);
      }
    }

    method OccupySlot(node: nat, slot: nat, f: Func)
      requires Valid() && EmptyAt(views, node, slot)
      modifies `views, nodes[node]
      ensures Valid() && TotalLive(views) == TotalLive(old(views))
      ensures views == old(views)[node := Occupied(old(views)[node], slot, f)]
    {
      nodes[node].executionSlots := nodes[node].executionSlots[slot := Some(f)];
      TotalUpdate(views, node, nodes[node].View());
      views := views[node := nodes[node].View()];
    }

    method Place(s: Start) returns (cacheSlot: nat)
      requires Valid() && EmptyAt(views, s.node, s.slot) && nodes[s.node].maxFunctions > 0
      requires forall i :: 0 <= i < |views[s.node].free| ==> views[s.node].free[i] || views[s.node].age[i] >= 0.0
      requires curCacheUtil == TotalLive(views) <= maxCacheUtil
      modifies `curCacheUtil, `maxCacheUtil, `views, nodes[s.node]
      ensures Valid() && RightSlot(Occupied(old(views)[s.node], s.slot, FuncOf(s)), s.id, cacheSlot)
      ensures views == old(views)[s.node := Started(old(views)[s.node], cacheSlot, s)]
      ensures curCacheUtil == TotalLive(views) <= maxCacheUtil
    {
      OccupySlot(s.node, s.slot, FuncOf(s));
      cacheSlot := CacheFunction(s.node, s.id);
    }

    /** The function takes its execution slot and its cache slot. */
    method StartFunction(s: Start, ttl: real)
      requires Inv(ttl) && Usable() && EmptyAt(views, s.node, s.slot) && s.time == simTime <= s.end
      modifies `curCacheUtil, `maxCacheUtil, `views, `log, nodes
      ensures Inv(ttl) && log == old(log) + [s]
    {
      hide CacheTrue, NoPast, SlotsTrue, Started, Occupied, RightSlot, LastStart;
      ghost var before := views;
      AgesNotNegative(views, s.node, log, simTime, ttl);
      var cacheSlot := Place(s);
      StartedTrue(before, cacheSlot, s, log, ttl);
      log := log + [s];
    }

    /** The second choice of a node.  The coin of the flat soft-warm rate is drawn outside. */
    method Choose(app: string, func: string, coin: bool, dynamicSoftWarm: bool, ghost ttl: real)
        returns (node: nat, slot: nat, boot: Boot)
      requires Inv(ttl) && AnyFree(views)
      ensures RightPlace(views, app, FuncId(app, func), node, slot) && EmptyAt(views, node, slot)
      ensures RightBoot(views, app, FuncId(app, func), boot, coin, dynamicSoftWarm)
      ensures boot == Warm && ttl >= 0.0 ==> StartedWithin(log, node, FuncId(app, func), simTime, ttl)
    {
      var c := PickNextNode(app, func);
      if c.NoNode? {
        assert false;  // "No free node found even though there should be a candidate"
      }
      assert c == Chosen(c.node, c.slot, c.cold, c.softWarm);
      node, slot := c.node, c.slot;
      boot := BootOf(c, coin, dynamicSoftWarm);
      ChoiceTells(views, app, FuncId(app, func), c);
      if !c.cold && ttl >= 0.0 {
        WarmMeansRecentStart(views, log, simTime, ttl, app, FuncId(app, func), c);
      }
    }

    /** ... and the start.  The boot time is drawn outside. */
    method ChooseAndStart(row: Row, bootTime: real, coin: bool, dynamicSoftWarm: bool, ttl: real)
        returns (node: nat, slot: nat, boot: Boot)
      requires Inv(ttl) && Usable() && AnyFree(views) && row.duration + bootTime >= 0.0
      modifies `curCacheUtil, `maxCacheUtil, `views, `log, nodes
      ensures Inv(ttl)
      ensures var id := FuncId(row.app, row.func);
              log == old(log) + [Start(node, slot, id, simTime, simTime + row.duration + bootTime)]
      ensures RightPlace(old(views), row.app, FuncId(row.app, row.func), node, slot)
      ensures RightBoot(old(views), row.app, FuncId(row.app, row.func), boot, coin, dynamicSoftWarm)
      ensures boot == Warm && ttl >= 0.0 ==> StartedWithin(old(log), node, FuncId(row.app, row.func), simTime, ttl)
    {
      hide Inv, FuncId, RightPlace, RightBoot, StartedWithin, AnyFree, Usable;
      node, slot, boot := Choose(row.app, row.func, coin, dynamicSoftWarm, ttl);
      var duration := row.duration + bootTime;
      StartFunction(Start(node, slot, FuncId(row.app, row.func), simTime, simTime + duration), ttl);
    }

    /** One row of the trace: it starts as soon as it has arrived, the row before it has started and an
        execution slot is empty. */
    method Schedule(row: Row, bootTime: real, coin: bool, dynamicSoftWarm: bool, ttl: real) returns (r: Record)
      requires Inv(ttl) && Usable() && row.duration + bootTime >= 0.0
      modifies `simTime, `curCacheUtil, `maxCacheUtil, `views, `log, nodes
      ensures Inv(ttl) && simTime >= old(simTime)
      ensures var id := FuncId(row.app, row.func);
              log == old(log) + [Start(r.node, r.slot, id, r.start, r.start + row.duration + bootTime)]
      ensures r.start == simTime >= row.arrival && r.delay == r.start - row.arrival + bootTime
      ensures forall t :: Max(old(simTime), row.arrival) <= t < r.start ==> AllBusy(old(views), t)
      ensures r.boot == Warm && ttl >= 0.0 ==> StartedWithin(old(log), r.node, FuncId(row.app, row.func), r.start, ttl)
      ensures !dynamicSoftWarm ==> (r.boot == SoftWarm ==> coin) && (r.boot == Cold ==> !coin)
    {
      hide Inv, FuncId, RightPlace, StartedWithin, AnyFree, Usable, AllBusy, FunctionCached, ApplicationCached;
      WaitForFreeNode(row.app, row.func, ttl);
      WaitUntilStart(row.arrival, ttl);
      var node, slot, boot := ChooseAndStart(row, bootTime, coin, dynamicSoftWarm, ttl);
      r := Record(node, slot, simTime, simTime - row.arrival + bootTime, boot);
    }

    /** The loop of is_any_active: whatever still runs ends. */
    method Drain(ttl: real)
      requires Inv(ttl)
      modifies `simTime, `curCacheUtil, `views, nodes
      ensures Inv(ttl) && simTime >= old(simTime) && !AnyRunning(views)
    {
      hide StateTrue, TotalLive, TotalBusy, AnyRunning, Earliest, AnyFree;
      var active, node, slot := GetEarliestFuncFinish();
      while active
        invariant Inv(ttl) && simTime >= old(simTime)
        invariant active <==> AnyRunning(views)
        decreases TotalBusy(views)
      {
        RunUntilNodeFree(ttl);
        active, node, slot := GetEarliestFuncFinish();
      }
    }

    /** Every node has as many execution slots as it was made with. */
    ghost predicate SlotCounts(views: seq<NodeState>) {
      |views| == |nodes| && forall k :: 0 <= k < |nodes| ==> |views[k].running| == nodes[k].maxExecutionSlots
    }

    lemma SlotsAreCounted()
      requires Valid()
      ensures SlotCounts(views)
    {
      assert forall k :: 0 <= k < |nodes| ==> views[k] == nodes[k].View();
    }

    /** All the time that the i-th row waits although it is ready, every slot of every node is taken. */
    ghost predicate Prompt(rows: seq<Row>, records: seq<Record>, log: seq<Start>, i: nat, begin: real)
      requires i < |rows| && i < |records| && i <= |log|
    {
      forall t, k: nat, x: nat ::
        Ready(rows, records, i, begin) <= t < records[i].start && k < |nodes| && x < nodes[k].maxExecutionSlots ==>
          Taken(log, i, k, x, t)
    }

    ghost predicate Recorded(rows: seq<Row>, boots: seq<real>, records: seq<Record>, log: seq<Start>, ttl: real, begin: real)
      requires |boots| == |rows| && |records| == |log| <= |rows|
    {
      && (forall i :: 0 <= i < |records| ==> Faithful(rows, boots, records, log, i, ttl))
      && (forall i :: 0 <= i < |records| ==> Prompt(rows, records, log, i, begin))
    }

    lemma LastIsPrompt(rows: seq<Row>, records: seq<Record>, log: seq<Start>, views: seq<NodeState>, now: real, begin: real)
      requires 0 < |records| == |log| <= |rows| && SlotCounts(views)
      requires SlotsTrue(views, log[..|log| - 1], now)
      requires now == if |records| == 1 then begin else records[|records| - 2].start
      requires forall t :: Max(now, rows[|records| - 1].arrival) <= t < records[|records| - 1].start ==> AllBusy(views, t)
      ensures Prompt(rows, records, log, |records| - 1, begin)
    {
      var i := |records| - 1;
      forall t, k: nat, x: nat | Ready(rows, records, i, begin) <= t < records[i].start
                                 && k < |nodes| && x < nodes[k].maxExecutionSlots
        ensures Taken(log, i, k, x, t)
      {
        AllBusyTaken(views, log[..i], now, t, k, x);
        TakenAgain(log[..i], log, i, k, x, t);
      }
    }

    lemma TakenAgain(log: seq<Start>, log': seq<Start>, n: nat, k: nat, x: nat, t: real)
      requires n <= |log| && log <= log' && Taken(log, n, k, x, t)
      ensures Taken(log', n, k, x, t)
    {
      var i :| 0 <= i < n && log[i].node == k && log[i].slot == x && log[i].time <= t < log[i].end;
      assert log'[i] == log[i];
    }

    lemma PromptAgain(rows: seq<Row>, records: seq<Record>, log: seq<Start>, records': seq<Record>, log': seq<Start>,
                      i: nat, begin: real)
      requires i < |records| == |log| < |rows| && records <= records' && log <= log'
      requires Prompt(rows, records, log, i, begin)
      ensures Prompt(rows, records', log', i, begin)
    {
      forall t, k: nat, x: nat | Ready(rows, records', i, begin) <= t < records'[i].start
                                 && k < |nodes| && x < nodes[k].maxExecutionSlots
        ensures Taken(log', i, k, x, t)
      {
        assert Taken(log, i, k, x, t);
        TakenAgain(log, log', i, k, x, t);
      }
    }

    /** One record more. */
    lemma RecordsExtend(rows: seq<Row>, boots: seq<real>, records: seq<Record>, log: seq<Start>, r: Record, s: Start,
                        views: seq<NodeState>, now: real, ttl: real, begin: real)
      requires |boots| == |rows| && |records| == |log| < |rows| && Recorded(rows, boots, records, log, ttl, begin)
      requires SlotCounts(views) && SlotsTrue(views, log, now)
      requires now == if records == [] then begin else records[|records| - 1].start
      requires forall t :: Max(now, rows[|records|].arrival) <= t < r.start ==> AllBusy(views, t)
      requires Faithful(rows, boots, records + [r], log + [s], |records|, ttl)
      ensures Recorded(rows, boots, records + [r], log + [s], ttl, begin)
    {
      var records', log' := records + [r], log + [s];
      forall i | 0 <= i < |records'| ensures Faithful(rows, boots, records', log', i, ttl) {
        if i < |records| {
          assert Faithful(rows, boots, records, log, i, ttl);
          assert log'[..i] == log[..i];
        }
      }
      forall i | 0 <= i < |records'| ensures Prompt(rows, records', log', i, begin) {
        if i < |records| {
          PromptAgain(rows, records, log, records', log', i, begin);
        } else {
          assert log'[..|log|] == log;
          LastIsPrompt(rows, records', log', views, now, begin);
        }
      }
    }

    /** The loop body of main_sim up to the counters. */
    method ScheduleNext(rows: seq<Row>, boots: seq<real>, records: seq<Record>, coin: bool, dynamicSoftWarm: bool, ttl: real,
                        ghost begin: real)
        returns (r: Record)
      requires Inv(ttl) && Usable() && |boots| == |rows| && |records| == |log| < |rows|
      requires rows[|records|].duration + boots[|records|] >= 0.0
      requires Recorded(rows, boots, records, log, ttl, begin)
      requires simTime == if records == [] then begin else records[|records| - 1].start
      modifies `simTime, `curCacheUtil, `maxCacheUtil, `views, `log, nodes
      ensures Inv(ttl) && old(simTime) <= simTime == r.start && |log| == |records| + 1
      ensures Recorded(rows, boots, records + [r], log, ttl, begin)
      ensures !dynamicSoftWarm && r.boot != Warm ==> r.boot == if coin then SoftWarm else Cold
    {
      hide AllBusy, Usable, StartedWithin;
      var cur := |records|;
      ghost var before, views', now := log, views, simTime;
      SlotsAreCounted();
      r := Schedule(rows[cur], boots[cur], coin, dynamicSoftWarm, ttl);
      assert log == before + [log[cur]] && log[..cur] == before;
      RecordsExtend(rows, boots, records, before, r, log[cur], views', now, ttl, begin);
    }

    /** The loop of main_sim over the trace. */
    method RunRows(rows: seq<Row>, boots: seq<real>, coins: seq<bool>, dynamicSoftWarm: bool, ttl: real)
        returns (records: seq<Record>, cold: nat, softWarm: nat, warm: nat)
      requires Inv(ttl) && Usable() && log == []
      requires |boots| == |coins| == |rows|
      requires forall i :: 0 <= i < |rows| ==> rows[i].duration + boots[i] >= 0.0
      modifies `simTime, `curCacheUtil, `maxCacheUtil, `views, `log, nodes
      ensures Inv(ttl) && |records| == |log| == |rows|
      ensures Counted(records, cold, softWarm, warm) && InOrder(records, simTime)
      ensures Recorded(rows, boots, records, log, ttl, old(simTime))
      ensures !dynamicSoftWarm ==> Flipped(records, coins)
    {
      hide Inv, Recorded, Usable, Counted, InOrder, Flipped;
      records, cold, softWarm, warm := [], 0, 0, 0;
      NothingRecorded(rows, boots, coins, ttl, simTime);
      for cur := 0 to |rows|
        invariant Inv(ttl) && |records| == |log| == cur
        invariant Counted(records, cold, softWarm, warm) && InOrder(records, simTime)
        invariant Recorded(rows, boots, records, log, ttl, old(simTime))
        invariant simTime == if cur == 0 then old(simTime) else records[cur - 1].start
        invariant !dynamicSoftWarm ==> Flipped(records, coins)
      {
        ghost var now := simTime;
        var r := ScheduleNext(rows, boots, records, coins[cur], dynamicSoftWarm, ttl, old(simTime));
        CountOneMore(records, r, cold, softWarm, warm, now);
        if !dynamicSoftWarm {
          FlippedOneMore(records, r, coins);
        }
        records := records + [r];
        match r.boot {
          case Cold => cold := cold + 1;
          case SoftWarm => softWarm := softWarm + 1;
          case Warm => warm := warm + 1;
        }
      }
    }

    /** main_sim.  Every row starts in the order of the trace, as soon as it has arrived and a slot is
        empty, and keeps its slot for its duration and boot time; a warm boot means a start of the same
        function on the same node within the caching time; and the three counters add up. */
    method Run(rows: seq<Row>, boots: seq<real>, coins: seq<bool>, dynamicSoftWarm: bool, ttl: real)
        returns (records: seq<Record>, cold: nat, softWarm: nat, warm: nat)
      requires Inv(ttl) && Usable() && log == []
      requires |boots| == |coins| == |rows|
      requires forall i :: 0 <= i < |rows| ==> rows[i].duration + boots[i] >= 0.0
      modifies `simTime, `curCacheUtil, `maxCacheUtil, `views, `log, nodes
      ensures Inv(ttl) && !AnyRunning(views)
      ensures |records| == |log| == |rows| && Counted(records, cold, softWarm, warm) && InOrder(records, simTime)
      ensures forall i :: 0 <= i < |rows| ==> Faithful(rows, boots, records, log, i, ttl)
      ensures forall i :: 0 <= i < |rows| ==> Prompt(rows, records, log, i, old(simTime))
      ensures forall i :: 0 <= i < |rows| ==>
                records[i].node < |nodes| && records[i].slot < nodes[records[i].node].maxExecutionSlots
      ensures Exclusive(rows, boots, records) && EndedBy(rows, boots, records, simTime)
      ensures forall k: nat, t :: k < |nodes| ==> |RunningThen(log, k, t)| <= nodes[k].maxExecutionSlots
      ensures !dynamicSoftWarm ==> Flipped(records, coins)
    {
      hide Inv, Recorded, AnyRunning, Usable, Faithful, Prompt, Exclusive, EndedBy, RunningThen, Counted, Flipped;
      records, cold, softWarm, warm := RunRows(rows, boots, coins, dynamicSoftWarm, ttl);
      ghost var log', last := log, simTime;
      Drain(ttl);
      assert log == log' && simTime >= last;
      Summary(rows, boots, records, ttl, old(simTime));
    }

    lemma NothingRecorded(rows: seq<Row>, boots: seq<real>, coins: seq<bool>, ttl: real, begin: real)
      requires |boots| == |rows|
      ensures Recorded(rows, boots, [], [], ttl, begin)
      ensures Counted([], 0, 0, 0) && InOrder([], begin) && Flipped([], coins)
    {
    }

    /** What the records and the state after the end say together. */
    lemma Summary(rows: seq<Row>, boots: seq<real>, records: seq<Record>, ttl: real, begin: real)
      requires Inv(ttl) && !AnyRunning(views) && |boots| == |rows| == |records| == |log|
      requires Recorded(rows, boots, records, log, ttl, begin)
      ensures forall i :: 0 <= i < |rows| ==> Faithful(rows, boots, records, log, i, ttl)
      ensures forall i :: 0 <= i < |rows| ==> Prompt(rows, records, log, i, begin)
      ensures forall i :: 0 <= i < |rows| ==>
                records[i].node < |nodes| && records[i].slot < nodes[records[i].node].maxExecutionSlots
      ensures Exclusive(rows, boots, records) && EndedBy(rows, boots, records, simTime)
      ensures forall k: nat, t :: k < |nodes| ==> |RunningThen(log, k, t)| <= nodes[k].maxExecutionSlots
    {
      hide Prompt, StartedWithin, CacheTrue, AnyRunning;
      EverythingEnded(views, log, simTime);
      SlotsAreCounted();
      forall i | 0 <= i < |rows|
        ensures records[i].node < |nodes| && records[i].slot < nodes[records[i].node].maxExecutionSlots
        ensures records[i].start + rows[i].duration + boots[i] <= simTime
      {
        assert Faithful(rows, boots, records, log, i, ttl) && Placed(views, log[i], simTime);
      }
      forall i, j | 0 <= i < j < |rows| && records[i].node == records[j].node && records[i].slot == records[j].slot
        ensures records[j].start >= records[i].start + rows[i].duration + boots[i]
      {
        assert Faithful(rows, boots, records, log, i, ttl) && Faithful(rows, boots, records, log, j, ttl);
        assert SamePlace(log[i], log[j]);
      }
      forall k: nat, t | k < |nodes| ensures |RunningThen(log, k, t)| <= nodes[k].maxExecutionSlots {
        forall i | 0 <= i < |log| && log[i].node == k ensures log[i].slot < nodes[k].maxExecutionSlots {
          assert Placed(views, log[i], simTime);
        }
        RunningAtOnce(log, k, t, nodes[k].maxExecutionSlots);
      }
    }
  }

  /** The three counters are the numbers of starts of each kind, and together of all. */
  predicate Counted(records: seq<Record>, cold: nat, softWarm: nat, warm: nat) {
    && cold == BootCount(records, Cold) && softWarm == BootCount(records, SoftWarm) && warm == BootCount(records, Warm)
    && cold + softWarm + warm == |records|
  }

  predicate InOrder(records: seq<Record>, now: real) {
    && (forall i, j :: 0 <= i < j < |records| ==> records[i].start <= records[j].start)
    && (forall i :: 0 <= i < |records| ==> records[i].start <= now)
  }

  /** With the flat rate the coin decides between the two kinds of cold start. */
  predicate Flipped(records: seq<Record>, coins: seq<bool>)
    requires |records| <= |coins|
  {
    forall i :: 0 <= i < |records| && records[i].boot != Warm ==> records[i].boot == if coins[i] then SoftWarm else Cold
  }

  lemma CountOneMore(records: seq<Record>, r: Record, cold: nat, softWarm: nat, warm: nat, now: real)
    requires Counted(records, cold, softWarm, warm) && InOrder(records, now) && now <= r.start
    ensures Counted(records + [r], cold + One(r.boot == Cold), softWarm + One(r.boot == SoftWarm), warm + One(r.boot == Warm))
    ensures InOrder(records + [r], r.start)
  {
    assert (records + [r])[..|records|] == records;
  }

  lemma FlippedOneMore(records: seq<Record>, r: Record, coins: seq<bool>)
    requires |records| < |coins| && Flipped(records, coins)
    requires r.boot != Warm ==> r.boot == if coins[|records|] then SoftWarm else Cold
    ensures Flipped(records + [r], coins)
  {
  }

  /** A function has its execution slot to itself for its duration and boot time. */
  ghost predicate Exclusive(rows: seq<Row>, boots: seq<real>, records: seq<Record>)
    requires |boots| == |rows| == |records|
  {
    forall i, j :: 0 <= i < j < |rows| && records[i].node == records[j].node && records[i].slot == records[j].slot ==>
      records[j].start >= records[i].start + rows[i].duration + boots[i]
  }

  ghost predicate EndedBy(rows: seq<Row>, boots: seq<real>, records: seq<Record>, t: real)
    requires |boots| == |rows| == |records|
  {
    forall i :: 0 <= i < |rows| ==> records[i].start + rows[i].duration + boots[i] <= t
  }

  function Max(a: real, b: real): real {
    if a >= b then a else b
  }

  /** How many starts were of this kind. */
  function BootCount(records: seq<Record>, boot: Boot): nat {
    if records == [] then 0
    else BootCount(records[..|records| - 1], boot) + if records[|records| - 1].boot == boot then 1 else 0
  }

  /** What the i-th record says about the i-th row and the history before it. */
  predicate Faithful(rows: seq<Row>, boots: seq<real>, records: seq<Record>, log: seq<Start>, i: nat, ttl: real)
    requires i < |rows| == |boots| && i < |records| && i < |log|
  {
    var row, r := rows[i], records[i];
    var id := FuncId(row.app, row.func);
    && log[i] == Start(r.node, r.slot, id, r.start, r.start + row.duration + boots[i])
    && r.start >= row.arrival
    && r.delay == r.start - row.arrival + boots[i]
    && (r.boot == Warm && ttl >= 0.0 ==> StartedWithin(log[..i], r.node, id, r.start, ttl))
  }

  /** When the i-th row could start if there were always room: when it has arrived and the row before it
      has started. */
  function Ready(rows: seq<Row>, records: seq<Record>, i: nat, begin: real): real
    requires i < |rows| && i <= |records|
  {
    Max(if i == 0 then begin else records[i - 1].start, rows[i].arrival)
  }

  // ----- about the waits and the choice -----

  /** When no slot is empty, all are taken until the first function ends. */
  lemma BusyUntilFirstEnd(nodes: seq<NodeState>, end: real)
    requires !AnyFree(nodes) && forall k, i :: RunsAt(nodes, k, i) ==> end <= EndAt(nodes, k, i)
    ensures forall t :: t < end ==> AllBusy(nodes, t)
  {
    forall t | t < end ensures AllBusy(nodes, t) {
      forall k, i | 0 <= k < |nodes| && 0 <= i < |nodes[k].running|
        ensures RunsAt(nodes, k, i) && EndAt(nodes, k, i) > t
      {
        assert !EmptyAt(nodes, k, i);
        assert RunsAt(nodes, k, i);
      }
    }
  }

  /** Some node with an empty slot caches the function (something of the application). */
  ghost predicate FunctionCached(nodes: seq<NodeState>, id: string) {
    exists k :: 0 <= k < |nodes| && FreeNode(nodes, k) && HasFunction(nodes[k], id)
  }

  ghost predicate ApplicationCached(nodes: seq<NodeState>, app: string) {
    exists k :: 0 <= k < |nodes| && FreeNode(nodes, k) && HasApplication(nodes[k], app)
  }

  /** It is the place that the scheduler's rule determines. */
  ghost predicate RightPlace(nodes: seq<NodeState>, app: string, id: string, node: nat, slot: nat) {
    exists cold, softWarm :: RightChoice(nodes, app, id, Chosen(node, slot, cold, softWarm))
  }

  /** Warm if the function is cached; else soft-warm if something of its application is (with the flat
      rate: if the coin says so); else cold. */
  ghost predicate RightBoot(nodes: seq<NodeState>, app: string, id: string, boot: Boot, coin: bool, dynamicSoftWarm: bool) {
    && (boot == Warm <==> FunctionCached(nodes, id))
    && (boot == SoftWarm ==> if dynamicSoftWarm then ApplicationCached(nodes, app) else coin)
    && (boot == Cold ==> if dynamicSoftWarm then !ApplicationCached(nodes, app) else !coin)
  }

  lemma ChoiceTells(nodes: seq<NodeState>, app: string, id: string, c: Choice)
    requires RightChoice(nodes, app, id, c) && c.Chosen?
    ensures !c.cold <==> FunctionCached(nodes, id)
    ensures c.cold ==> (c.softWarm <==> ApplicationCached(nodes, app))
  {
    assert EmptyAt(nodes, c.node, c.slot);
    assert FreeNode(nodes, c.node);
  }

  lemma EverythingEnded(nodes: seq<NodeState>, log: seq<Start>, now: real)
    requires SlotsTrue(nodes, log, now) && !AnyRunning(nodes)
    ensures forall i :: 0 <= i < |log| ==> log[i].end <= now
  {
    forall i | 0 <= i < |log| ensures log[i].end <= now {
      assert Placed(nodes, log[i], now);
      assert !RunsAt(nodes, log[i].node, log[i].slot);
    }
  }
}
