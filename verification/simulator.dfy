/** The cluster simulator: state of a node, and what it means that its cache tells the truth
    about the history of starts (AzureTraces/simulate.py:53-177). */
module SimState {

  import opened Wrappers

  /** A running function. */
  datatype Func = Func(id: string, endTime: real)

  /** A node: the cache slots (free flag, function id, time since its last call) and the execution slots. */
  datatype NodeState = NodeState(
    free: seq<bool>, registered: seq<string>, age: seq<real>,
    running: seq<Option<Func>>)

  /** One start in the history of the simulation: where, when, and when the function ends. */
  datatype Start = Start(node: nat, slot: nat, id: string, time: real, end: real)

  predicate Shaped(n: NodeState) {
    |n.free| == |n.registered| == |n.age|
  }

  // ----- function ids -----

  function FuncId(app: string, func: string): string {
    app + "-" + func
  }

  /** Python's split('-')[0]. */
  function BeforeDash(id: string): string {
    if id == "" || id[0] == '-' then "" else [id[0]] + BeforeDash(id[1..])
  }

  /** The scheduler recovers the application from an id exactly when it contains no dash. */
  lemma {:induction false} SplitFindsApplication(app: string, func: string)
    ensures BeforeDash(FuncId(app, func)) == app <==> '-' !in app
  {
    var id := FuncId(app, func);
    if app != "" {
      SplitFindsApplication(app[1..], func);
      assert id[1..] == FuncId(app[1..], func);
      assert app == [app[0]] + app[1..];
      if app[0] != '-' && BeforeDash(id) == app {
        assert BeforeDash(id)[1..] == app[1..];
      }
    }
  }

  /** Without dashes in application names an id names one function of one application. */
  lemma FuncIdInjective(app: string, func: string, app': string, func': string)
    requires '-' !in app && '-' !in app' && FuncId(app, func) == FuncId(app', func')
    ensures app == app' && func == func'
  {
    SplitFindsApplication(app, func);
    SplitFindsApplication(app', func');
    var id := FuncId(app, func);
    assert func == id[|app| + 1..];
    assert func' == FuncId(app', func')[|app'| + 1..];
  }

  /** With a dash, two functions of different applications can share an id. */
  lemma FuncIdAmbiguous()
    ensures FuncId("a-b", "c") == FuncId("a", "b-c")
    ensures BeforeDash(FuncId("a-b", "c")) == "a"
  {
    assert FuncId("a-b", "c") == "a-b-c" == FuncId("a", "b-c");
    assert BeforeDash("a-b-c") == ['a'] + BeforeDash("-b-c");
  }

  // ----- counting -----

  function One(b: bool): nat {
    if b then 1 else 0
  }

  function LiveSlots(free: seq<bool>): nat {
    if free == [] then 0 else LiveSlots(free[..|free| - 1]) + One(!free[|free| - 1])
  }

  function Busy(running: seq<Option<Func>>): nat {
    if running == [] then 0 else Busy(running[..|running| - 1]) + One(running[|running| - 1].Some?)
  }

  function TotalLive(nodes: seq<NodeState>): nat {
    if nodes == [] then 0 else TotalLive(nodes[..|nodes| - 1]) + LiveSlots(nodes[|nodes| - 1].free)
  }

  function TotalBusy(nodes: seq<NodeState>): nat {
    if nodes == [] then 0 else TotalBusy(nodes[..|nodes| - 1]) + Busy(nodes[|nodes| - 1].running)
  }

  lemma {:induction false} LiveSlotsUpdate(free: seq<bool>, i: nat, b: bool)
    requires i < |free|
    ensures LiveSlots(free[i := b]) + One(!free[i]) == LiveSlots(free) + One(!b)
  {
    var n := |free| - 1;
    if i < n {
      LiveSlotsUpdate(free[..n], i, b);
      assert free[i := b][..n] == free[..n][i := b];
    } else {
      assert free[i := b][..n] == free[..n];
    }
  }

  lemma {:induction false} BusyUpdate(running: seq<Option<Func>>, i: nat, f: Option<Func>)
    requires i < |running|
    ensures Busy(running[i := f]) + One(running[i].Some?) == Busy(running) + One(f.Some?)
  {
    var n := |running| - 1;
    if i < n {
      BusyUpdate(running[..n], i, f);
      assert running[i := f][..n] == running[..n][i := f];
    } else {
      assert running[i := f][..n] == running[..n];
    }
  }

  lemma {:induction false} TotalUpdate(nodes: seq<NodeState>, k: nat, n: NodeState)
    requires k < |nodes|
    ensures TotalLive(nodes[k := n]) + LiveSlots(nodes[k].free) == TotalLive(nodes) + LiveSlots(n.free)
    ensures TotalBusy(nodes[k := n]) + Busy(nodes[k].running) == TotalBusy(nodes) + Busy(n.running)
  {
    var m := |nodes| - 1;
    if k < m {
      TotalUpdate(nodes[..m], k, n);
      assert nodes[k := n][..m] == nodes[..m][k := n];
    } else {
      assert nodes[k := n][..m] == nodes[..m];
    }
  }

  /** Taking a cache slot adds a live slot exactly if it was free. */
  lemma CachedLive(nodes: seq<NodeState>, k: nat, id: string, slot: nat)
    requires k < |nodes| && Shaped(nodes[k]) && slot < |nodes[k].free|
    ensures TotalLive(nodes[k := Cached(nodes[k], id, slot)]) == TotalLive(nodes) + One(nodes[k].free[slot])
  {
    LiveSlotsUpdate(nodes[k].free, slot, false);
    TotalUpdate(nodes, k, Cached(nodes[k], id, slot));
  }

  // ----- time passing, starts, ends -----

  /** m is n after update_cached_functions: live slots age, and the overaged ones are freed. */
  ghost predicate Aged(n: NodeState, m: NodeState, inc: real, ttl: real) {
    && Shaped(n) && Shaped(m) && |m.free| == |n.free|
    && m.registered == n.registered && m.running == n.running
    && forall i :: 0 <= i < |n.free| ==> SlotAged(n, m, i, inc, ttl)
  }

  predicate SlotAged(n: NodeState, m: NodeState, i: nat, inc: real, ttl: real)
    requires Shaped(n) && Shaped(m) && i < |m.free| == |n.free|
  {
    && m.age[i] == (if n.free[i] then n.age[i] else n.age[i] + inc)
    && m.free[i] == (n.free[i] || n.age[i] + inc > ttl)
  }

  /** cache_function, once it has settled on a slot. */
  function Cached(n: NodeState, id: string, slot: nat): NodeState
    requires Shaped(n) && slot < |n.free|
  {
    n.(free := n.free[slot := false], registered := n.registered[slot := id], age := n.age[slot := 0.0])
  }

  predicate Holds(n: NodeState, id: string, i: int)
    requires Shaped(n)
  {
    0 <= i < |n.free| && !n.free[i] && n.registered[i] == id
  }

  /** The slot cache_function settles on: the first that holds the id, else the first free one,
      else the first of those that have not been called for the longest time. */
  ghost predicate RightSlot(n: NodeState, id: string, slot: nat)
    requires Shaped(n)
  {
    && slot < |n.free|
    && (if exists i :: Holds(n, id, i) then Holds(n, id, slot) && forall j :: 0 <= j < slot ==> !Holds(n, id, j)
        else if exists i :: 0 <= i < |n.free| && n.free[i] then n.free[slot] && forall j :: 0 <= j < slot ==> !n.free[j]
        else
          && (forall j :: 0 <= j < |n.age| ==> n.age[j] <= n.age[slot])
          && (forall j :: 0 <= j < slot ==> n.age[j] < n.age[slot]))
  }

  // ----- the cache tells the truth -----

  /** When function id was last started on node k. */
  function LastStart(log: seq<Start>, k: nat, id: string): Option<real> {
    if log == [] then None
    else
      var s := log[|log| - 1];
      if s.node == k && s.id == id then Some(s.time) else LastStart(log[..|log| - 1], k, id)
  }

  /** Function id was last started on node k at most ttl before now. */
  predicate StartedWithin(log: seq<Start>, k: nat, id: string, now: real, ttl: real) {
    var t := LastStart(log, k, id);
    t.Some? && now - ttl <= t.value <= now
  }

  lemma {:induction false} StartedWithinMeans(log: seq<Start>, k: nat, id: string, now: real, ttl: real) returns (j: nat)
    requires StartedWithin(log, k, id, now, ttl)
    ensures j < |log| && log[j].node == k && log[j].id == id && now - ttl <= log[j].time <= now
    ensures forall i :: j < i < |log| ==> !(log[i].node == k && log[i].id == id)
  {
    j := |log| - 1;
    var s := log[j];
    if !(s.node == k && s.id == id) {
      j := StartedWithinMeans(log[..|log| - 1], k, id, now, ttl);
    }
  }

  predicate SlotTrue(n: NodeState, i: nat, k: nat, log: seq<Start>, now: real, ttl: real)
    requires Shaped(n) && i < |n.free|
  {
    !n.free[i] ==>
      && LastStart(log, k, n.registered[i]) == Some(now - n.age[i])
      && n.age[i] >= 0.0
      && (ttl >= 0.0 ==> n.age[i] <= ttl)
  }

  ghost predicate NodeTrue(n: NodeState, k: nat, log: seq<Start>, now: real, ttl: real) {
    && Shaped(n)
    && (forall i :: 0 <= i < |n.free| ==> SlotTrue(n, i, k, log, now, ttl))
    && (forall i, j :: 0 <= i < j < |n.free| && !n.free[i] && !n.free[j] ==> n.registered[i] != n.registered[j])
  }

  /** The age of every live slot is the time since the last start of its function on its node and
      at most the caching time, and no function has two live slots of a node. */
  ghost predicate CacheTrue(nodes: seq<NodeState>, log: seq<Start>, now: real, ttl: real) {
    forall k :: 0 <= k < |nodes| ==> NodeTrue(nodes[k], k, log, now, ttl)
  }

  /** No running function has ended already. */
  ghost predicate NoPast(nodes: seq<NodeState>, now: real) {
    forall k, i :: 0 <= k < |nodes| && 0 <= i < |nodes[k].running| ==> InFuture(nodes[k].running[i], now)
  }

  predicate InFuture(f: Option<Func>, now: real) {
    f.Some? ==> f.value.endTime >= now
  }

  lemma AgedTrue(n: NodeState, m: NodeState, k: nat, log: seq<Start>, now: real, inc: real, later: real, ttl: real)
    requires NodeTrue(n, k, log, now, ttl) && inc >= 0.0 && later == now + inc && Aged(n, m, inc, ttl)
    ensures NodeTrue(m, k, log, later, ttl)
  {
    forall i | 0 <= i < |m.free| ensures SlotTrue(m, i, k, log, later, ttl) {
      assert SlotTrue(n, i, k, log, now, ttl) && SlotAged(n, m, i, inc, ttl);
    }
    forall i, j | 0 <= i < j < |m.free| && !m.free[i] && !m.free[j] ensures m.registered[i] != m.registered[j] {
      assert SlotAged(n, m, i, inc, ttl) && SlotAged(n, m, j, inc, ttl);
    }
  }

  lemma HoldsOnlyThere(n: NodeState, k: nat, log: seq<Start>, now: real, ttl: real, id: string, slot: nat, i: nat)
    requires NodeTrue(n, k, log, now, ttl) && RightSlot(n, id, slot) && i < |n.free|
    ensures Holds(n, id, i) ==> i == slot
  {
  }

  lemma CachedTrue(n: NodeState, log: seq<Start>, ttl: real, slot: nat, s: Start)
    requires NodeTrue(n, s.node, log, s.time, ttl) && RightSlot(n, s.id, slot)
    ensures NodeTrue(Cached(n, s.id, slot), s.node, log + [s], s.time, ttl)
  {
    var m, log' := Cached(n, s.id, slot), log + [s];
    var k, id, now := s.node, s.id, s.time;
    assert log'[..|log|] == log;
    forall i | 0 <= i < |m.free| ensures SlotTrue(m, i, k, log', now, ttl) {
      assert SlotTrue(n, i, k, log, now, ttl);
      HoldsOnlyThere(n, k, log, now, ttl, id, slot, i);
    }
    forall i, j | 0 <= i < j < |m.free| && !m.free[i] && !m.free[j] ensures m.registered[i] != m.registered[j] {
      HoldsOnlyThere(n, k, log, now, ttl, id, slot, i);
      HoldsOnlyThere(n, k, log, now, ttl, id, slot, j);
    }
  }

  lemma OtherNodeTrue(n: NodeState, k: nat, log: seq<Start>, now: real, ttl: real, s: Start)
    requires NodeTrue(n, k, log, now, ttl) && s.node != k
    ensures NodeTrue(n, k, log + [s], now, ttl)
  {
    assert (log + [s])[..|log|] == log;
    forall i | 0 <= i < |n.free| ensures SlotTrue(n, i, k, log + [s], now, ttl) {
      assert SlotTrue(n, i, k, log, now, ttl);
    }
  }

  /** A slot that is replaced for lack of room belongs to the function whose last start on that node
      is the furthest back: it is the least recently used. */
  lemma VictimIsLeastRecentlyUsed(n: NodeState, k: nat, log: seq<Start>, now: real, ttl: real, id: string, slot: nat, j: nat)
    requires NodeTrue(n, k, log, now, ttl) && RightSlot(n, id, slot) && j < |n.free|
    requires !(exists i :: Holds(n, id, i)) && !(exists i :: 0 <= i < |n.free| && n.free[i])
    ensures var victim, other := LastStart(log, k, n.registered[slot]), LastStart(log, k, n.registered[j]);
            victim.Some? && other.Some? && victim.value <= other.value
  {
    assert !n.free[slot] && !n.free[j];
    assert SlotTrue(n, slot, k, log, now, ttl) && SlotTrue(n, j, k, log, now, ttl);
  }

  /** A cached function was started on that node within the caching time. */
  lemma HoldsMeansRecentStart(n: NodeState, k: nat, log: seq<Start>, now: real, ttl: real, id: string, i: nat)
    requires NodeTrue(n, k, log, now, ttl) && Holds(n, id, i) && ttl >= 0.0
    ensures StartedWithin(log, k, id, now, ttl)
  {
    assert SlotTrue(n, i, k, log, now, ttl);
  }

  // ----- the earliest end -----

  predicate RunsAt(nodes: seq<NodeState>, k: int, i: int) {
    0 <= k < |nodes| && 0 <= i < |nodes[k].running| && nodes[k].running[i].Some?
  }

  function EndAt(nodes: seq<NodeState>, k: int, i: int): real
    requires RunsAt(nodes, k, i)
  {
    nodes[k].running[i].value.endTime
  }

  ghost predicate Earliest(nodes: seq<NodeState>, k: int, i: int) {
    RunsAt(nodes, k, i) && forall k', i' :: RunsAt(nodes, k', i') ==> EndAt(nodes, k, i) <= EndAt(nodes, k', i')
  }

  /** It is the first of several that end at that time. */
  ghost predicate NoneBeforeAsEarly(nodes: seq<NodeState>, k: int, i: int)
    requires RunsAt(nodes, k, i)
  {
    forall k', i' :: RunsAt(nodes, k', i') && (k' < k || (k' == k && i' < i)) ==> EndAt(nodes, k, i) < EndAt(nodes, k', i')
  }

  ghost predicate AnyRunning(nodes: seq<NodeState>) {
    exists k, i :: RunsAt(nodes, k, i)
  }

  /** Execution slot i of node k is empty. */
  predicate EmptyAt(nodes: seq<NodeState>, k: int, i: int) {
    0 <= k < |nodes| && 0 <= i < |nodes[k].running| && nodes[k].running[i].None?
  }

  ghost predicate AnyFree(nodes: seq<NodeState>) {
    exists k, i :: EmptyAt(nodes, k, i)
  }

  function Stopped(n: NodeState, i: nat): NodeState
    requires i < |n.running|
  {
    n.(running := n.running[i := None])
  }

  /** Every node aged by inc. */
  ghost predicate AllAged(before: seq<NodeState>, after: seq<NodeState>, inc: real, ttl: real) {
    && |before| == |after|
    && forall k :: 0 <= k < |before| ==> Aged(before[k], after[k], inc, ttl)
  }

  lemma AllAgedTrue(before: seq<NodeState>, after: seq<NodeState>, log: seq<Start>, now: real, inc: real, later: real, ttl: real)
    requires CacheTrue(before, log, now, ttl) && inc >= 0.0 && later == now + inc && AllAged(before, after, inc, ttl)
    ensures CacheTrue(after, log, later, ttl)
  {
    forall k | 0 <= k < |after| ensures NodeTrue(after[k], k, log, later, ttl) {
      AgedTrue(before[k], after[k], k, log, now, inc, later, ttl);
    }
  }

  lemma AllAgedRunning(before: seq<NodeState>, after: seq<NodeState>, inc: real, ttl: real, k: nat)
    requires AllAged(before, after, inc, ttl) && k < |before|
    ensures after[k].running == before[k].running
  {
  }

  lemma AllAgedNoPast(before: seq<NodeState>, after: seq<NodeState>, inc: real, ttl: real, now: real)
    requires AllAged(before, after, inc, ttl) && NoPast(before, now)
    ensures NoPast(after, now)
  {
  }

  lemma {:induction false} AllAgedBusy(before: seq<NodeState>, after: seq<NodeState>, inc: real, ttl: real)
    requires AllAged(before, after, inc, ttl)
    ensures TotalBusy(after) == TotalBusy(before)
  {
    if before != [] {
      AllAgedBusy(before[..|before| - 1], after[..|after| - 1], inc, ttl);
    }
  }

  /** When the earliest function ends, no other one has ended before. */
  lemma EarliestNoPast(nodes: seq<NodeState>, k: nat, i: nat)
    requires Earliest(nodes, k, i)
    ensures NoPast(nodes[k := Stopped(nodes[k], i)], EndAt(nodes, k, i))
  {
    var t := EndAt(nodes, k, i);
    var nodes' := nodes[k := Stopped(nodes[k], i)];
    forall k', i' | 0 <= k' < |nodes'| && 0 <= i' < |nodes'[k'].running|
      ensures InFuture(nodes'[k'].running[i'], t)
    {
      if nodes'[k'].running[i'].Some? {
        assert RunsAt(nodes, k', i');
      }
    }
  }

  lemma StoppedTrue(nodes: seq<NodeState>, k: nat, i: nat, log: seq<Start>, now: real, ttl: real)
    requires CacheTrue(nodes, log, now, ttl) && RunsAt(nodes, k, i)
    ensures CacheTrue(nodes[k := Stopped(nodes[k], i)], log, now, ttl)
  {
    var nodes' := nodes[k := Stopped(nodes[k], i)];
    forall j | 0 <= j < |nodes'| ensures NodeTrue(nodes'[j], j, log, now, ttl) {
      assert NodeTrue(nodes[j], j, log, now, ttl);
      forall x | 0 <= x < |nodes'[j].free| ensures SlotTrue(nodes'[j], x, j, log, now, ttl) {
        assert SlotTrue(nodes[j], x, j, log, now, ttl);
      }
    }
  }

  ghost predicate NothingEndsBy(nodes: seq<NodeState>, t: real) {
    forall k, i :: RunsAt(nodes, k, i) ==> EndAt(nodes, k, i) > t
  }

  lemma NoPastUntil(nodes: seq<NodeState>, next: real)
    requires NothingEndsBy(nodes, next)
    ensures NoPast(nodes, next)
  {
    forall k, i | 0 <= k < |nodes| && 0 <= i < |nodes[k].running| ensures InFuture(nodes[k].running[i], next) {
      if nodes[k].running[i].Some? {
        assert RunsAt(nodes, k, i);
      }
    }
  }

  // ----- the execution slots tell the truth -----

  predicate SamePlace(s: Start, s': Start) {
    s.node == s'.node && s.slot == s'.slot
  }

  /** A function that was started has ended by now or still runs where it was started. */
  predicate Placed(nodes: seq<NodeState>, s: Start, now: real) {
    && s.node < |nodes| && s.slot < |nodes[s.node].running|
    && s.time <= now && s.time <= s.end
    && (s.end <= now || nodes[s.node].running[s.slot] == Some(Func(s.id, s.end)))
  }

  /** What runs in a slot was started there. */
  ghost predicate FromLog(nodes: seq<NodeState>, log: seq<Start>, k: int, i: int)
    requires RunsAt(nodes, k, i)
  {
    exists j :: 0 <= j < |log| && log[j].node == k && log[j].slot == i && log[j].end == EndAt(nodes, k, i)
  }

  /** Functions that had the same slot did not overlap. */
  ghost predicate NoOverlap(log: seq<Start>) {
    forall i, j :: 0 <= i < j < |log| && SamePlace(log[i], log[j]) ==> log[i].end <= log[j].time
  }

  ghost predicate SlotsTrue(nodes: seq<NodeState>, log: seq<Start>, now: real) {
    && (forall j :: 0 <= j < |log| ==> Placed(nodes, log[j], now))
    && (forall k, i :: RunsAt(nodes, k, i) ==> FromLog(nodes, log, k, i))
    && NoOverlap(log)
  }

  lemma SlotsLater(nodes: seq<NodeState>, log: seq<Start>, now: real, later: real)
    requires SlotsTrue(nodes, log, now) && now <= later
    ensures SlotsTrue(nodes, log, later)
  {
    forall j | 0 <= j < |log| ensures Placed(nodes, log[j], later) {
      assert Placed(nodes, log[j], now);
    }
  }

  lemma SlotsStopped(nodes: seq<NodeState>, log: seq<Start>, now: real, k: nat, i: nat)
    requires SlotsTrue(nodes, log, now) && RunsAt(nodes, k, i) && now <= EndAt(nodes, k, i)
    ensures SlotsTrue(nodes[k := Stopped(nodes[k], i)], log, EndAt(nodes, k, i))
  {
    var nodes', t := nodes[k := Stopped(nodes[k], i)], EndAt(nodes, k, i);
    forall j | 0 <= j < |log| ensures Placed(nodes', log[j], t) {
      assert Placed(nodes, log[j], now);
    }
    forall k', i' | RunsAt(nodes', k', i') ensures FromLog(nodes', log, k', i') {
      assert RunsAt(nodes, k', i') && FromLog(nodes, log, k', i');
    }
  }

  lemma SameRunning(nodes: seq<NodeState>, after: seq<NodeState>, log: seq<Start>, now: real, inc: real, ttl: real)
    requires SlotsTrue(nodes, log, now) && AllAged(nodes, after, inc, ttl)
    ensures SlotsTrue(after, log, now)
  {
    forall j | 0 <= j < |log| ensures Placed(after, log[j], now) {
      assert Placed(nodes, log[j], now);
      AllAgedRunning(nodes, after, inc, ttl, log[j].node);
    }
    forall k, i | RunsAt(after, k, i) ensures FromLog(after, log, k, i) {
      AllAgedRunning(nodes, after, inc, ttl, k);
      assert RunsAt(nodes, k, i) && FromLog(nodes, log, k, i);
    }
  }

  /** Execution slot x of node k is taken at time t by one of the first n functions that started. */
  ghost predicate Taken(log: seq<Start>, n: int, k: nat, x: nat, t: real)
    requires n <= |log|
  {
    exists i :: 0 <= i < n && log[i].node == k && log[i].slot == x && log[i].time <= t < log[i].end
  }

  /** Every slot of every node is taken at time t. */
  ghost predicate AllBusy(nodes: seq<NodeState>, t: real) {
    forall k, i :: 0 <= k < |nodes| && 0 <= i < |nodes[k].running| ==> RunsAt(nodes, k, i) && EndAt(nodes, k, i) > t
  }

  lemma AllBusyTaken(nodes: seq<NodeState>, log: seq<Start>, now: real, t: real, k: nat, x: nat)
    requires SlotsTrue(nodes, log, now) && now <= t && AllBusy(nodes, t)
    requires k < |nodes| && x < |nodes[k].running|
    ensures Taken(log, |log|, k, x, t)
  {
    assert RunsAt(nodes, k, x) && FromLog(nodes, log, k, x);
    var j :| 0 <= j < |log| && log[j].node == k && log[j].slot == x && log[j].end == EndAt(nodes, k, x);
    assert Placed(nodes, log[j], now);
  }

  /** The functions that run on node k at time t. */
  ghost function RunningThen(log: seq<Start>, k: nat, t: real): set<int> {
    set i | 0 <= i < |log| && log[i].node == k && log[i].time <= t < log[i].end
  }

  /** Never do more functions run on a node at once than it has execution slots. */
  lemma {:induction false} RunningAtOnce(log: seq<Start>, k: nat, t: real, slots: nat)
    requires NoOverlap(log) && forall i :: 0 <= i < |log| && log[i].node == k ==> log[i].slot < slots
    ensures |RunningThen(log, k, t)| <= slots
  {
    var running := RunningThen(log, k, t);
    var used := set i | i in running :: log[i].slot;
    assert forall x :: x in used ==> x < slots;
    Below(slots, used);
    OneEach(log, k, t, running, used);
  }

  lemma {:induction false} Below(n: nat, s: set<nat>)
    requires forall x :: x in s ==> x < n
    ensures |s| <= n
  {
    if n > 0 {
      Below(n - 1, s - {n - 1});
      assert |s| <= |s - {n - 1}| + 1;
    } else {
      assert s == {};
    }
  }

  lemma {:induction false} OneEach(log: seq<Start>, k: nat, t: real, running: set<int>, used: set<nat>)
    requires NoOverlap(log) && running <= RunningThen(log, k, t) && used == set i | i in running :: log[i].slot
    ensures |running| <= |used|
  {
    if i :| i in running {
      var rest := running - {i};
      forall j | j in rest ensures log[j].slot != log[i].slot {
        assert i < j || j < i;
      }
      var used' := set j | j in rest :: log[j].slot;
      assert used == used' + {log[i].slot};
      OneEach(log, k, t, rest, used');
    }
  }

  // ----- one move of the simulation -----

  ghost predicate StateTrue(nodes: seq<NodeState>, log: seq<Start>, now: real, ttl: real) {
    CacheTrue(nodes, log, now, ttl) && NoPast(nodes, now) && SlotsTrue(nodes, log, now)
  }

  lemma EarliestInFuture(nodes: seq<NodeState>, k: nat, i: nat, now: real)
    requires NoPast(nodes, now) && RunsAt(nodes, k, i)
    ensures EndAt(nodes, k, i) >= now
  {
    assert InFuture(nodes[k].running[i], now);
  }

  /** Time has moved on, past no end of a running function. */
  lemma AdvanceTrue(nodes: seq<NodeState>, after: seq<NodeState>, log: seq<Start>, now: real, inc: real, later: real, ttl: real)
    requires CacheTrue(nodes, log, now, ttl) && NoPast(nodes, later) && inc >= 0.0 && later == now + inc
    requires AllAged(nodes, after, inc, ttl) && SlotsTrue(nodes, log, later)
    ensures StateTrue(after, log, later, ttl)
  {
    SameRunning(nodes, after, log, later, inc, ttl);
    AllAgedTrue(nodes, after, log, now, inc, later, ttl);
    AllAgedNoPast(nodes, after, inc, ttl, later);
  }

  lemma AllAgedFree(before: seq<NodeState>, after: seq<NodeState>, inc: real, ttl: real)
    requires AllAged(before, after, inc, ttl) && AnyFree(before)
    ensures AnyFree(after)
  {
    var k, i :| EmptyAt(before, k, i);
    AllAgedRunning(before, after, inc, ttl, k);
    assert EmptyAt(after, k, i);
  }

  // ----- starting a function -----

  function Occupied(n: NodeState, x: nat, f: Func): NodeState
    requires x < |n.running|
  {
    n.(running := n.running[x := Some(f)])
  }

  function FuncOf(s: Start): Func {
    Func(s.id, s.end)
  }

  /** A function starts on node n and takes cache slot slot. */
  function Started(n: NodeState, slot: nat, s: Start): NodeState
    requires Shaped(n) && slot < |n.free| && s.slot < |n.running|
  {
    Cached(Occupied(n, s.slot, FuncOf(s)), s.id, slot)
  }

  lemma StartedTrue(nodes: seq<NodeState>, slot: nat, s: Start, log: seq<Start>, ttl: real)
    requires StateTrue(nodes, log, s.time, ttl) && EmptyAt(nodes, s.node, s.slot) && s.end >= s.time
    requires Shaped(nodes[s.node]) && RightSlot(Occupied(nodes[s.node], s.slot, FuncOf(s)), s.id, slot)
    ensures StateTrue(nodes[s.node := Started(nodes[s.node], slot, s)], log + [s], s.time, ttl)
  {
    var k, x, now := s.node, s.slot, s.time;
    var m := Started(nodes[k], slot, s);
    var nodes', log' := nodes[k := m], log + [s];
    RunningDoesNotMatter(nodes[k], Occupied(nodes[k], x, FuncOf(s)), k, log, now, ttl);
    CachedTrue(Occupied(nodes[k], x, FuncOf(s)), log, ttl, slot, s);
    forall j | 0 <= j < |nodes'| ensures NodeTrue(nodes'[j], j, log', now, ttl) {
      if j != k {
        OtherNodeTrue(nodes[j], j, log, now, ttl, s);
      }
    }
    forall j, i | 0 <= j < |nodes'| && 0 <= i < |nodes'[j].running| ensures InFuture(nodes'[j].running[i], now) {
      assert j != k || i != x ==> InFuture(nodes[j].running[i], now);
    }
    SlotsStarted(nodes, slot, s, log);
  }

  lemma SlotsStarted(nodes: seq<NodeState>, slot: nat, s: Start, log: seq<Start>)
    requires SlotsTrue(nodes, log, s.time) && EmptyAt(nodes, s.node, s.slot) && s.end >= s.time
    requires Shaped(nodes[s.node]) && slot < |nodes[s.node].free|
    ensures SlotsTrue(nodes[s.node := Started(nodes[s.node], slot, s)], log + [s], s.time)
  {
    var nodes', log' := nodes[s.node := Started(nodes[s.node], slot, s)], log + [s];
    forall j | 0 <= j < |log'| ensures Placed(nodes', log'[j], s.time) {
      if j < |log| {
        assert Placed(nodes, log[j], s.time);
      }
    }
    forall k, i | RunsAt(nodes', k, i) ensures FromLog(nodes', log', k, i) {
      if k == s.node && i == s.slot {
        assert log'[|log|] == s;
      } else {
        assert RunsAt(nodes, k, i) && FromLog(nodes, log, k, i);
        var j :| 0 <= j < |log| && log[j].node == k && log[j].slot == i && log[j].end == EndAt(nodes, k, i);
        assert log'[j] == log[j];
      }
    }
    forall i, j | 0 <= i < j < |log'| && SamePlace(log'[i], log'[j]) ensures log'[i].end <= log'[j].time {
      if j == |log| {
        assert Placed(nodes, log[i], s.time);
      }
    }
  }

  lemma RunningDoesNotMatter(n: NodeState, m: NodeState, k: nat, log: seq<Start>, now: real, ttl: real)
    requires NodeTrue(n, k, log, now, ttl) && m == n.(running := m.running)
    ensures NodeTrue(m, k, log, now, ttl)
  {
    forall i | 0 <= i < |m.free| ensures SlotTrue(m, i, k, log, now, ttl) {
      assert SlotTrue(n, i, k, log, now, ttl);
    }
  }

  // ----- the choice of a node -----

  datatype Choice = NoNode | Chosen(node: nat, slot: nat, cold: bool, softWarm: bool)

  ghost predicate FreeNode(nodes: seq<NodeState>, k: nat) {
    exists i :: EmptyAt(nodes, k, i)
  }

  predicate FirstEmpty(nodes: seq<NodeState>, k: nat, slot: nat) {
    EmptyAt(nodes, k, slot) && forall j :: 0 <= j < slot ==> !EmptyAt(nodes, k, j)
  }

  /** Node n caches the function. */
  ghost predicate HasFunction(n: NodeState, id: string) {
    Shaped(n) && exists i :: Holds(n, id, i)
  }

  predicate OfApplication(n: NodeState, app: string, i: int)
    requires Shaped(n)
  {
    0 <= i < |n.free| && !n.free[i] && BeforeDash(n.registered[i]) == app
  }

  /** Node n caches some function of what the scheduler takes for the application. */
  ghost predicate HasApplication(n: NodeState, app: string) {
    Shaped(n) && exists i :: OfApplication(n, app, i)
  }

  /** A free node that caches the function, the first of them; else the last free node that caches
      something of the application; else the first free node; and always its first empty slot. */
  ghost predicate RightChoice(nodes: seq<NodeState>, app: string, id: string, c: Choice) {
    match c
    case NoNode => !AnyFree(nodes)
    case Chosen(k, slot, cold, softWarm) =>
      && FirstEmpty(nodes, k, slot)
      && (!cold ==> !softWarm && HasFunction(nodes[k], id))
      && (!cold ==> forall j :: 0 <= j < k && FreeNode(nodes, j) ==> !HasFunction(nodes[j], id))
      && (cold ==> forall j :: 0 <= j < |nodes| && FreeNode(nodes, j) ==> !HasFunction(nodes[j], id))
      && (cold && softWarm ==> HasApplication(nodes[k], app))
      && (cold && softWarm ==> forall j :: k < j < |nodes| && FreeNode(nodes, j) ==> !HasApplication(nodes[j], app))
      && (cold && !softWarm ==> forall j :: 0 <= j < |nodes| && FreeNode(nodes, j) ==> !HasApplication(nodes[j], app))
      && (cold && !softWarm ==> forall j :: 0 <= j < k ==> !FreeNode(nodes, j))
  }

  /** A warm choice means that the function was started on that node within the caching time. */
  lemma WarmMeansRecentStart(nodes: seq<NodeState>, log: seq<Start>, now: real, ttl: real, app: string, id: string, c: Choice)
    requires CacheTrue(nodes, log, now, ttl) && ttl >= 0.0 && RightChoice(nodes, app, id, c)
    requires c.Chosen? && !c.cold
    ensures StartedWithin(log, c.node, id, now, ttl)
  {
    var i :| Holds(nodes[c.node], id, i);
    HoldsMeansRecentStart(nodes[c.node], c.node, log, now, ttl, id, i);
  }

  lemma AgesNotNegative(nodes: seq<NodeState>, k: nat, log: seq<Start>, now: real, ttl: real)
    requires CacheTrue(nodes, log, now, ttl) && k < |nodes|
    ensures Shaped(nodes[k])
    ensures forall i :: 0 <= i < |nodes[k].free| ==> nodes[k].free[i] || nodes[k].age[i] >= 0.0
  {
    forall i | 0 <= i < |nodes[k].free| ensures nodes[k].free[i] || nodes[k].age[i] >= 0.0 {
      assert SlotTrue(nodes[k], i, k, log, now, ttl);
    }
  }

  lemma {:induction false} RunningIsBusy(nodes: seq<NodeState>, k: nat, i: nat)
    requires RunsAt(nodes, k, i)
    ensures TotalBusy(nodes) > 0
  {
    BusyUpdate(nodes[k].running, i, None);
    TotalUpdate(nodes, k, Stopped(nodes[k], i));
  }

  /** A node that has never been used. */
  predicate Unused(n: NodeState) {
    && Shaped(n)
    && (forall i :: 0 <= i < |n.free| ==> n.free[i])
    && (forall i :: 0 <= i < |n.running| ==> n.running[i].None?)
  }

  lemma {:induction false} NoLiveSlots(free: seq<bool>)
    requires forall i :: 0 <= i < |free| ==> free[i]
    ensures LiveSlots(free) == 0
  {
    if free != [] {
      NoLiveSlots(free[..|free| - 1]);
    }
  }

  lemma {:induction false} UnusedTrue(nodes: seq<NodeState>, ttl: real)
    requires forall k :: 0 <= k < |nodes| ==> Unused(nodes[k])
    ensures StateTrue(nodes, [], 0.0, ttl) && TotalLive(nodes) == 0
  {
    if nodes != [] {
      UnusedTrue(nodes[..|nodes| - 1], ttl);
      NoLiveSlots(nodes[|nodes| - 1].free);
    }
  }
}
