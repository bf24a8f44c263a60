/** Whole runs of the 8259 pair: what the in-service byte means, and how long a request waits. */
module PicRuns {
  import opened Arith
  import opened Pic

  /** What software and the devices can do to the controllers; toMaster selects one of them. */
  datatype Op =
    | Raise(irq: nat, level: bool)
    | Cycle                                          // the CPU acknowledges an interrupt
    | Even(toMaster: bool, v: Byte, accepts: bool)   // ICW1, OCW2, OCW3
    | Odd(toMaster: bool, v: Byte)                   // OCW1, ICW2 to ICW4
    | Elcr(toMaster: bool, v: Byte)

  predicate Legal(op: Op) {
    op.Raise? ==> op.irq < 16
  }

  function Apply(p: Pair, op: Op): Pair
    requires Legal(op)
  {
    match op
    case Raise(irq, level) => SetIrq(p, irq, level)
    case Cycle => ReadIrq(p)
    case Even(m, v, accepts) => Put(p, m, Command(Select(p, m), v, accepts))
    case Odd(m, v) => Put(p, m, Data(Select(p, m), v))
    case Elcr(m, v) => Put(p, m, (Select(p, m).(elcr := Lines(v) * Lines(ElcrMask(m))), false))
  }

  ghost predicate AllLegal(ops: seq<Op>) {
    forall op :: op in ops ==> Legal(op)
  }

  /** The state after a run, defined from its last operation. */
  function After(p: Pair, ops: seq<Op>): Pair
    requires AllLegal(ops)
  {
    if ops == [] then p else Apply(After(p, ops[..|ops| - 1]), ops[|ops| - 1])
  }

  /** The objects do what the functions say, over any sequence of operations. */
  method Perform(pic: KvmPic, ops: seq<Op>)
    requires pic.Valid() && AllLegal(ops)
    modifies pic, pic.master, pic.slave
    ensures pic.View() == After(old(pic.View()), ops)
  {
    for i := 0 to |ops|
      invariant pic.View() == After(old(pic.View()), ops[..i])
    {
      assert ops[..i + 1][..i] == ops[..i];
      assert ops[i] in ops;
      match ops[i] {
        case Raise(irq, level) => var _ := pic.SetIrqLine(irq, level);
        case Cycle => var _ := pic.ReadIrqVector();
        case Even(m, v, accepts) => pic.WriteCommand(m, v, accepts);
        case Odd(m, v) => pic.WriteData(m, v);
        case Elcr(m, v) => pic.WriteElcr(m, v);
      }
    }
    assert ops[..|ops|] == ops;
  }

  /** The line of a controller that op acknowledges in state p, or -1. */
  function Acked(p: Pair, op: Op, m: bool): (line: int)
    ensures -1 <= line < 8
  {
    if !op.Cycle? then -1 else if m then MasterAck(p) else SlaveAck(p)
  }

  // ----- the in-service byte is a stack -----

  /** The non-specific end-of-interrupt command for controller m. */
  predicate IsEoi(op: Op, m: bool) {
    op.Even? && op.toMaster == m && !Bit(op.v, 4) && !Bit(op.v, 3) && op.v / 32 == 1
  }

  /** No initialisation of controller m, no specific end of interrupt for it, nothing that moves its
      priorities. */
  predicate Plain(op: Op, m: bool) {
    op.Even? && op.toMaster == m && !(Bit(op.v, 3) && !Bit(op.v, 4)) ==>
      !Bit(op.v, 4) && op.v / 32 in [0, 1, 2, 4]
  }

  function NextStack(stack: seq<Line>, acked: int, eoi: bool): seq<Line>
    requires acked < 8
  {
    if acked >= 0 then stack + [acked]
    else if eoi && stack != [] then stack[..|stack| - 1]
    else stack
  }

  /** What a stack would hold: acknowledges push, non-specific ends of interrupt pop. */
  function Stack(p: Pair, ops: seq<Op>, m: bool): seq<Line>
    requires AllLegal(ops)
  {
    if ops == [] then []
    else
      var before, op := ops[..|ops| - 1], ops[|ops| - 1];
      NextStack(Stack(p, before, m), Acked(After(p, before), op, m), IsEoi(op, m))
  }

  predicate FullyNested(c: Chip) {
    c.initState == 0 && !c.autoEoi && !c.fullyNested
  }

  /** Innermost interrupts have the highest priority, and the byte holds exactly the stack. */
  ghost predicate Nested(c: Chip, stack: seq<Line>) {
    && FullyNested(c)
    && (forall l: Line :: l in c.isr <==> l in stack)
    && (forall i, j :: 0 <= i < j < |stack| ==> Distance(c.priorityAdd, stack[i]) > Distance(c.priorityAdd, stack[j]))
  }

  /** Operations that only move requests, masks and trigger modes. */
  predicate SameService(c: Chip, d: Chip) {
    && d.isr == c.isr && d.priorityAdd == c.priorityAdd && d.initState == c.initState
    && d.autoEoi == c.autoEoi && d.fullyNested == c.fullyNested
  }

  lemma {:induction false} UpdateKeepsService(p: Pair)
    ensures SameService(p.master, Update(p).master) && Update(p).slave == p.slave
  {
    hide WantedIrq;
  }

  /** The wanted interrupt goes before everything in service. */
  lemma {:induction false} WantedIsFirst(c: Chip)
    requires !c.fullyNested && WantedIrq(c) >= 0
    ensures WantedIrq(c) in c.irr - c.imr
    ensures forall l :: l in c.isr ==> Distance(c.priorityAdd, WantedIrq(c)) < Distance(c.priorityAdd, l)
  {
    PriorityIsLeastDistance(c.priorityAdd, c.irr - c.imr);
    PriorityIsLeastDistance(c.priorityAdd, c.isr);
  }

  lemma {:induction false} PushNests(c: Chip, stack: seq<Line>)
    requires Nested(c, stack) && WantedIrq(c) >= 0
    ensures Nested(Acknowledge(c, WantedIrq(c)), stack + [WantedIrq(c)])
  {
    WantedIsFirst(c);
  }

  /** A non-specific end of interrupt finds exactly the top of the stack. */
  lemma {:induction false} EoiPops(c: Chip, stack: seq<Line>)
    requires Nested(c, stack)
    ensures stack == [] ==> c.isr == {}
    ensures stack != [] ==>
              LineAt(c.priorityAdd, Priority(c.priorityAdd, c.isr)) == stack[|stack| - 1] &&
              Nested(c.(isr := c.isr - {stack[|stack| - 1]}), stack[..|stack| - 1])
  {
    PriorityIsLeastDistance(c.priorityAdd, c.isr);
    if stack != [] {
      var top := stack[|stack| - 1];
      assert top in c.isr;
      LineAtDistance(c.priorityAdd, top);
      var first := LineAt(c.priorityAdd, Priority(c.priorityAdd, c.isr));
      LineAtDistance(c.priorityAdd, first);
      var i :| 0 <= i < |stack| && stack[i] == first;
      assert i == |stack| - 1;
    }
  }

  lemma ServiceKeepsNested(c: Chip, d: Chip, stack: seq<Line>)
    requires Nested(c, stack) && SameService(c, d)
    ensures Nested(d, stack)
  {
  }

  /** A command to its own controller, before the output is recomputed. */
  lemma {:induction false} CommandNested(c: Chip, op: Op, stack: seq<Line>)
    requires op.Even? && Plain(op, op.toMaster) && Nested(c, stack)
    ensures Nested(Command(c, op.v, op.accepts).0, NextStack(stack, -1, IsEoi(op, op.toMaster)))
  {
    if IsEoi(op, op.toMaster) {
      EoiPops(c, stack);
      PriorityIsLeastDistance(c.priorityAdd, c.isr);
      if stack != [] {
        assert stack[0] in c.isr;
      }
    }
  }

  lemma {:induction false} CycleNested(p: Pair, m: bool, stack: seq<Line>)
    requires Nested(Select(p, m), stack)
    ensures Nested(Select(Apply(p, Cycle), m), NextStack(stack, Acked(p, Cycle, m), false))
  {
    var line := Acked(p, Cycle, m);
    var q := p.(master := AcknowledgeIf(p.master, MasterAck(p)), slave := AcknowledgeIf(p.slave, SlaveAck(p)),
                output := false);
    if line >= 0 {
      PushNests(Select(p, m), stack);
    }
    UpdateKeepsService(q);
    ServiceKeepsNested(Select(q, m), Select(Update(q), m), NextStack(stack, line, false));
  }

  lemma {:induction false} RaiseNested(p: Pair, irq: nat, level: bool, m: bool, stack: seq<Line>)
    requires irq < 16 && Nested(Select(p, m), stack)
    ensures Nested(Select(SetIrq(p, irq, level), m), stack)
  {
    var q := if irq < 8 then p.(master := SetLine(p.master, irq, level))
             else p.(slave := SetLine(p.slave, irq - 8, level));
    UpdateKeepsService(q);
    ServiceKeepsNested(Select(p, m), Select(Update(q), m), stack);
  }

  lemma {:induction false} EvenNested(p: Pair, op: Op, m: bool, stack: seq<Line>)
    requires op.Even? && Plain(op, m) && Nested(Select(p, m), stack)
    ensures Nested(Select(Apply(p, op), m), NextStack(stack, -1, IsEoi(op, m)))
  {
    var t := op.toMaster;
    if t == m {
      CommandNested(Select(p, m), op, stack);
    }
    PutNested(p, t, Command(Select(p, t), op.v, op.accepts), m, NextStack(stack, -1, IsEoi(op, m)));
  }

  lemma MaskNested(p: Pair, t: bool, d: (Chip, bool), m: bool, stack: seq<Line>)
    requires Nested(Select(p, m), stack) && (t == m ==> SameService(Select(p, m), d.0))
    ensures Nested(Select(Put(p, t, d), m), stack)
  {
    if t == m {
      ServiceKeepsNested(Select(p, m), d.0, stack);
    }
    PutNested(p, t, d, m, stack);
  }

  lemma {:induction false} StepNested(p: Pair, op: Op, m: bool, stack: seq<Line>)
    requires Legal(op) && Plain(op, m) && Nested(Select(p, m), stack)
    ensures Nested(Select(Apply(p, op), m), NextStack(stack, Acked(p, op, m), IsEoi(op, m)))
  {
    match op
    case Cycle => CycleNested(p, m, stack);
    case Even(_, _, _) => EvenNested(p, op, m, stack);
    case Odd(t, v) => MaskNested(p, t, Data(Select(p, t), v), m, stack);
    case Elcr(t, v) => MaskNested(p, t, (Select(p, t).(elcr := Lines(v) * Lines(ElcrMask(t))), false), m, stack);
    case Raise(irq, level) => RaiseNested(p, irq, level, m, stack);
  }

  lemma PutNested(p: Pair, t: bool, r: (Chip, bool), m: bool, stack: seq<Line>)
    requires Nested(if t == m then r.0 else Select(p, m), stack)
    ensures Nested(Select(Put(p, t, r), m), stack)
  {
    var q := if t then p.(master := r.0) else p.(slave := r.0);
    UpdateKeepsService(q);
    if r.1 {
      ServiceKeepsNested(Select(q, m), Select(Update(q), m), stack);
    }
  }

  lemma {:induction false} RunNested(p: Pair, ops: seq<Op>, m: bool)
    requires AllLegal(ops) && forall op :: op in ops ==> Plain(op, m)
    requires FullyNested(Select(p, m)) && Select(p, m).isr == {}
    ensures Nested(Select(After(p, ops), m), Stack(p, ops, m))
  {
    if ops != [] {
      var before, op := ops[..|ops| - 1], ops[|ops| - 1];
      RunNested(p, before, m);
      StepNested(After(p, before), op, m, Stack(p, before, m));
    }
  }

  /** In fully nested mode the in-service byte refines a stack: at any point of any run it holds
      exactly the acknowledged and not yet retired lines of that controller, and a non-specific end
      of interrupt retires the most recent of them and nothing else. */
  lemma {:induction false} InServiceIsAStack(p: Pair, ops: seq<Op>, m: bool, v: Byte, accepts: bool)
    requires AllLegal(ops) && forall op :: op in ops ==> Plain(op, m)
    requires FullyNested(Select(p, m)) && Select(p, m).isr == {}
    requires IsEoi(Even(m, v, accepts), m)
    ensures var c, stack := Select(After(p, ops), m), Stack(p, ops, m);
            var d := Select(Apply(After(p, ops), Even(m, v, accepts)), m);
            && c.isr == Elements(stack) && |c.isr| == |stack|
            && (stack == [] ==> d.isr == {})
            && (stack != [] ==> stack[|stack| - 1] in c.isr && d.isr == c.isr - {stack[|stack| - 1]})
  {
    hide After, Stack, WantedIrq;
    var c, stack := Select(After(p, ops), m), Stack(p, ops, m);
    var op := Even(m, v, accepts);
    RunNested(p, ops, m);
    DistinctCount(stack);
    EoiPops(c, stack);
    PriorityIsLeastDistance(c.priorityAdd, c.isr);
    UpdateKeepsService(Put(After(p, ops), m, (Command(c, v, accepts).0, false)));
    assert c.isr == Elements(stack);
  }

  /** Why moving the priorities is excluded: after a set-priority command v the next non-specific end
      of interrupt w retires the most recent acknowledge exactly if it still comes first. */
  lemma {:induction false} SetPriorityKeepsTop(c: Chip, stack: seq<Line>, v: Byte, w: Byte)
    requires Nested(c, stack) && stack != [] && v / 32 == 6 && w / 32 == 1
    ensures var top, moved := stack[|stack| - 1], Ocw2(c, v).0;
            Ocw2(moved, w).0.isr == c.isr - {top} <==>
            forall l :: l in c.isr ==> Distance(moved.priorityAdd, top) <= Distance(moved.priorityAdd, l)
  {
    var top, moved := stack[|stack| - 1], Ocw2(c, v).0;
    var add := moved.priorityAdd;
    assert top in c.isr;
    PriorityIsLeastDistance(add, c.isr);
    var first := LineAt(add, Priority(add, c.isr));
    LineAtDistance(add, top);
    LineAtDistance(add, first);
    assert Ocw2(moved, w).0.isr == c.isr - {first};
    assert top in c.isr - {first} <==> top != first;
  }

  /** The pair as it is created. */
  function Start(): Pair {
    var c := Chip({}, {}, {}, {}, 0, 0, 0, false, false, false, false, {}, true);
    Pair(c, c.(isMaster := false), false, false)
  }

  lemma {:induction false} RequestAlone(c: Chip, irq: Line)
    requires c.irr - c.imr == {irq} && forall l :: l in Blocking(c) ==> Distance(c.priorityAdd, irq) < Distance(c.priorityAdd, l)
    ensures WantedIrq(c) == irq
  {
    PriorityIsLeastDistance(c.priorityAdd, {irq});
    PriorityIsLeastDistance(c.priorityAdd, Blocking(c));
    LineAtDistance(c.priorityAdd, irq);
  }

  lemma {:induction false} NoRequest(c: Chip)
    requires c.irr - c.imr == {}
    ensures WantedIrq(c) == -1
  {
    PriorityIsLeastDistance(c.priorityAdd, {});
  }

  /** The device at a line of the master asks, and the CPU takes the interrupt. */
  lemma {:induction false} Take(p: Pair, irq: Line) returns (q: Pair)
    requires p.master == Start().master.(isr := p.master.isr, lastIrr := p.master.lastIrr) && p.slave == Start().slave
    requires irq !in p.master.lastIrr && irq != 2 && forall l :: l in p.master.isr ==> irq < l
    ensures q == Apply(Apply(p, Raise(irq, true)), Cycle)
    ensures Acked(Apply(p, Raise(irq, true)), Cycle, true) == irq
    ensures q.master == p.master.(isr := p.master.isr + {irq}, lastIrr := p.master.lastIrr + {irq})
    ensures q.slave == p.slave
  {
    var c := p.master;
    var d := SetLine(c, irq, true);
    NoRequest(p.slave);
    RequestAlone(d, irq);
    var r := Apply(p, Raise(irq, true));
    assert r.master == d && r.slave == p.slave;
    q := Apply(r, Cycle);
    var e := Acknowledge(d, irq);
    assert e == c.(isr := c.isr + {irq}, lastIrr := c.lastIrr + {irq});
    NoRequest(e);
  }

  lemma {:induction false} TwoMore(p: Pair, ops: seq<Op>, a: Op, b: Op)
    requires AllLegal(ops) && Legal(a) && Legal(b)
    ensures AllLegal(ops + [a, b])
    ensures After(p, ops + [a, b]) == Apply(Apply(After(p, ops), a), b)
    ensures a.Raise? && b.Cycle? && Acked(Apply(After(p, ops), a), b, true) >= 0 ==>
              Stack(p, ops + [a, b], true) == Stack(p, ops, true) + [Acked(Apply(After(p, ops), a), b, true)]
  {
    hide Apply;
    var all := ops + [a, b];
    assert all[..|all| - 1] == ops + [a] && (ops + [a])[..|ops|] == ops;
  }

  /** Line 3 is taken, and then line 1 inside it. */
  lemma {:induction false} OneInsideThree() returns (ops: seq<Op>)
    ensures ops == [] + [Raise(3, true), Cycle] + [Raise(1, true), Cycle] && AllLegal(ops)
    ensures Stack(Start(), ops, true) == [3, 1]
    ensures var c := After(Start(), ops).master; c.isr == {3, 1} && c.priorityAdd == 0
  {
    hide Apply, Acked;
    var q := Take(Start(), 3);
    TwoMore(Start(), [], Raise(3, true), Cycle);
    var r := Take(q, 1);
    TwoMore(Start(), [] + [Raise(3, true), Cycle], Raise(1, true), Cycle);
    ops := [] + [Raise(3, true), Cycle] + [Raise(1, true), Cycle];
  }

  /** There the command 0xC2 puts line 3 first, and the end of line 1's interrupt retires line 3. */
  lemma {:induction false} SetPriorityRetiresAnother() returns (ops: seq<Op>)
    ensures AllLegal(ops) && Stack(Start(), ops, true) == [3, 1]
    ensures Ocw2(Ocw2(After(Start(), ops).master, 0xC2).0, 0x20).0.isr == {1}
  {
    hide After, Stack;
    ops := OneInsideThree();
    var moved := Ocw2(After(Start(), ops).master, 0xC2).0;
    FirstInOrder(moved.priorityAdd, moved.isr);
    assert moved.isr - {3} == {1};
  }

  lemma {:induction false} FirstInOrder(add: Line, mask: set<Line>)
    requires add in mask
    ensures Priority(add, mask) == 0 && LineAt(add, 0) == add
  {
  }

  function Elements(stack: seq<Line>): set<Line> {
    set l | l in stack
  }

  lemma {:induction false} DistinctCount(stack: seq<Line>)
    requires forall i, j :: 0 <= i < j < |stack| ==> stack[i] != stack[j]
    ensures |Elements(stack)| == |stack|
  {
    if stack != [] {
      var rest, top := stack[..|stack| - 1], stack[|stack| - 1];
      DistinctCount(rest);
      assert stack == rest + [top];
      assert Elements(stack) == Elements(rest) + {top};
    }
  }

  // ----- bounded waiting under rotation -----

  /** One controller in rotate-on-automatic-end-of-interrupt mode with nothing in service. */
  predicate Rotating(c: Chip) {
    c.initState == 0 && c.autoEoi && c.rotateOnAutoEoi && c.isr == {}
  }

  /** op does not initialise controller m, set its priorities, or switch rotation off. */
  predicate LeavesRotation(op: Op, m: bool) {
    op.Even? && op.toMaster == m && !(Bit(op.v, 3) && !Bit(op.v, 4)) ==>
      !Bit(op.v, 4) && op.v / 32 !in [0, 6, 7]
  }

  /** The device still asks and the line is not masked. */
  predicate Requested(c: Chip, line: Line) {
    line in c.irr - c.imr
  }

  /** The number of acknowledges of controller m in a run. */
  function Acks(p: Pair, ops: seq<Op>, m: bool): nat
    requires AllLegal(ops)
  {
    if ops == [] then 0
    else
      var before := ops[..|ops| - 1];
      Acks(p, before, m) + if Acked(After(p, before), ops[|ops| - 1], m) >= 0 then 1 else 0
  }

  /** Some acknowledge in the run was for this line. */
  predicate Served(p: Pair, ops: seq<Op>, m: bool, line: Line)
    requires AllLegal(ops)
  {
    ops != [] &&
    var before := ops[..|ops| - 1];
    Served(p, before, m, line) || Acked(After(p, before), ops[|ops| - 1], m) == line
  }

  /** Until it is served, the line is requested before every operation of the run. */
  ghost predicate Waits(p: Pair, ops: seq<Op>, m: bool, line: Line)
    requires AllLegal(ops)
  {
    forall k :: 0 <= k < |ops| && !Served(p, ops[..k], m, line) ==> Requested(Select(After(p, ops[..k]), m), line)
  }

  predicate SameRotation(c: Chip, d: Chip) {
    && d.isr == c.isr && d.priorityAdd == c.priorityAdd && d.initState == c.initState
    && d.autoEoi == c.autoEoi && d.rotateOnAutoEoi == c.rotateOnAutoEoi
  }

  lemma {:induction false} UpdateKeepsRotation(p: Pair)
    ensures SameRotation(p.master, Update(p).master) && SameRotation(p.slave, Update(p).slave)
  {
    hide WantedIrq;
  }

  lemma CommandKeepsRotation(c: Chip, op: Op)
    requires op.Even? && LeavesRotation(op, op.toMaster) && Rotating(c)
    ensures SameRotation(c, Command(c, op.v, op.accepts).0)
  {
    PriorityIsLeastDistance(c.priorityAdd, c.isr);
  }

  lemma {:induction false} PutKeepsRotation(p: Pair, t: bool, d: (Chip, bool), m: bool)
    requires t == m ==> SameRotation(Select(p, m), d.0)
    ensures SameRotation(Select(p, m), Select(Put(p, t, d), m))
  {
    UpdateKeepsRotation(if t then p.(master := d.0) else p.(slave := d.0));
  }

  lemma {:induction false} RaiseKeepsRotation(p: Pair, irq: nat, level: bool, m: bool)
    requires irq < 16
    ensures SameRotation(Select(p, m), Select(SetIrq(p, irq, level), m))
  {
    UpdateKeepsRotation(if irq < 8 then p.(master := SetLine(p.master, irq, level))
                        else p.(slave := SetLine(p.slave, irq - 8, level)));
  }

  /** Anything but an acknowledge leaves the rotation where it is. */
  lemma {:induction false} OthersKeepRotation(p: Pair, op: Op, m: bool)
    requires Legal(op) && !op.Cycle? && LeavesRotation(op, m) && Rotating(Select(p, m))
    ensures SameRotation(Select(p, m), Select(Apply(p, op), m))
  {
    if op.Raise? {
      RaiseKeepsRotation(p, op.irq, op.level, m);
    } else {
      var t := op.toMaster;
      var d := if op.Even? then Command(Select(p, t), op.v, op.accepts)
               else if op.Odd? then Data(Select(p, t), op.v)
               else (Select(p, t).(elcr := Lines(op.v) * Lines(ElcrMask(t))), false);
      if op.Even? && t == m {
        CommandKeepsRotation(Select(p, m), op);
      }
      PutKeepsRotation(p, t, d, m);
    }
  }

  /** After the line irq has gone to the back, whatever was behind it is nearer to the front. */
  lemma {:induction false} BackOfTheQueue(add: Line, irq: Line, line: Line)
    requires Distance(add, irq) < Distance(add, line)
    ensures Distance((irq + 1) % 8, line) < Distance(add, line)
  {
    var i, l := Distance(add, irq), Distance(add, line);
    var q := (line - add) / 8 - (irq - add) / 8 + (irq + 1) / 8;
    ModIs(line - (irq + 1) % 8, q, l - i - 1, 8);
  }

  /** With nothing in service the wanted interrupt is the nearest request. */
  lemma {:induction false} FirstRequestWanted(c: Chip, line: Line)
    requires c.isr == {} && Requested(c, line)
    ensures WantedIrq(c) >= 0 && Distance(c.priorityAdd, WantedIrq(c)) <= Distance(c.priorityAdd, line)
  {
    PriorityIsLeastDistance(c.priorityAdd, c.irr - c.imr);
    PriorityIsLeastDistance(c.priorityAdd, {});
    assert Blocking(c) == {};
  }

  /** An acknowledge of another line brings a waiting line strictly nearer to the front. */
  lemma {:induction false} AckRotates(c: Chip, line: Line)
    requires Rotating(c) && Requested(c, line)
    ensures var irq := WantedIrq(c);
            && irq >= 0
            && Rotating(Acknowledge(c, irq))
            && (irq != line ==>
                  Distance(Acknowledge(c, irq).priorityAdd, line) < Distance(c.priorityAdd, line))
  {
    FirstRequestWanted(c, line);
    var irq := WantedIrq(c);
    if irq != line {
      LineAtDistance(c.priorityAdd, line);
      LineAtDistance(c.priorityAdd, irq);
      BackOfTheQueue(c.priorityAdd, irq, line);
    }
  }

  lemma {:induction false} CycleRotates(p: Pair, m: bool, line: Line)
    requires Rotating(Select(p, m)) && Requested(Select(p, m), line) && Acked(p, Cycle, m) != line
    ensures var c, d := Select(p, m), Select(Apply(p, Cycle), m);
            && Rotating(d)
            && Distance(d.priorityAdd, line) + (if Acked(p, Cycle, m) >= 0 then 1 else 0)
               <= Distance(c.priorityAdd, line)
  {
    AckRotates(Select(p, m), line);
    UpdateKeepsRotation(p.(master := AcknowledgeIf(p.master, MasterAck(p)),
                           slave := AcknowledgeIf(p.slave, SlaveAck(p)), output := false));
  }

  lemma {:induction false} WaitingGetsNearer(p: Pair, ops: seq<Op>, m: bool, line: Line)
    requires AllLegal(ops) && (forall op :: op in ops ==> LeavesRotation(op, m))
    requires Rotating(Select(p, m)) && Waits(p, ops, m, line) && !Served(p, ops, m, line)
    ensures var d := Select(After(p, ops), m);
            && Rotating(d)
            && Acks(p, ops, m) + Distance(d.priorityAdd, line) <= Distance(Select(p, m).priorityAdd, line)
  {
    if ops != [] {
      var n := |ops| - 1;
      var before, op := ops[..n], ops[n];
      assert forall k :: 0 <= k < n ==> before[..k] == ops[..k];
      WaitingGetsNearer(p, before, m, line);
      var q := After(p, before);
      assert Requested(Select(q, m), line);
      if op.Cycle? {
        CycleRotates(q, m, line);
      } else {
        OthersKeepRotation(q, op, m);
      }
    }
  }

  /** A line that stays requested and unmasked is served within as many acknowledges of its
      controller as its distance to the front plus one, hence within eight, whatever else happens. */
  lemma {:induction false} BoundedWaiting(p: Pair, ops: seq<Op>, m: bool, line: Line)
    requires AllLegal(ops) && (forall op :: op in ops ==> LeavesRotation(op, m))
    requires Rotating(Select(p, m)) && Waits(p, ops, m, line)
    ensures Acks(p, ops, m) > Distance(Select(p, m).priorityAdd, line) ==> Served(p, ops, m, line)
    ensures Acks(p, ops, m) >= 8 ==> Served(p, ops, m, line)
  {
    if !Served(p, ops, m, line) {
      WaitingGetsNearer(p, ops, m, line);
    }
  }

  // ----- the vectors that software asks for -----

  /** What software writes to initialise one controller: ICW1 with the bit that announces ICW4, the vector
      base, the cascade line, and the mode. */
  function Initialisation(m: bool, v: Byte): seq<Op> {
    [Even(m, 0x11, true), Odd(m, v), Odd(m, if m then 4 else 2), Odd(m, 1)]
  }

  /** Initialised with vector base v, and idle. */
  predicate Ready(c: Chip, v: Byte) {
    && c.irr == {} && c.imr == {} && c.isr == {} && c.lastIrr == {} && c.elcr == {}
    && c.priorityAdd == 0 && c.irqBase + v % 8 == v && c.irqBase % 8 == 0
    && FullyNested(c)
  }

  lemma {:induction false} AfterStep(p: Pair, ops: seq<Op>, op: Op)
    requires AllLegal(ops) && Legal(op)
    ensures AllLegal(ops + [op]) && After(p, ops + [op]) == Apply(After(p, ops), op)
  {
    hide Apply;
    assert (ops + [op])[..|ops|] == ops;
  }

  lemma {:induction false} Initialised(p: Pair, ops: seq<Op>, m: bool, v: Byte)
    requires AllLegal(ops) && var c := Select(After(p, ops), m); c.elcr == {} && c.isr == {}
    ensures AllLegal(ops + Initialisation(m, v))
    ensures var q, r := After(p, ops), After(p, ops + Initialisation(m, v));
            Ready(Select(r, m), v) && Select(r, !m) == Select(q, !m) && Select(r, m).isMaster == Select(q, m).isMaster
  {
    hide Apply;
    var i := Initialisation(m, v);
    AfterStep(p, ops, i[0]);
    AfterStep(p, ops + [i[0]], i[1]);
    AfterStep(p, ops + [i[0]] + [i[1]], i[2]);
    AfterStep(p, ops + [i[0]] + [i[1]] + [i[2]], i[3]);
    assert ops + i == ops + [i[0]] + [i[1]] + [i[2]] + [i[3]];
    FourWrites(After(p, ops), m, v);
  }

  lemma {:induction false} FourWrites(q: Pair, m: bool, v: Byte)
    requires var c := Select(q, m); c.elcr == {} && c.isr == {}
    ensures var i := Initialisation(m, v);
            var r := Apply(Apply(Apply(Apply(q, i[0]), i[1]), i[2]), i[3]);
            Ready(Select(r, m), v) && Select(r, !m) == Select(q, !m) && Select(r, m).isMaster == Select(q, m).isMaster
  {
    var c := Select(q, m);
    var c1 := Command(c, 0x11, true).0;
    var c2 := Data(c1, v).0;
    var c3 := Data(c2, if m then 4 else 2).0;
    assert c1.initState == 1 && c2.initState == 2 && c3.initState == 3;
  }

  lemma {:induction false} IdleWantsNothing(c: Chip, v: Byte)
    requires Ready(c, v)
    ensures WantedIrq(c) == -1 && Priority(c.priorityAdd, Blocking(c)) == 8
  {
    NoRequest(c);
    PriorityIsLeastDistance(c.priorityAdd, {});
  }

  lemma {:induction false} FirstRequest(c: Chip, v: Byte, irq: Line)
    requires Ready(c, v)
    ensures WantedIrq(SetLine(c, irq, true)) == irq
    ensures WantedIrq(SetLine(SetLine(c, irq, true), irq, false)) == irq
    ensures SetLine(c, irq, true).irqBase == c.irqBase
  {
    RequestAlone(SetLine(c, irq, true), irq);
    RequestAlone(SetLine(SetLine(c, irq, true), irq, false), irq);
  }

  /** After both controllers are initialised, the vector of a device's request is the base that software
      gave to its controller, with the line in the three low bits: lines 8 to 15 are those of the slave.
      Without a request it is that of line 7. */
  lemma {:induction false} VectorAsProgrammed(vm: Byte, vs: Byte, irq: nat)
    requires irq < 16 && irq != 2
    ensures var ops := Initialisation(true, vm) + Initialisation(false, vs);
            && AllLegal(ops)
            && Vector(SetIrq(After(Start(), ops), irq, true))
                 == (if irq < 8 then vm - vm % 8 + irq else vs - vs % 8 + (irq - 8))
            && Vector(After(Start(), ops)) == vm - vm % 8 + 7
  {
    hide SetLine, WantedIrq, Priority, After, Command, Data, Apply, Vector, SetIrq, Initialisation;
    StartIsIdle();
    Initialised(Start(), [], true, vm);
    assert [] + Initialisation(true, vm) == Initialisation(true, vm);
    Initialised(Start(), Initialisation(true, vm), false, vs);
    var q := After(Start(), Initialisation(true, vm) + Initialisation(false, vs));
    VectorOfLine(q, vm, vs, irq);
    BaseIs(q.master, vm);
    BaseIs(q.slave, vs);
  }

  lemma {:induction false} BaseIs(c: Chip, v: Byte)
    requires Ready(c, v)
    ensures c.irqBase == v - v % 8
  {
  }

  lemma {:induction false} VectorOfLine(q: Pair, vm: Byte, vs: Byte, irq: nat)
    requires Ready(q.master, vm) && Ready(q.slave, vs) && irq < 16 && irq != 2
    ensures Vector(SetIrq(q, irq, true)) == if irq < 8 then q.master.irqBase + irq else q.slave.irqBase + (irq - 8)
    ensures Vector(q) == q.master.irqBase + 7
  {
    hide SetLine, WantedIrq, Priority;
    IdleWantsNothing(q.slave, vs);
    IdleWantsNothing(q.master, vm);
    if irq < 8 {
      FirstRequest(q.master, vm, irq);
    } else {
      FirstRequest(q.slave, vs, irq - 8);
      FirstRequest(q.master, vm, 2);
    }
  }

  lemma {:induction false} StartIsIdle()
    ensures After(Start(), []) == Start()
  {
  }
}
