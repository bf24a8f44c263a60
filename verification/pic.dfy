/** The pair of emulated 8259 interrupt controllers (host/kvm/i8259.c).

    A byte-wide register is the set of the lines whose bit is set.  The controllers are objects
    whose methods follow the source; each method is tied to a function on the Chip or Pair value it
    leaves behind, and the theorems speak of runs of these functions. */
module Pic {
  import opened Arith

  type Line = n: nat | n < 8

  datatype Chip = Chip(
    lastIrr: set<Line>, irr: set<Line>, imr: set<Line>, isr: set<Line>,
    priorityAdd: Line, irqBase: nat,
    initState: nat, init4: bool,
    autoEoi: bool, rotateOnAutoEoi: bool, fullyNested: bool,
    elcr: set<Line>, isMaster: bool)

  datatype Pair = Pair(master: Chip, slave: Chip, output: bool, wakeup: bool)

  // ----- bytes -----

  function Bit(v: Byte, i: Line): bool {
    v / [1, 2, 4, 8, 16, 32, 64, 128][i] % 2 == 1
  }

  function Lines(v: Byte): set<Line> {
    set i: Line | Bit(v, i)
  }

  /** The lines that may be made level triggered. */
  function ElcrMask(master: bool): Byte {
    if master then 0xf8 else 0xde
  }

  // ----- the functions that specify one controller -----

  /** How far a line is behind the one that currently has the highest priority. */
  function Distance(add: Line, irq: Line): Line {
    (irq - add) % 8
  }

  /** The line at a given distance. */
  function LineAt(add: Line, priority: nat): Line {
    (priority + add) % 8
  }

  /** The smallest distance of a line in mask that is at least from; 8 if there is none. */
  function PriorityFrom(add: Line, mask: set<Line>, from: nat): nat
    requires from <= 8
    decreases 8 - from
  {
    if from == 8 then 8
    else if LineAt(add, from) in mask then from
    else PriorityFrom(add, mask, from + 1)
  }

  function Priority(add: Line, mask: set<Line>): nat {
    PriorityFrom(add, mask, 0)
  }

  function SetLine(c: Chip, irq: Line, level: bool): Chip {
    if irq in c.elcr then
      if level then c.(irr := c.irr + {irq}, lastIrr := c.lastIrr + {irq})
      else c.(irr := c.irr - {irq}, lastIrr := c.lastIrr - {irq})
    else
      if level then c.(irr := if irq in c.lastIrr then c.irr else c.irr + {irq}, lastIrr := c.lastIrr + {irq})
      else c.(lastIrr := c.lastIrr - {irq})
  }

  /** -1: masked; 0: coalesced with a request already pending; 1: delivered or nothing to deliver. */
  function SetLineResult(c: Chip, irq: Line, level: bool): int {
    if irq in c.imr then -1
    else if level && irq in c.irr && (irq in c.elcr || irq !in c.lastIrr) then 0
    else 1
  }

  /** The in-service lines that hold back new requests. */
  function Blocking(c: Chip): set<Line> {
    if c.fullyNested && c.isMaster then c.isr - {2} else c.isr
  }

  /** The interrupt the controller wants to raise, or -1. */
  function WantedIrq(c: Chip): int {
    var p := Priority(c.priorityAdd, c.irr - c.imr);
    if p == 8 || p >= Priority(c.priorityAdd, Blocking(c)) then -1 else LineAt(c.priorityAdd, p)
  }

  function Acknowledge(c: Chip, irq: Line): Chip {
    var d := c.(isr := c.isr + {irq}, irr := if irq in c.elcr then c.irr else c.irr - {irq});
    if c.autoEoi then
      d.(isr := d.isr - {irq}, priorityAdd := if c.rotateOnAutoEoi then (irq + 1) % 8 else c.priorityAdd)
    else d
  }

  function Cleared(c: Chip, init4: bool): Chip {
    c.(init4 := init4, lastIrr := {}, irr := c.irr * c.elcr, imr := {}, priorityAdd := 0,
       fullyNested := init4 && c.fullyNested, autoEoi := init4 && c.autoEoi, initState := 1)
  }

  /** Edge-triggered requests are dropped, and retired if some vCPU accepts PIC interrupts. */
  function Reset(c: Chip, init4: bool, accepts: bool): Chip {
    var d := Cleared(c, init4);
    if accepts then d.(isr := c.isr - (c.irr - c.elcr)) else d
  }

  /** The OCW2 commands; the second result says whether the interrupt output is recomputed. */
  function Ocw2(c: Chip, v: Byte): (Chip, bool) {
    var cmd, irq := v / 32, v % 8;
    match cmd
    case 0 => (c.(rotateOnAutoEoi := false), false)
    case 4 => (c.(rotateOnAutoEoi := true), false)
    case 3 => (c.(isr := c.isr - {irq}), true)
    case 6 => (c.(priorityAdd := (irq + 1) % 8), true)
    case 7 => (c.(priorityAdd := (irq + 1) % 8, isr := c.isr - {irq}), true)
    case 2 => (c, false)
    case _ =>
      var p := Priority(c.priorityAdd, c.isr);
      if p == 8 then (c, false)
      else
        var top := LineAt(c.priorityAdd, p);
        (c.(isr := c.isr - {top}, priorityAdd := if cmd == 5 then (top + 1) % 8 else c.priorityAdd), true)
  }

  /** A write to the even port: ICW1, OCW3 or OCW2.  OCW3 only chooses what port reads return. */
  function Command(c: Chip, v: Byte, accepts: bool): (Chip, bool) {
    if Bit(v, 4) then (Reset(c, Bit(v, 0), accepts), false)
    else if Bit(v, 3) then (c, false)
    else Ocw2(c, v)
  }

  /** A write to the odd port: the mask, or the rest of an initialisation sequence. */
  function Data(c: Chip, v: Byte): (Chip, bool) {
    match c.initState
    case 0 => (c.(imr := Lines(v)), true)
    case 1 => (c.(irqBase := v / 8 * 8, initState := 2), false)
    case 2 => (c.(initState := if c.init4 then 3 else 0), false)
    case 3 => (c.(fullyNested := Bit(v, 4), autoEoi := Bit(v, 1), initState := 0), false)
    case _ => (c, false)
  }

  // ----- the functions that specify the pair -----

  function Output(p: Pair, level: bool): Pair {
    p.(output := level, wakeup := p.wakeup || !p.output)
  }

  /** A wish of the slave is passed on as a pulse on line 2 of the master. */
  function Update(p: Pair): Pair {
    var m := if WantedIrq(p.slave) >= 0 then SetLine(SetLine(p.master, 2, true), 2, false) else p.master;
    Output(p.(master := m), WantedIrq(m) >= 0)
  }

  function SetIrq(p: Pair, irq: nat, level: bool): Pair
    requires irq < 16
  {
    Update(if irq < 8 then p.(master := SetLine(p.master, irq, level))
           else p.(slave := SetLine(p.slave, irq - 8, level)))
  }

  /** The line of the master (of the slave) that an interrupt acknowledge cycle takes, or -1. */
  function MasterAck(p: Pair): int {
    WantedIrq(p.master)
  }

  function SlaveAck(p: Pair): int {
    if MasterAck(p) == 2 then WantedIrq(p.slave) else -1
  }

  function AcknowledgeIf(c: Chip, irq: int): Chip
    requires irq < 8
  {
    if irq >= 0 then Acknowledge(c, irq) else c
  }

  function ReadIrq(p: Pair): Pair {
    Update(p.(master := AcknowledgeIf(p.master, MasterAck(p)),
              slave := AcknowledgeIf(p.slave, SlaveAck(p)),
              output := false))
  }

  /** The vector; line 7 stands in for an interrupt that has gone away. */
  function Vector(p: Pair): int {
    if MasterAck(p) == 2 then p.slave.irqBase + (if SlaveAck(p) >= 0 then SlaveAck(p) else 7)
    else p.master.irqBase + (if MasterAck(p) >= 0 then MasterAck(p) else 7)
  }

  function Select(p: Pair, master: bool): Chip {
    if master then p.master else p.slave
  }

  function Put(p: Pair, master: bool, r: (Chip, bool)): Pair {
    var q := if master then p.(master := r.0) else p.(slave := r.0);
    if r.1 then Update(q) else q
  }

  // ----- what a priority is -----

  lemma LineAtDistance(add: Line, irq: Line)
    ensures LineAt(add, Distance(add, irq)) == irq
    ensures forall p :: 0 <= p < 8 && LineAt(add, p) == irq ==> p == Distance(add, irq)
  {
  }

  lemma {:induction false} NoLineNoPriority(add: Line, from: nat)
    requires from <= 8
    ensures PriorityFrom(add, {}, from) == 8
    decreases 8 - from
  {
    if from < 8 {
      NoLineNoPriority(add, from + 1);
    }
  }

  lemma {:induction false} PriorityFromIsLeast(add: Line, mask: set<Line>, from: nat)
    requires from <= 8
    ensures var p := PriorityFrom(add, mask, from);
            && from <= p <= 8
            && (p < 8 ==> LineAt(add, p) in mask)
            && forall q :: from <= q < p ==> LineAt(add, q) !in mask
    decreases 8 - from
  {
    if from < 8 {
      PriorityFromIsLeast(add, mask, from + 1);
    }
  }

  /** Priority is the least distance of a line in mask, and 8 exactly for the empty mask. */
  lemma {:induction false} PriorityIsLeastDistance(add: Line, mask: set<Line>)
    ensures var p := Priority(add, mask);
            && (p == 8 <==> mask == {})
            && (p < 8 ==> LineAt(add, p) in mask && Distance(add, LineAt(add, p)) == p)
            && forall l :: l in mask ==> p <= Distance(add, l)
  {
    PriorityFromIsLeast(add, mask, 0);
    var p := Priority(add, mask);
    forall l | l in mask ensures p <= Distance(add, l) {
      LineAtDistance(add, l);
    }
    if p < 8 {
      LineAtDistance(add, LineAt(add, p));
    }
  }

  // ----- the objects -----

  class Kpic {
    var lastIrr: set<Line>
    var irr: set<Line>
    var imr: set<Line>
    var isr: set<Line>
    var priorityAdd: Line
    var irqBase: nat
    var initState: nat
    var init4: bool
    var autoEoi: bool
    var rotateOnAutoEoi: bool
    var fullyNested: bool
    var elcr: set<Line>
    const isMaster: bool

    function View(): Chip
      reads this
    {
      Chip(lastIrr, irr, imr, isr, priorityAdd, irqBase, initState, init4,
           autoEoi, rotateOnAutoEoi, fullyNested, elcr, isMaster)
    }

    constructor (master: bool)
      ensures View() == Chip({}, {}, {}, {}, 0, 0, 0, false, false, false, false, {}, master)
    {
      lastIrr, irr, imr, isr, elcr := {}, {}, {}, {}, {};
      priorityAdd, irqBase, initState := 0, 0, 0;
      init4, autoEoi, rotateOnAutoEoi, fullyNested := false, false, false, false;
      isMaster := master;
    }

    method SetIrq1(irq: Line, level: bool) returns (ret: int)
      modifies this
      ensures View() == SetLine(old(View()), irq, level)
      ensures ret == SetLineResult(old(View()), irq, level)
    {
      ret := 1;
      if irq in elcr {
        if level {
          ret := if irq in irr then 0 else 1;
          irr := irr + {irq};
          lastIrr := lastIrr + {irq};
        } else {
          irr := irr - {irq};
          lastIrr := lastIrr - {irq};
        }
      } else if level {
        if irq !in lastIrr {
          ret := if irq in irr then 0 else 1;
          irr := irr + {irq};
        }
        lastIrr := lastIrr + {irq};
      } else {
        lastIrr := lastIrr - {irq};
      }
      if irq in imr {
        ret := -1;
      }
    }

    method GetPriority(mask: set<Line>) returns (priority: nat)
      ensures priority == Priority(priorityAdd, mask) <= 8
    {
      if mask == {} {
        NoLineNoPriority(priorityAdd, 0);
        return 8;
      }
      var line :| line in mask;
      LineAtDistance(priorityAdd, line);
      priority := 0;
      while LineAt(priorityAdd, priority) !in mask
        invariant priority <= Distance(priorityAdd, line)
        invariant PriorityFrom(priorityAdd, mask, priority) == Priority(priorityAdd, mask)
        decreases 8 - priority
      {
        priority := priority + 1;
      }
    }

    method GetIrq() returns (irq: int)
      ensures irq == WantedIrq(View()) < 8
    {
      var priority := GetPriority(irr - imr);
      if priority == 8 {
        return -1;
      }
      var mask := isr;
      if fullyNested && isMaster {
        mask := mask - {2};
      }
      var current := GetPriority(mask);
      irq := if priority < current then (priority + priorityAdd) % 8 else -1;
    }

    method IntAck(irq: Line)
      modifies this
      ensures View() == Acknowledge(old(View()), irq)
    {
      isr := isr + {irq};
      if irq !in elcr {
        irr := irr - {irq};
      }
      if autoEoi {
        if rotateOnAutoEoi {
          priorityAdd := (irq + 1) % 8;
        }
        isr := isr - {irq};
      }
    }

    method DoReset(accepts: bool)
      modifies this
      ensures View() == Reset(old(View()), old(init4), accepts)
    {
      var edge := irr - elcr;
      ClearRegisters();
      if accepts {
        ClearIsr(edge);
      }
    }

    method ClearRegisters()
      modifies this
      ensures View() == Cleared(old(View()), old(init4))
    {
      lastIrr := {};
      irr := irr * elcr;
      imr := {};
      priorityAdd := 0;
      if !init4 {
        fullyNested := false;
        autoEoi := false;
      }
      initState := 1;
    }

    /** The loop at the end of a reset that retires the edge-triggered requests. */
    method ClearIsr(lines: set<Line>)
      modifies `isr
      ensures isr == old(isr) - lines
    {
      var irq: nat := 0;
      while irq < 8
        invariant irq <= 8
        invariant forall i: Line :: i in isr <==> i in old(isr) && !(i in lines && i < irq)
      {
        if irq in lines {
          isr := isr - {irq};
        }
        irq := irq + 1;
      }
    }

    /** The OCW2 commands; update says whether the interrupt output has to be recomputed. */
    method WriteOcw2(v: Byte) returns (update: bool)
      modifies this
      ensures (View(), update) == Ocw2(old(View()), v)
    {
      var cmd := v / 32;
      var irq: Line := v % 8;
      update := false;
      if cmd == 0 || cmd == 4 {
        rotateOnAutoEoi := cmd == 4;
      } else if cmd == 1 || cmd == 5 {
        var priority := GetPriority(isr);
        if priority != 8 {
          irq := (priority + priorityAdd) % 8;
          if cmd == 5 { priorityAdd := (irq + 1) % 8; }
          isr := isr - {irq};
          update := true;
        }
      } else if cmd == 3 {
        isr := isr - {irq};
        update := true;
      } else if cmd == 6 {
        priorityAdd := (v + 1) % 8;
        update := true;
      } else if cmd == 7 {
        priorityAdd := (irq + 1) % 8;
        isr := isr - {irq};
        update := true;
      }
    }

    method WriteEven(v: Byte, accepts: bool) returns (update: bool)
      modifies this
      ensures (View(), update) == Command(old(View()), v, accepts)
    {
      update := false;
      if Bit(v, 4) {
        init4 := Bit(v, 0);
        DoReset(accepts);
      } else if !Bit(v, 3) {
        update := WriteOcw2(v);
      }
    }

    method WriteOdd(v: Byte) returns (update: bool)
      modifies this
      ensures (View(), update) == Data(old(View()), v)
    {
      update := false;
      if initState == 0 {
        imr := Lines(v);
        update := true;
      } else if initState == 1 {
        irqBase := v / 8 * 8;
        initState := 2;
      } else if initState == 2 {
        initState := if init4 then 3 else 0;
      } else if initState == 3 {
        fullyNested := Bit(v, 4);
        autoEoi := Bit(v, 1);
        initState := 0;
      }
    }
  }

  class KvmPic {
    const master: Kpic
    const slave: Kpic
    var output: bool
    var wakeup: bool

    ghost predicate Valid()
      reads this
    {
      master != slave && master.isMaster && !slave.isMaster
    }

    function View(): Pair
      reads this, master, slave
    {
      Pair(master.View(), slave.View(), output, wakeup)
    }

    constructor ()
      ensures Valid() && fresh(master) && fresh(slave)
      ensures View().master.isr == {} && View().slave.isr == {} && !output && !wakeup
    {
      master := new Kpic(true);
      slave := new Kpic(false);
      output, wakeup := false, false;
    }

    method IrqRequest(level: bool)
      modifies this
      ensures View() == Output(old(View()), level)
    {
      if !output {
        wakeup := true;
      }
      output := level;
    }

    method UpdateIrq()
      requires Valid()
      modifies this, master, slave
      ensures View() == Update(old(View()))
    {
      var irq2 := slave.GetIrq();
      if irq2 >= 0 {
        var _ := master.SetIrq1(2, true);
        var _ := master.SetIrq1(2, false);
      }
      var irq := master.GetIrq();
      IrqRequest(irq >= 0);
    }

    method SetIrqLine(irq: nat, level: bool) returns (ret: int)
      requires Valid() && irq < 16
      modifies this, master, slave
      ensures View() == SetIrq(old(View()), irq, level)
      ensures ret == SetLineResult(Select(old(View()), irq < 8), irq % 8, level)
    {
      hide SetLine, SetLineResult, WantedIrq;
      if irq < 8 {
        ret := master.SetIrq1(irq, level);
      } else {
        ret := slave.SetIrq1(irq - 8, level);
      }
      UpdateIrq();
    }

    /** The interrupt acknowledge cycle of the CPU. */
    method ReadIrqVector() returns (intno: int)
      requires Valid()
      modifies this, master, slave
      ensures View() == ReadIrq(old(View()))
      ensures intno == Vector(old(View()))
    {
      output := false;
      var irq := master.GetIrq();
      if irq >= 0 {
        master.IntAck(irq);
        if irq == 2 {
          var irq2 := slave.GetIrq();
          if irq2 >= 0 {
            slave.IntAck(irq2);
          } else {
            irq2 := 7;
          }
          intno := slave.irqBase + irq2;
        } else {
          intno := master.irqBase + irq;
        }
      } else {
        irq := 7;
        intno := master.irqBase + irq;
      }
      UpdateIrq();
    }

    /** A write to the even port of one controller. */
    method WriteCommand(toMaster: bool, v: Byte, accepts: bool)
      requires Valid()
      modifies this, master, slave
      ensures View() == Put(old(View()), toMaster, Command(Select(old(View()), toMaster), v, accepts))
    {
      var update;
      if toMaster {
        update := master.WriteEven(v, accepts);
      } else {
        update := slave.WriteEven(v, accepts);
      }
      if update {
        UpdateIrq();
      }
    }

    /** A write to the odd port of one controller. */
    method WriteData(toMaster: bool, v: Byte)
      requires Valid()
      modifies this, master, slave
      ensures View() == Put(old(View()), toMaster, Data(Select(old(View()), toMaster), v))
    {
      var update;
      if toMaster {
        update := master.WriteOdd(v);
      } else {
        update := slave.WriteOdd(v);
      }
      if update {
        UpdateIrq();
      }
    }

    /** A write to the edge/level register of one controller. */
    method WriteElcr(toMaster: bool, v: Byte)
      requires Valid()
      modifies this, master, slave
      ensures var c := Select(old(View()), toMaster);
              View() == Put(old(View()), toMaster, (c.(elcr := Lines(v) * Lines(ElcrMask(toMaster))), false))
    {
      var s := if toMaster then master else slave;
      s.elcr := Lines(v) * Lines(ElcrMask(toMaster));
    }
  }
}
