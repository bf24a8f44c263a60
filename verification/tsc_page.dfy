/** The reference TSC page shared with the guest (host/kvm/hyperv.c:568-585, 1158-1247, 1432-1443).

    The host updates the page in separate writes to guest memory while guest vCPUs read it without
    a lock; a read counts only if it sees the same non-zero sequence before and after.  Everything
    the host does happens under hv_lock, so there is one host program counter; each access to
    guest memory is one step and may fail. */
module TscPage {
  import opened Arith

  datatype TscRef = TscRef(sequence: nat, scale: nat, offset: nat)

  datatype Status = Unset | GuestChanged | HostChanged | Set | Broken

  datatype Field = Sequence | Scale | Offset

  /** Where kvm_hv_setup_tsc_page stands; found is its local tsc_seq. */
  datatype Setup =
    | Outside
    | HaveSeq(found: nat)
    | Zeroed(found: nat)
    | Writing(found: nat, left: set<Field>)

  datatype Params = NoParams | Params(scale: nat, offset: nat)

  /** One guest reader of the page at frame g. */
  datatype Reader =
    | NotReading
    | GotSeq(g: nat, first: nat)
    | GotScale(g: nat, first: nat, scale: nat)
    | GotOffset(g: nat, first: nat, scale: nat, offset: nat)
    | Finished(g: nat, first: nat, scale: nat, offset: nat, second: nat)

  datatype State = State(
    msr: nat,                    // hv_tsc_page
    status: Status,
    emulation: bool,             // hv_tsc_emulation_control is set
    hostRef: TscRef,             // hv->tsc_ref
    memory: map<nat, TscRef>,    // guest frames; absent ones are zero
    setup: Setup,
    reader: Reader,
    // history
    whole: map<nat, TscRef>,     // what last became visible as a whole in each frame
    updates: nat,                // updates of the reader's frame completed since its first read
    restarted: bool)             // ... one of which had found a zero sequence

  datatype Step =
    | WriteMsr(data: nat, host: bool)
    | WriteEmulation(on: bool)
    | RequestUpdate
    | Begin(ok: bool)
    | Keep(ok: bool)
    | Zero(ok: bool)
    | Compute(params: Params)
    | WriteField(field: Field, ok: bool)
    | Publish(ok: bool)
    | ReadSeq(g: nat)
    | ReadScale
    | ReadOffset
    | ReadSeqAgain
    | GuestWrites(g: nat, content: TscRef)

  const CYCLE: nat := 0xFFFF_FFFE

  function At(m: map<nat, TscRef>, g: nat): TscRef {
    if g in m then m[g] else TscRef(0, 0, 0)
  }

  predicate PageEnabled(s: State) {
    s.msr % 2 == 1
  }

  function Frame(s: State): nat {
    s.msr / 4096
  }

  /** tsc_page_update_unsafe */
  predicate UpdateUnsafe(s: State) {
    s.status != GuestChanged && s.emulation
  }

  /** The sequence that replaces q; 0 and 0xFFFFFFFF are skipped. */
  function NextSeq(q: nat): nat {
    var t := (q + 1) % 0x1_0000_0000;
    if t == 0xFFFF_FFFF || t == 0 then 1 else t
  }

  function Store(s: State, content: TscRef): map<nat, TscRef> {
    s.memory[Frame(s) := content]
  }

  predicate ReaderOn(r: Reader, g: nat) {
    Reading(r) && r.g == g
  }

  ghost predicate Init(s: State) {
    && s.status == Unset && s.setup == Outside && s.reader == NotReading && !PageEnabled(s)
    && s.whole == s.memory
    && forall g :: g in s.memory ==> s.memory[g].sequence < 0x1_0000_0000
  }

  predicate Enabled(s: State, a: Step) {
    match a
    case WriteMsr(_, _) => s.setup.Outside?
    case WriteEmulation(_) => s.setup.Outside?
    case RequestUpdate => s.setup.Outside?
    case Begin(_) => s.setup.Outside?
    case Keep(_) => s.setup.HaveSeq? && s.setup.found != 0 && UpdateUnsafe(s)
    case Zero(_) => s.setup.HaveSeq? && (s.setup.found == 0 || !UpdateUnsafe(s))
    case Compute(_) => s.setup.Zeroed?
    case WriteField(f, _) => s.setup.Writing? && f in s.setup.left
    case Publish(_) => s.setup.Writing? && s.setup.left == {}
    case ReadSeq(_) => s.reader.NotReading? || s.reader.Finished?
    case ReadScale => s.reader.GotSeq?
    case ReadOffset => s.reader.GotScale?
    case ReadSeqAgain => s.reader.GotOffset?
    // the guest leaves alone the page in use and the page being read
    case GuestWrites(g, content) =>
      !(PageEnabled(s) && g == Frame(s)) && !ReaderOn(s.reader, g) && content.sequence < 0x1_0000_0000
  }

  function Do(s: State, a: Step): State
    requires Enabled(s, a)
  {
    var page := At(s.memory, Frame(s));
    var broken := s.(status := Broken, setup := Outside);
    match a
    case WriteMsr(data, host) =>
      s.(msr := data,
         status := if data % 2 != 1 then Unset else if host then HostChanged else GuestChanged)
    case WriteEmulation(on) => s.(emulation := on)
    case RequestUpdate =>
      if s.status == Set && !UpdateUnsafe(s) then s.(status := HostChanged) else s
    case Begin(ok) =>
      if s.status == Broken || s.status == Set || s.status == Unset || !PageEnabled(s) then s
      else if ok then s.(setup := HaveSeq(page.sequence)) else broken
    case Keep(ok) =>
      if ok then s.(hostRef := page, status := Set, setup := Outside) else broken
    case Zero(ok) =>
      var z := s.(hostRef := s.hostRef.(sequence := 0));
      if ok then z.(memory := Store(s, page.(sequence := 0)), setup := Zeroed(s.setup.found))
      else z.(status := Broken, setup := Outside)
    case Compute(params) =>
      if params.NoParams? then broken
      else s.(hostRef := s.hostRef.(scale := params.scale, offset := params.offset),
              setup := Writing(s.setup.found, {Sequence, Scale, Offset}))
    case WriteField(f, ok) =>
      if !ok then broken
      else
        var page' := match f
                     case Sequence => page.(sequence := s.hostRef.sequence)
                     case Scale => page.(scale := s.hostRef.scale)
                     case Offset => page.(offset := s.hostRef.offset);
        s.(memory := Store(s, page'), setup := s.setup.(left := s.setup.left - {f}))
    case Publish(ok) =>
      var q := NextSeq(s.setup.found);
      var t := s.(hostRef := s.hostRef.(sequence := q), setup := Outside);
      if !ok then t.(status := Broken)
      else
        var page' := page.(sequence := q);
        var mine := ReaderOn(s.reader, Frame(s));
        t.(memory := Store(s, page'), whole := s.whole[Frame(s) := page'], status := Set,
           updates := if mine then s.updates + 1 else s.updates,
           restarted := s.restarted || (mine && s.setup.found == 0))
    case ReadSeq(g) => s.(reader := GotSeq(g, At(s.memory, g).sequence), updates := 0, restarted := false)
    case ReadScale => s.(reader := GotScale(s.reader.g, s.reader.first, At(s.memory, s.reader.g).scale))
    case ReadOffset =>
      s.(reader := GotOffset(s.reader.g, s.reader.first, s.reader.scale, At(s.memory, s.reader.g).offset))
    case ReadSeqAgain =>
      s.(reader := Finished(s.reader.g, s.reader.first, s.reader.scale, s.reader.offset,
                            At(s.memory, s.reader.g).sequence))
    case GuestWrites(g, content) =>
      s.(memory := s.memory[g := content], whole := s.whole[g := content])
  }

  ghost predicate Chain(states: seq<State>, steps: seq<Step>) {
    && |states| == |steps| + 1
    && forall k :: 0 <= k < |steps| ==> Enabled(states[k], steps[k]) && states[k + 1] == Do(states[k], steps[k])
  }

  ghost predicate Run(states: seq<State>, steps: seq<Step>) {
    Chain(states, steps) && Init(states[0])
  }

  // ----- the sequence numbers -----

  /** The sequence after k updates that start from s != 0. */
  function SeqAfter(s: nat, k: nat): nat {
    if k == 0 then s
    else if s == 0xFFFF_FFFF then (k - 1) % CYCLE + 1
    else (s - 1 + k) % CYCLE + 1
  }

  lemma {:induction false} CycleNext(y: nat)
    ensures (y + 1) % CYCLE == if y % CYCLE == CYCLE - 1 then 0 else y % CYCLE + 1
  {
    if y % CYCLE == CYCLE - 1 {
      ModIs(y + 1, y / CYCLE + 1, 0, CYCLE);
    } else {
      ModIs(y + 1, y / CYCLE, y % CYCLE + 1, CYCLE);
    }
  }

  lemma {:induction false} NextSeqAfter(s: nat, k: nat)
    requires 0 < s < 0x1_0000_0000
    ensures NextSeq(SeqAfter(s, k)) == SeqAfter(s, k + 1)
    ensures 0 < SeqAfter(s, k) < 0x1_0000_0000
  {
    if s != 0xFFFF_FFFF {
      CycleNext(s - 1 + k);
      if k == 0 {
        ModIs(s - 1, 0, s - 1, CYCLE);
      }
    } else if k > 0 {
      CycleNext(k - 1);
    }
  }

  /** The sequence comes back after 2^32 - 2 updates and not before. */
  lemma SeqReturns(s: nat, k: nat)
    requires 0 < s < 0x1_0000_0000
    ensures k < CYCLE && SeqAfter(s, k) == s ==> k == 0
    ensures s <= CYCLE ==> SeqAfter(s, CYCLE) == s
  {
  }

  // ----- what every step keeps -----

  /** Status SET: the page is enabled, visible, and says what get_time_ref_counter uses. */
  ghost predicate PageSettled(s: State) {
    s.status == Set ==>
      s.setup.Outside? && PageEnabled(s) && At(s.memory, Frame(s)) == s.hostRef && s.hostRef.sequence != 0
  }

  ghost predicate SetupOk(s: State) {
    && (!s.setup.Outside? ==> PageEnabled(s) && (s.status == GuestChanged || s.status == HostChanged))
    && (s.setup.HaveSeq? ==> s.setup.found == At(s.memory, Frame(s)).sequence)
    && (s.setup.Zeroed? || s.setup.Writing? ==>
          s.setup.found < 0x1_0000_0000 && At(s.memory, Frame(s)).sequence == 0 && s.hostRef.sequence == 0)
    && (s.setup.Writing? ==>
          var page := At(s.memory, Frame(s));
          && (Scale !in s.setup.left ==> page.scale == s.hostRef.scale)
          && (Offset !in s.setup.left ==> page.offset == s.hostRef.offset))
  }

  /** A frame with a non-zero sequence holds what last became visible as a whole. */
  ghost predicate NonZeroMeansWhole(s: State) {
    forall g: nat :: WholeAt(s, g)
  }

  predicate WholeAt(s: State, g: nat) {
    && At(s.memory, g).sequence < 0x1_0000_0000
    && (At(s.memory, g).sequence != 0 ==> At(s.memory, g) == At(s.whole, g))
  }

  predicate Reading(r: Reader) {
    !r.NotReading? && !r.Finished?
  }

  /** What a read in progress can rely on while no update has restarted from zero. */
  ghost predicate ReaderOk(s: State) {
    Reading(s.reader) && s.reader.first != 0 && !s.restarted ==>
      s.reader.first < 0x1_0000_0000 && Consistent(s, SeqAfter(s.reader.first, s.updates))
  }

  /** The sequence in the page being read, where it is not zero, is the expected one; as long as no
      update has completed, what has been read so far is still in the page. */
  ghost predicate Consistent(s: State, expected: nat)
    requires Reading(s.reader)
  {
    var r, page := s.reader, At(s.memory, s.reader.g);
    && (page.sequence != 0 ==> page.sequence == expected)
    && (!s.setup.Outside? && Frame(s) == r.g && s.setup.found != 0 ==> s.setup.found == expected)
    && (page.sequence != 0 && s.updates == 0 ==>
          && (r.GotScale? || r.GotOffset? ==> r.scale == page.scale)
          && (r.GotOffset? ==> r.offset == page.offset))
  }

  ghost predicate Inv(s: State) {
    PageSettled(s) && SetupOk(s) && NonZeroMeansWhole(s) && ReaderOk(s)
  }

  lemma StepKeepsPage(s: State, a: Step)
    requires Inv(s) && Enabled(s, a)
    ensures PageSettled(Do(s, a)) && SetupOk(Do(s, a))
  {
    assert WholeAt(s, Frame(s));
  }

  lemma StepKeepsWhole(s: State, a: Step)
    requires Inv(s) && Enabled(s, a)
    ensures NonZeroMeansWhole(Do(s, a))
  {
    forall g: nat ensures WholeAt(Do(s, a), g) {
      assert WholeAt(s, g);
    }
  }

  predicate ByReader(a: Step) {
    a.ReadSeq? || a.ReadScale? || a.ReadOffset? || a.ReadSeqAgain?
  }

  lemma ReaderKeepsReader(s: State, a: Step)
    requires Inv(s) && Enabled(s, a) && ByReader(a)
    ensures ReaderOk(Do(s, a))
  {
    if a.ReadSeq? {
      assert WholeAt(s, a.g);
    }
  }

  lemma PublishKeepsReader(s: State, ok: bool)
    requires Inv(s) && Enabled(s, Publish(ok))
    ensures ReaderOk(Do(s, Publish(ok)))
  {
    var r := s.reader;
    if ReaderOn(r, Frame(s)) && 0 < r.first < 0x1_0000_0000 {
      NextSeqAfter(r.first, s.updates);
    }
  }

  predicate WritesMemory(a: Step) {
    a.Zero? || a.WriteField? || a.GuestWrites?
  }

  lemma {:induction false} WriteKeepsConsistent(s: State, a: Step, expected: nat)
    requires SetupOk(s) && Enabled(s, a) && WritesMemory(a)
    requires Reading(s.reader) && Consistent(s, expected)
    ensures Do(s, a).reader == s.reader && Consistent(Do(s, a), expected)
  {
  }

  lemma {:induction false} HostKeepsConsistent(s: State, a: Step, expected: nat)
    requires SetupOk(s) && Enabled(s, a) && !ByReader(a) && !a.Publish? && !WritesMemory(a)
    requires Reading(s.reader) && Consistent(s, expected)
    ensures Do(s, a).reader == s.reader && Consistent(Do(s, a), expected)
  {
    assert Do(s, a).memory == s.memory;
  }

  lemma {:induction false} ReadUndisturbed(s: State, a: Step)
    requires Enabled(s, a) && !ByReader(a) && !a.Publish?
    ensures Do(s, a).updates == s.updates && Do(s, a).restarted == s.restarted && Do(s, a).reader == s.reader
  {
  }

  lemma {:induction false} StepKeepsReader(s: State, a: Step)
    requires Inv(s) && Enabled(s, a)
    ensures ReaderOk(Do(s, a))
  {
    if ByReader(a) {
      ReaderKeepsReader(s, a);
    } else if a.Publish? {
      PublishKeepsReader(s, a.ok);
    } else if Reading(s.reader) && s.reader.first != 0 && !s.restarted {
      ReadUndisturbed(s, a);
      if WritesMemory(a) {
        WriteKeepsConsistent(s, a, SeqAfter(s.reader.first, s.updates));
      } else {
        HostKeepsConsistent(s, a, SeqAfter(s.reader.first, s.updates));
      }
    }
  }

  lemma {:induction false} RunInv(states: seq<State>, steps: seq<Step>, k: nat)
    requires Run(states, steps) && k < |states|
    ensures Inv(states[k])
  {
    if k > 0 {
      RunInv(states, steps, k - 1);
      StepKeepsPage(states[k - 1], steps[k - 1]);
      StepKeepsWhole(states[k - 1], steps[k - 1]);
      StepKeepsReader(states[k - 1], steps[k - 1]);
    }
  }

  // ----- theorems over every run -----

  predicate Accepted(r: Reader) {
    r.Finished? && r.first == r.second != 0
  }

  /** A read that sees the same non-zero sequence at both ends returns the scale and offset that
      became visible together with that sequence: during the read fewer than 2^32 - 2 updates of the
      page completed, and none of them had found a zero sequence. */
  lemma AcceptedReadIsWhole(states: seq<State>, steps: seq<Step>, k: nat)
    requires Run(states, steps) && k < |steps| && steps[k] == ReadSeqAgain
    requires var t := states[k + 1]; Accepted(t.reader) && t.updates < CYCLE && !t.restarted
    ensures var r := states[k + 1].reader;
            TscRef(r.first, r.scale, r.offset) == At(states[k + 1].whole, r.g)
  {
    RunInv(states, steps, k);
    var s := states[k];
    assert s.reader.GotOffset? && s.reader.first != 0 && states[k + 1] == Do(s, ReadSeqAgain);
    assert WholeAt(s, s.reader.g);
    SeqReturns(s.reader.first, s.updates);
  }

  /** get_time_ref_counter: the parameters are used only while the status is SET. */
  function HostTime(s: State, tsc: nat, clock: nat): nat {
    if s.status != Set then clock / 100
    else (tsc * s.hostRef.scale / 0x1_0000_0000_0000_0000 + s.hostRef.offset) % 0x1_0000_0000_0000_0000
  }

  /** What a guest computes from a page whose sequence is not zero. */
  function GuestTime(page: TscRef, tsc: nat): nat {
    (tsc * page.scale / 0x1_0000_0000_0000_0000 + page.offset) % 0x1_0000_0000_0000_0000
  }

  /** While the status is SET the guest's page is usable and gives the time the host gives. */
  lemma SetMeansAgreement(states: seq<State>, steps: seq<Step>, k: nat, tsc: nat, clock: nat)
    requires Run(states, steps) && k < |states| && states[k].status == Set
    ensures var page := At(states[k].memory, Frame(states[k]));
            page.sequence != 0 && GuestTime(page, tsc) == HostTime(states[k], tsc, clock)
  {
    RunInv(states, steps, k);
  }

  // ----- who writes the register matters -----

  /** The state after the register has been written and the update has read the page's sequence. */
  function Enabling(s: State, data: nat, host: bool): State
    requires s.setup.Outside?
  {
    Do(Do(s, WriteMsr(data, host)), Begin(true))
  }

  /** When the guest enables the page, the update goes through: there is no way to keep the contents that
      are there, and the first thing it does is to take them back. */
  lemma GuestEnablesAnew(s: State, data: nat, ok: bool)
    requires s.setup.Outside? && data % 2 == 1
    ensures var t := Enabling(s, data, false);
            && !Enabled(t, Keep(ok)) && Enabled(t, Zero(true))
            && At(Do(t, Zero(true)).memory, data / 4096).sequence == 0
  {
  }

  /** When the host restores the register of a guest for which TSC accesses are emulated, a page that has
      been filled in before stays as it is, and the host takes over what it says. */
  lemma RestoredPageIsKept(s: State, data: nat)
    requires s.setup.Outside? && data % 2 == 1 && s.emulation && At(s.memory, data / 4096).sequence != 0
    ensures var t := Enabling(s, data, true);
            && Enabled(t, Keep(true)) && !Enabled(t, Zero(true))
            && Do(t, Keep(true)).memory == s.memory && Do(t, Keep(true)).status == Set
            && Do(t, Keep(true)).hostRef == At(s.memory, data / 4096)
  {
  }

  // ----- both premises of AcceptedReadIsWhole are needed -----

  predicate EndsWith(steps: seq<Step>, a: Step) {
    steps != [] && steps[|steps| - 1] == a
  }

  lemma Extend(states: seq<State>, steps: seq<Step>, s: State, a: Step)
      returns (states': seq<State>, steps': seq<Step>, t: State)
    requires Run(states, steps) && states[|steps|] == s && Enabled(s, a)
    ensures Run(states', steps') && states'[|steps'|] == t == Do(s, a)
    ensures EndsWith(steps', a)
  {
    t := Do(s, a);
    states', steps' := states + [t], steps + [a];
  }

  /** One update, from reading sequence q to publishing its successor. */
  lemma Update(states: seq<State>, steps: seq<Step>, s: State, p: Params)
      returns (states': seq<State>, steps': seq<Step>, t: State)
    requires Run(states, steps) && states[|steps|] == s && p.Params?
    requires s.setup.Outside? && PageEnabled(s) && (s.status == GuestChanged || (s.status == HostChanged && !s.emulation))
    ensures Run(states', steps') && states'[|steps'|] == t
    ensures var q := At(s.memory, Frame(s)).sequence;
            var page := TscRef(NextSeq(q), p.scale, p.offset);
            && At(t.memory, Frame(s)) == page && At(t.whole, Frame(s)) == page
            && t.setup.Outside? && t.status == Set && t.msr == s.msr && t.emulation == s.emulation
            && t.reader == s.reader
            && (ReaderOn(s.reader, Frame(s)) ==>
                  t.updates == s.updates + 1 && t.restarted == (s.restarted || q == 0))
  {
    hide Run, NextSeq;
    states', steps', t := Extend(states, steps, s, Begin(true));
    states', steps', t := Extend(states', steps', t, Zero(true));
    states', steps', t := Extend(states', steps', t, Compute(p));
    states', steps', t := Extend(states', steps', t, WriteField(Sequence, true));
    states', steps', t := Extend(states', steps', t, WriteField(Scale, true));
    states', steps', t := Extend(states', steps', t, WriteField(Offset, true));
    assert t.setup.left == {};
    states', steps', t := Extend(states', steps', t, Publish(true));
  }

  /** The guest enables the page at frame 1 and a first update fills it in. */
  lemma FirstUpdate() returns (states: seq<State>, steps: seq<Step>, s: State)
    ensures Run(states, steps) && states[|steps|] == s
    ensures s.msr == 4097 && s.setup.Outside? && s.status == Set && !s.emulation && s.reader == NotReading
    ensures At(s.memory, 1) == TscRef(1, 10, 20)
  {
    s := State(0, Unset, false, TscRef(0, 0, 0), map[], Outside, NotReading, map[], 0, false);
    states, steps := [s], [];
    states, steps, s := Extend(states, steps, s, WriteMsr(4097, false));
    states, steps, s := Update(states, steps, s, Params(10, 20));
  }

  /** ... and a reader has read the sequence and the scale. */
  lemma HalfRead() returns (states: seq<State>, steps: seq<Step>, s: State)
    ensures Run(states, steps) && states[|steps|] == s
    ensures s.msr == 4097 && s.setup.Outside? && s.status == Set && !s.emulation
    ensures At(s.memory, 1) == TscRef(1, 10, 20)
    ensures s.reader == GotScale(1, 1, 10) && s.updates == 0 && !s.restarted
  {
    states, steps, s := FirstUpdate();
    states, steps, s := Extend(states, steps, s, ReadSeq(1));
    states, steps, s := Extend(states, steps, s, ReadScale);
  }

  /** The reader finishes: the scale of one update, the offset of another, the same sequence. */
  lemma FinishRead(states: seq<State>, steps: seq<Step>, s: State)
      returns (states': seq<State>, steps': seq<Step>, t: State)
    requires Run(states, steps) && states[|steps|] == s
    requires s.reader == GotScale(1, 1, 10) && At(s.memory, 1) == At(s.whole, 1) == TscRef(1, 30, 40)
    ensures Run(states', steps') && states'[|steps'|] == t && EndsWith(steps', ReadSeqAgain)
    ensures Accepted(t.reader) && t.updates == s.updates && t.restarted == s.restarted
    ensures TscRef(t.reader.first, t.reader.scale, t.reader.offset) != At(t.whole, 1)
  {
    states', steps', t := Extend(states, steps, s, ReadOffset);
    states', steps', t := Extend(states', steps', t, ReadSeqAgain);
  }

  /** A failed update leaves sequence zero behind; when the guest enables the page again, the next
      update starts over at one, and a reader that had seen one accepts a mixture. */
  lemma RestartTearsARead() returns (states: seq<State>, steps: seq<Step>, t: State)
    ensures Run(states, steps) && states[|steps|] == t && EndsWith(steps, ReadSeqAgain)
    ensures Accepted(t.reader) && t.updates == 1 && t.restarted
    ensures TscRef(t.reader.first, t.reader.scale, t.reader.offset) != At(t.whole, 1)
  {
    var s;
    states, steps, s := HalfRead();
    states, steps, s := Extend(states, steps, s, WriteMsr(4097, false));
    states, steps, s := Extend(states, steps, s, Begin(true));
    states, steps, s := Extend(states, steps, s, Zero(true));
    states, steps, s := Extend(states, steps, s, Compute(NoParams));
    states, steps, s := Extend(states, steps, s, WriteMsr(4097, false));
    states, steps, s := Update(states, steps, s, Params(30, 40));
    states, steps, t := FinishRead(states, steps, s);
  }

  /** n updates in a row during a read. */
  lemma {:induction false} ManyUpdates(n: nat) returns (states: seq<State>, steps: seq<Step>, s: State)
    ensures Run(states, steps) && states[|steps|] == s
    ensures s.msr == 4097 && s.setup.Outside? && s.status == Set && !s.emulation
    ensures s.reader == GotScale(1, 1, 10) && s.updates == n && !s.restarted
    ensures At(s.memory, 1).sequence == SeqAfter(1, n)
    ensures n > 0 ==> At(s.memory, 1) == At(s.whole, 1) == TscRef(SeqAfter(1, n), 30, 40)
  {
    if n == 0 {
      states, steps, s := HalfRead();
    } else {
      states, steps, s := ManyUpdates(n - 1);
      NextSeqAfter(1, n - 1);
      states, steps, s := Extend(states, steps, s, RequestUpdate);
      states, steps, s := Update(states, steps, s, Params(30, 40));
    }
  }

  /** With 2^32 - 2 updates during one read the sequence is back, and the read is torn. */
  lemma FullCycleTearsARead() returns (states: seq<State>, steps: seq<Step>, t: State)
    ensures Run(states, steps) && states[|steps|] == t && EndsWith(steps, ReadSeqAgain)
    ensures Accepted(t.reader) && t.updates == CYCLE && !t.restarted
    ensures TscRef(t.reader.first, t.reader.scale, t.reader.offset) != At(t.whole, 1)
  {
    var s;
    states, steps, s := ManyUpdates(CYCLE);
    SeqReturns(1, CYCLE);
    states, steps, t := FinishRead(states, steps, s);
  }
}
