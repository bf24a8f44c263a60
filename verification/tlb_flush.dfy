/** Hyper-V TLB flush FIFO of one vCPU: many writers that take the write lock in turn,
    one lock-free reader, and the full-flush path that purges the FIFO.

    Every atomic access of host/kvm/hyperv.c:1931-1999, hyperv.h:206-217 and x86.c:3590-3613,
    10790-10793 is one labelled step.  The ring buffer is seen as the log of everything
    ever published plus the reader's out index, so the entries held are log[out..]. */
module TlbFlush {

  /** Entries are 64-bit: a page number in the upper 52 bits, and in the lower 12 bits how many
      further pages follow it. */
  type Entry = e: nat | e < 0x1_0000_0000_0000_0000
  type Page = p: nat | p < PAGES

  const PAGES: nat := 0x10_0000_0000_0000
  const FLUSH_ALL: Entry := 0xFFFF_FFFF_FFFF_FFFF

  /** What one hypercall asks of this vCPU; None stands for the NULL entry list. */
  datatype Request = Ranges(entries: seq<Entry>) | Everything

  /** The writer that holds the lock: it has the lock; it has chosen what to put, either the request
      whole (the branch with the warning) or a flush-all; kfifo_in has fixed how many of these
      elements fit. */
  datatype Writer =
    | NoWriter
    | Locked(request: Request)
    | Chosen(request: Request, put: seq<Entry>, whole: bool)
    | Fitted(put: seq<Entry>)

  datatype Reader =
    | Idle
    | Taken                                      // request bit cleared, FIFO not read yet
    | Peeked(batch: seq<Entry>)                  // elements copied, out not moved yet
    | Draining(batch: seq<Entry>, i: nat, j: nat)
    | ResetRead                                  // kfifo_reset_out is about to read in
    | ResetWrite(limit: nat)                     // ... and about to write out
    | OwesFull                                   // -ENOSPC returned, full flush not done yet
    | Purge                                      // full flush done, purge about to test the bit
    | PurgeRead
    | PurgeWrite(limit: nat)

  datatype State = State(
    log: seq<Entry>,
    out: nat,
    writer: Writer,
    reader: Reader,
    requestBit: bool,      // KVM_REQ_HV_TLB_FLUSH
    tlb: iset<Page>,       // pages the vCPU's TLB may hold
    // history
    stale: iset<Page>,     // pages it may hold from before a flush of them was requested
    onLock: iset<Page>,    // those that the lock holder's request asks for
    unkicked: seq<iset<Page>>,  // and those of each hypercall that has enqueued but not set the request bit
    done: iset<Page>,      // and those of all completed hypercalls
    asked: iset<Page>,     // pages requested and not invalidated since
    dropped: iset<Page>)   // of these, the pages whose last entry a purge has thrown away

  datatype Step =
    | Lock(request: Request)
    | Choose
    | Fit
    | Publish
    | Kick(i: nat)
    | TakeRequest
    | Peek
    | Advance
    | FlushPage
    | NextEntry
    | ReturnOk
    | SeeFlushAll
    | ReadIn
    | WriteOut
    | StartFullFlush
    | FullFlush
    | TestPurge
    | PurgeReadIn
    | PurgeWriteOut
    | RunGuest

  /** Page p is among the pages that entry e names. */
  predicate Covers(e: Entry, p: Page) {
    e == FLUSH_ALL || Offset(e, p) <= e % 4096
  }

  /** How far page p lies behind the first page of entry e, in the 2^52-page address space. */
  function Offset(e: Entry, p: Page): nat {
    (p - e / 4096) % PAGES
  }

  ghost function AllPages(): iset<Page> {
    iset p: Page | Covers(FLUSH_ALL, p)
  }

  ghost predicate CoveredBy(es: seq<Entry>, p: Page) {
    exists k :: 0 <= k < |es| && Covers(es[k], p)
  }

  ghost function Asks(r: Request): iset<Page> {
    match r
    case Everything => AllPages()
    case Ranges(es) => if es == [] then AllPages() else iset p: Page | CoveredBy(es, p)
  }

  ghost predicate Init(s: State) {
    && s.log == [] && s.out == 0 && s.writer == NoWriter && s.reader == Idle
    && !s.requestBit && s.stale == iset{} && s.onLock == iset{} && s.unkicked == [] && s.done == iset{}
    && s.asked == iset{} && s.dropped == iset{}
  }

  function Used(s: State): int {
    |s.log| - s.out
  }

  /** The j-th page of entry e. */
  function PageOf(e: Entry, j: nat): Page {
    (e / 4096 + j) % PAGES
  }

  /** What a writer puts, decided from the space it sees when it looks. */
  function ChoosePut(r: Request, avail: int): Writer {
    if r.Ranges? && 0 < |r.entries| < avail then Chosen(r, r.entries, true) else Chosen(r, [FLUSH_ALL], false)
  }

  /** Invalidated pages are not stale for any hypercall. */
  function Without(sets: seq<iset<Page>>, gone: iset<Page>): (r: seq<iset<Page>>)
    ensures |r| == |sets|
    ensures forall i :: 0 <= i < |r| ==> r[i] == sets[i] - gone
  {
    if sets == [] then [] else Without(sets[..|sets| - 1], gone) + [sets[|sets| - 1] - gone]
  }

  /** These pages have been invalidated. */
  function Invalidate(s: State, gone: iset<Page>): State {
    s.(tlb := s.tlb - gone, stale := s.stale - gone, onLock := s.onLock - gone,
       unkicked := Without(s.unkicked, gone), done := s.done - gone,
       asked := s.asked - gone, dropped := s.dropped - gone)
  }

  ghost predicate Enabled(n: nat, s: State, a: Step) {
    match a
    case Lock(_) => s.writer.NoWriter?
    case Choose => s.writer.Locked?
    case Fit => s.writer.Chosen?
    case Publish => s.writer.Fitted?
    case Kick(i) => i < |s.unkicked|
    case TakeRequest => s.reader.Idle? && s.requestBit
    case Peek => s.reader.Taken? && s.out <= |s.log|
    case Advance => s.reader.Peeked?
    case FlushPage => s.reader.Draining? && s.reader.i < |s.reader.batch| &&
                      s.reader.batch[s.reader.i] != FLUSH_ALL && s.reader.j <= s.reader.batch[s.reader.i] % 4096
    case NextEntry => s.reader.Draining? && s.reader.i < |s.reader.batch| &&
                      s.reader.batch[s.reader.i] != FLUSH_ALL && s.reader.j == s.reader.batch[s.reader.i] % 4096 + 1
    case ReturnOk => s.reader.Draining? && s.reader.i == |s.reader.batch|
    case SeeFlushAll => s.reader.Draining? && s.reader.i < |s.reader.batch| &&
                        s.reader.batch[s.reader.i] == FLUSH_ALL
    case ReadIn => s.reader.ResetRead?
    case WriteOut => s.reader.ResetWrite?
    case StartFullFlush => s.reader.Idle?
    case FullFlush => s.reader.OwesFull?
    case TestPurge => s.reader.Purge?
    case PurgeReadIn => s.reader.PurgeRead?
    case PurgeWriteOut => s.reader.PurgeWrite?
    case RunGuest => s.reader.Idle?
  }

  /** The effect of one atomic step on a FIFO of n elements. */
  ghost function Do(n: nat, s: State, a: Step): State
    requires Enabled(n, s, a)
  {
    match a
    case Lock(r) =>
      s.(writer := Locked(r), asked := s.asked + Asks(r), dropped := s.dropped - Asks(r),
         stale := s.stale + (Asks(r) * s.tlb), onLock := Asks(r) * s.tlb)
    case Choose => s.(writer := ChoosePut(s.writer.request, n - Used(s)))
    case Fit =>
      var room := n - Used(s);
      s.(writer := Fitted(if |s.writer.put| <= room then s.writer.put
                          else if room <= 0 then [] else s.writer.put[..room]))
    case Publish =>
      s.(writer := NoWriter, log := s.log + s.writer.put, onLock := iset{}, unkicked := s.unkicked + [s.onLock])
    case Kick(i) =>
      s.(requestBit := true, done := s.done + s.unkicked[i], unkicked := s.unkicked[..i] + s.unkicked[i + 1..])
    case TakeRequest => s.(requestBit := false, reader := Taken)
    case Peek =>
      s.(reader := Peeked(if Used(s) <= n then s.log[s.out..] else s.log[s.out..s.out + n]))
    case Advance =>
      s.(out := s.out + |s.reader.batch|, reader := Draining(s.reader.batch, 0, 0))
    case FlushPage =>
      var p := PageOf(s.reader.batch[s.reader.i], s.reader.j);
      Invalidate(s.(reader := s.reader.(j := s.reader.j + 1)), iset{p})
    case NextEntry => s.(reader := s.reader.(i := s.reader.i + 1, j := 0))
    case ReturnOk => s.(reader := Idle)
    case SeeFlushAll => s.(reader := ResetRead)
    case ReadIn => s.(reader := ResetWrite(|s.log|))
    case WriteOut => s.(reader := OwesFull, out := s.reader.limit)
    case StartFullFlush => s.(reader := OwesFull)
    case FullFlush => Invalidate(s.(reader := Purge), AllPages())
    case TestPurge => if s.requestBit then s.(reader := PurgeRead, requestBit := false) else s.(reader := Idle)
    case PurgeReadIn => s.(reader := PurgeWrite(|s.log|))
    case PurgeWriteOut =>
      var t := s.(reader := Idle, out := s.reader.limit);
      t.(dropped := s.dropped + iset p | p in s.asked && !Covered(t, p))
    case RunGuest => s.(tlb := AllPages())
  }

  /** states[0] is initial and the k-th step leads from states[k] to states[k + 1]. */
  ghost predicate Run(n: nat, states: seq<State>, steps: seq<Step>) {
    && |states| == |steps| + 1
    && Init(states[0])
    && forall k :: 0 <= k < |steps| ==>
         Enabled(n, states[k], steps[k]) && states[k + 1] == Do(n, states[k], steps[k])
  }

  // ----- what every step keeps -----

  /** "A full FIFO contains flush-all." */
  ghost predicate FullHasFlushAll(n: nat, s: State) {
    && s.out <= |s.log| && Used(s) <= n
    && (Used(s) == n ==> FLUSH_ALL in s.log[s.out..])
  }

  ghost predicate WriterOk(n: nat, s: State) {
    match s.writer
    case NoWriter => true
    case Locked(_) => true
    case Chosen(r, put, whole) =>
      if whole then |put| < n - Used(s) && r.Ranges? && put == r.entries && put != [] else put == [FLUSH_ALL]
    case Fitted(put) => put == [] || (put == [FLUSH_ALL] && Used(s) < n) || |put| < n - Used(s)
  }

  ghost predicate ReaderOk(n: nat, s: State) {
    match s.reader
    case Peeked(batch) => s.out + |batch| <= |s.log| && batch == s.log[s.out..s.out + |batch|]
    case Draining(batch, i, j) => i <= |batch| && (i < |batch| && batch[i] != FLUSH_ALL ==> j <= batch[i] % 4096 + 1)
    case ResetWrite(limit) => s.out <= limit <= |s.log|
    case PurgeWrite(limit) => s.out <= limit <= |s.log| && s.tlb == iset{}
    case Purge => s.tlb == iset{}
    case PurgeRead => s.tlb == iset{}
    case _ => true
  }

  /** A request of p that the lock holder has not published yet. */
  ghost predicate OnWriter(s: State, p: Page) {
    match s.writer
    case NoWriter => false
    case Locked(r) => p in Asks(r)
    case Chosen(r, _, _) => p in Asks(r)
    case Fitted(put) => CoveredBy(put, p)
  }

  /** p is still to be flushed from the batch the reader has taken. */
  ghost predicate InBatch(s: State, p: Page) {
    match s.reader
    case Peeked(batch) => CoveredBy(batch, p)
    case Draining(batch, i, j) =>
      || (i < |batch| && (batch[i] == FLUSH_ALL || (Covers(batch[i], p) && j <= Offset(batch[i], p))))
      || (i < |batch| && CoveredBy(batch[i + 1..], p))
    case _ => false
  }

  ghost predicate FullFlushOwed(s: State) {
    s.reader.ResetRead? || s.reader.ResetWrite? || s.reader.OwesFull?
  }

  /** p is still to be flushed by what has been published. */
  ghost predicate Published(s: State, p: Page) {
    || (s.out <= |s.log| && CoveredBy(s.log[s.out..], p))
    || InBatch(s, p)
    || FullFlushOwed(s)
  }

  ghost predicate Covered(s: State, p: Page) {
    Published(s, p) || OnWriter(s, p)
  }

  /** The log index from which on no reader in progress has claimed the entries. */
  ghost function Unclaimed(s: State): nat {
    match s.reader
    case Taken => |s.log|
    case Peeked(batch) => s.out + |batch|
    case ResetRead => |s.log|
    case ResetWrite(limit) => limit
    case PurgeRead => |s.log|
    case PurgeWrite(limit) => limit
    case _ => s.out
  }

  ghost predicate SomebodyWillLook(s: State) {
    Unclaimed(s) < |s.log| ==> s.requestBit || s.unkicked != []
  }

  ghost predicate StaleCovered(s: State) {
    && (forall p :: p in s.stale ==> p in s.tlb)
    && (forall p :: p in s.stale ==> Covered(s, p))
  }

  ghost predicate AskedCovered(s: State) {
    && (forall p :: p in s.asked ==> p in s.dropped || Covered(s, p))
    && (forall p :: p in s.dropped ==> p in s.asked && p !in s.stale)
  }

  /** p is stale for a hypercall that has not set the request bit. */
  ghost predicate Underway(s: State, p: Page) {
    p in s.onLock || exists i :: 0 <= i < |s.unkicked| && p in s.unkicked[i]
  }

  /** What is stale is stale for some hypercall, and the other way round. */
  ghost predicate Attributed(s: State) {
    && (forall p :: p in s.stale <==> p in s.done || Underway(s, p))
    && (s.writer.NoWriter? ==> s.onLock == iset{})
  }

  ghost predicate UnkickedPublished(s: State) {
    forall i, p :: 0 <= i < |s.unkicked| && p in s.unkicked[i] ==> Published(s, p)
  }

  /** The reader is flushing p or cannot miss it. */
  ghost predicate Attended(s: State, p: Page) {
    s.requestBit || s.reader.Taken? || InBatch(s, p) || FullFlushOwed(s)
  }

  ghost predicate DoneAttended(s: State) {
    forall p :: p in s.done ==> Published(s, p) && Attended(s, p)
  }

  ghost predicate Inv(n: nat, s: State) {
    && FullHasFlushAll(n, s) && WriterOk(n, s) && ReaderOk(n, s)
    && SomebodyWillLook(s) && StaleCovered(s) && AskedCovered(s)
    && Attributed(s) && UnkickedPublished(s) && DoneAttended(s)
  }

  lemma InitInv(n: nat, s: State)
    requires n > 0 && Init(s)
    ensures Inv(n, s)
  {
  }

  lemma StepKeepsFull(n: nat, s: State, a: Step)
    requires n > 0 && Inv(n, s) && Enabled(n, s, a)
    ensures FullHasFlushAll(n, Do(n, s, a))
  {
    if a == Publish {
      var t := Do(n, s, a);
      assert t.log[t.out..] == s.log[s.out..] + s.writer.put;
    }
  }

  lemma {:induction false} StepKeepsWriter(n: nat, s: State, a: Step)
    requires n > 0 && Inv(n, s) && Enabled(n, s, a)
    ensures WriterOk(n, Do(n, s, a)) && SomebodyWillLook(Do(n, s, a))
  {
    hide StaleCovered, AskedCovered, Attributed, UnkickedPublished, DoneAttended, Covers;
  }

  lemma {:induction false} StepKeepsReader(n: nat, s: State, a: Step)
    requires n > 0 && Inv(n, s) && Enabled(n, s, a)
    ensures ReaderOk(n, Do(n, s, a))
  {
    hide StaleCovered, AskedCovered, Attributed, UnkickedPublished, DoneAttended, SomebodyWillLook;
    if a == Publish && s.reader.Peeked? {
      var t := Do(n, s, a);
      var k := |s.reader.batch|;
      assert t.log[t.out..t.out + k] == s.log[s.out..s.out + k];
    }
  }

  lemma CoveredByAppend(a: seq<Entry>, b: seq<Entry>, p: Page)
    ensures CoveredBy(a + b, p) <==> CoveredBy(a, p) || CoveredBy(b, p)
  {
    if k :| 0 <= k < |a| && Covers(a[k], p) {
      assert (a + b)[k] == a[k];
    }
    if k :| 0 <= k < |b| && Covers(b[k], p) {
      assert (a + b)[|a| + k] == b[k];
    }
  }

  lemma FlushAllCovers(es: seq<Entry>, p: Page)
    requires FLUSH_ALL in es
    ensures CoveredBy(es, p)
  {
    var k :| 0 <= k < |es| && es[k] == FLUSH_ALL;
    assert Covers(es[k], p);
  }

  lemma CoveredByHead(es: seq<Entry>, p: Page)
    requires es != [] && CoveredBy(es, p)
    ensures Covers(es[0], p) || CoveredBy(es[1..], p)
  {
    var k :| 0 <= k < |es| && Covers(es[k], p);
    if k > 0 {
      assert es[1..][k - 1] == es[k];
    }
  }

  /** A request is dropped only when the FIFO is full, and then flush-all is in it. */
  lemma {:induction false} FitLosesNothing(n: nat, s: State, p: Page)
    requires n > 0 && Inv(n, s) && s.writer.Chosen? && Covered(s, p)
    ensures Covered(Do(n, s, Fit), p)
  {
    if p in Asks(s.writer.request) {
      if s.writer.put == [FLUSH_ALL] {
        assert Covers(s.writer.put[0], p);
      }
      if |s.writer.put| > n - Used(s) {
        FlushAllCovers(s.log[s.out..], p);
      }
    }
  }

  lemma {:induction false} AdvanceMovesCoverage(n: nat, s: State, p: Page)
    requires n > 0 && Inv(n, s) && s.reader.Peeked? && Published(s, p)
    ensures Published(Do(n, s, Advance), p)
  {
    var batch, t := s.reader.batch, Do(n, s, Advance);
    assert s.log[s.out..] == batch + t.log[t.out..];
    CoveredByAppend(batch, t.log[t.out..], p);
    if CoveredBy(batch, p) {
      CoveredByHead(batch, p);
    }
  }

  lemma {:induction false} NextEntryLosesNothing(n: nat, s: State, p: Page)
    requires n > 0 && Inv(n, s) && Enabled(n, s, NextEntry) && InBatch(s, p)
    ensures InBatch(Do(n, s, NextEntry), p)
  {
    var batch, i := s.reader.batch, s.reader.i;
    if CoveredBy(batch[i + 1..], p) {
      CoveredByHead(batch[i + 1..], p);
      assert batch[i + 1..][1..] == batch[i + 2..];
    }
  }

  /** The pages of an entry have pairwise distinct offsets: one that is not the j-th page and lies
      at or behind it lies strictly behind it. */
  lemma PageNotYetReached(e: Entry, j: nat, p: Page)
    requires j <= e % 4096 && p != PageOf(e, j)
    ensures Offset(e, p) != j
  {
    if Offset(e, p) == j {
      OffsetFindsPage(e, j, p);
    }
  }

  lemma OffsetFindsPage(e: Entry, j: nat, p: Page)
    requires Offset(e, p) == j
    ensures p == PageOf(e, j)
  {
    var b := e / 4096;
    assert p - b == PAGES * ((p - b) / PAGES) + j;
    ModUnique(b + j, p, (p - b) / PAGES);
  }

  lemma ModUnique(x: int, r: nat, q: int)
    requires r < PAGES && r == x + PAGES * q
    ensures x % PAGES == r
  {
  }

  /** Step a does not itself deal with page p. */
  ghost predicate Spares(n: nat, s: State, a: Step, p: Page)
    requires Enabled(n, s, a)
  {
    && a != FullFlush && a != PurgeWriteOut
    && (a == FlushPage ==> p != PageOf(s.reader.batch[s.reader.i], s.reader.j))
  }

  /** What has been published keeps a page covered through every step but the page's invalidation
      and a purge ... */
  lemma {:induction false} PublishedStays(n: nat, s: State, a: Step, p: Page)
    requires n > 0 && Inv(n, s) && Enabled(n, s, a) && Published(s, p) && Spares(n, s, a, p)
    ensures Published(Do(n, s, a), p)
  {
    var t := Do(n, s, a);
    match a
    case Publish =>
      assert t.log[t.out..] == s.log[s.out..] + s.writer.put;
      CoveredByAppend(s.log[s.out..], s.writer.put, p);
    case Peek => assert s.log[s.out..s.out + Used(s)] == s.log[s.out..];
    case Advance => AdvanceMovesCoverage(n, s, p);
    case FlushPage => PageNotYetReached(s.reader.batch[s.reader.i], s.reader.j, p);
    case NextEntry => if InBatch(s, p) { NextEntryLosesNothing(n, s, p); }
    case _ =>
  }

  /** ... and so does the request of the lock holder, until it is published in turn. */
  lemma {:induction false} CoveredStays(n: nat, s: State, a: Step, p: Page)
    requires n > 0 && Inv(n, s) && Enabled(n, s, a) && Covered(s, p) && Spares(n, s, a, p)
    ensures Covered(Do(n, s, a), p)
  {
    if Published(s, p) {
      PublishedStays(n, s, a, p);
    } else if a == Fit {
      FitLosesNothing(n, s, p);
    } else if a == Publish {
      PublishPublishes(n, s, p);
    }
  }

  lemma {:induction false} PublishPublishes(n: nat, s: State, p: Page)
    requires n > 0 && Inv(n, s) && s.writer.Fitted? && OnWriter(s, p)
    ensures Published(Do(n, s, Publish), p)
  {
    var t := Do(n, s, Publish);
    assert t.log[t.out..] == s.log[s.out..] + s.writer.put;
    CoveredByAppend(s.log[s.out..], s.writer.put, p);
  }

  lemma {:induction false} StepKeepsStaleCovered(n: nat, s: State, a: Step)
    requires n > 0 && Inv(n, s) && Enabled(n, s, a)
    ensures StaleCovered(Do(n, s, a))
  {
    var t := Do(n, s, a);
    forall p | p in t.stale ensures Covered(t, p) {
      if p in s.stale {
        CoveredStays(n, s, a, p);
      }
    }
  }

  lemma {:induction false} StepKeepsAskedCovered(n: nat, s: State, a: Step)
    requires n > 0 && Inv(n, s) && Enabled(n, s, a)
    ensures AskedCovered(Do(n, s, a))
  {
    var t := Do(n, s, a);
    forall p | p in t.asked ensures p in t.dropped || Covered(t, p) {
      if p in s.asked && p !in s.dropped && a != PurgeWriteOut {
        CoveredStays(n, s, a, p);
      }
    }
  }

  lemma {:induction false} KickMoves(sets: seq<iset<Page>>, i: nat, p: Page)
    requires i < |sets|
    ensures var rest := sets[..i] + sets[i + 1..];
            (exists k :: 0 <= k < |sets| && p in sets[k]) <==>
            p in sets[i] || exists k :: 0 <= k < |rest| && p in rest[k]
  {
    var rest := sets[..i] + sets[i + 1..];
    if k :| 0 <= k < |sets| && k != i && p in sets[k] {
      assert p in rest[if k < i then k else k - 1];
    }
    if k :| 0 <= k < |rest| && p in rest[k] {
      assert p in sets[if k < i then k else k + 1];
    }
  }

  lemma {:induction false} PublishMoves(sets: seq<iset<Page>>, last: iset<Page>, p: Page)
    ensures var all := sets + [last];
            (exists k :: 0 <= k < |all| && p in all[k]) <==>
            p in last || exists k :: 0 <= k < |sets| && p in sets[k]
  {
    var all := sets + [last];
    assert all[|sets|] == last;
    if k :| 0 <= k < |sets| && p in sets[k] {
      assert p in all[k];
    }
  }

  lemma {:induction false} StepKeepsAttributed(n: nat, s: State, a: Step)
    requires n > 0 && Inv(n, s) && Enabled(n, s, a)
    ensures Attributed(Do(n, s, a))
  {
    var t := Do(n, s, a);
    forall p ensures p in t.stale <==> p in t.done || Underway(t, p) {
      match a
      case Kick(i) => KickMoves(s.unkicked, i, p);
      case Publish => PublishMoves(s.unkicked, s.onLock, p);
      case _ =>
    }
  }

  lemma {:induction false} StepKeepsUnkicked(n: nat, s: State, a: Step)
    requires n > 0 && Inv(n, s) && Enabled(n, s, a)
    ensures UnkickedPublished(Do(n, s, a))
  {
    var t := Do(n, s, a);
    forall i, p | 0 <= i < |t.unkicked| && p in t.unkicked[i] ensures Published(t, p) {
      if a == Publish && i == |s.unkicked| {
        assert p in s.onLock && Underway(s, p);
        if Published(s, p) {
          PublishedStays(n, s, a, p);
        } else {
          PublishPublishes(n, s, p);
        }
      } else {
        var k := if a.Kick? && i >= a.i then i + 1 else i;
        assert p in s.unkicked[k] && Underway(s, p);
        PublishedStays(n, s, a, p);
      }
    }
  }

  lemma {:induction false} AttendedStays(n: nat, s: State, a: Step, p: Page)
    requires n > 0 && Inv(n, s) && Enabled(n, s, a) && Spares(n, s, a, p)
    requires p in s.tlb && Published(s, p) && Attended(s, p)
    ensures Attended(Do(n, s, a), p)
  {
    match a
    case Peek => assert s.log[s.out..s.out + Used(s)] == s.log[s.out..];
    case Advance => if InBatch(s, p) { CoveredByHead(s.reader.batch, p); }
    case FlushPage => PageNotYetReached(s.reader.batch[s.reader.i], s.reader.j, p);
    case NextEntry => if InBatch(s, p) { NextEntryLosesNothing(n, s, p); }
    case _ =>
  }

  lemma {:induction false} StepKeepsDone(n: nat, s: State, a: Step)
    requires n > 0 && Inv(n, s) && Enabled(n, s, a)
    ensures DoneAttended(Do(n, s, a))
  {
    var t := Do(n, s, a);
    forall p | p in t.done ensures Published(t, p) && Attended(t, p) {
      if p in s.done {
        assert p in s.stale;
        PublishedStays(n, s, a, p);
        AttendedStays(n, s, a, p);
      } else {
        PublishedStays(n, s, a, p);
      }
    }
  }

  lemma {:induction false} StepKeepsInv(n: nat, s: State, a: Step)
    requires n > 0 && Inv(n, s) && Enabled(n, s, a)
    ensures Inv(n, Do(n, s, a))
  {
    StepKeepsFull(n, s, a);
    StepKeepsWriter(n, s, a);
    StepKeepsReader(n, s, a);
    StepKeepsStaleCovered(n, s, a);
    StepKeepsAskedCovered(n, s, a);
    StepKeepsAttributed(n, s, a);
    StepKeepsUnkicked(n, s, a);
    StepKeepsDone(n, s, a);
  }

  // ----- theorems over every run -----

  lemma {:induction false} RunInv(n: nat, states: seq<State>, steps: seq<Step>, k: nat)
    requires n > 0 && Run(n, states, steps) && k < |states|
    ensures Inv(n, states[k])
  {
    if k == 0 {
      InitInv(n, states[0]);
    } else {
      RunInv(n, states, steps, k - 1);
      StepKeepsInv(n, states[k - 1], steps[k - 1]);
    }
  }

  /** The comment in hv_tlb_flush_enqueue, and the warning in it that can never fire: on the branch
      that warns, the whole request fits when it is put; and a full FIFO contains flush-all. */
  lemma EnqueueNeverTruncates(n: nat, states: seq<State>, steps: seq<Step>, k: nat)
    requires n > 0 && Run(n, states, steps) && k < |states|
    ensures var s := states[k];
            && Used(s) <= n
            && (Used(s) == n ==> FLUSH_ALL in s.log[s.out..])
            && (s.writer.Chosen? && s.writer.whole ==>
                  s.writer.request.Ranges? && Do(n, s, Fit).writer == Fitted(s.writer.request.entries))
  {
    RunInv(n, states, steps, k);
  }

  /** Every page asked for is invalidated since it was asked for, or a FIFO entry, the lock holder,
      the drained batch or an owed full flush covers it, or a purge that followed a full flush has
      thrown away its last entry; and such a page the TLB does not hold from before the request. */
  lemma NoFlushLost(n: nat, states: seq<State>, steps: seq<Step>, k: nat, p: Page)
    requires n > 0 && Run(n, states, steps) && k < |states| && p in states[k].asked
    ensures Covered(states[k], p) || p in states[k].dropped
    ensures p in states[k].dropped ==> p !in states[k].stale
  {
    RunInv(n, states, steps, k);
  }

  /** With purges too, whatever the TLB still holds from before a request for it is covered. */
  lemma NoStaleTranslationForgotten(n: nat, states: seq<State>, steps: seq<Step>, k: nat, p: Page)
    requires n > 0 && Run(n, states, steps) && k < |states| && p in states[k].stale
    ensures Covered(states[k], p)
  {
    RunInv(n, states, steps, k);
  }

  /** When the guest is entered with the request bit clear, the TLB holds nothing that a completed
      hypercall asked to flush, however many others are between their enqueue and the request bit;
      what is still stale belongs to these and to the lock holder. */
  lemma GuestEntryIsSafe(n: nat, states: seq<State>, steps: seq<Step>, k: nat)
    requires n > 0 && Run(n, states, steps) && k < |states|
    requires states[k].reader.Idle? && !states[k].requestBit
    ensures states[k].done == iset{}
    ensures forall p :: p in states[k].stale ==> Underway(states[k], p)
    ensures states[k].unkicked == [] ==> forall p :: p in states[k].stale ==> OnWriter(states[k], p)
    ensures states[k].unkicked == [] && states[k].writer.NoWriter? ==> states[k].stale == iset{}
  {
    RunInv(n, states, steps, k);
    var s := states[k];
    forall p: Page ensures p !in s.done {
      assert p in s.done ==> Attended(s, p);
    }
    forall p | s.unkicked == [] && p in s.stale ensures OnWriter(s, p) {
      assert Covered(s, p) && s.out == |s.log|;
    }
  }

  // ----- what the history means for the TLB -----

  /** A page leaves the history of requests only when the TLB does not hold it. */
  lemma {:induction false} ForgottenMeansInvalidated(n: nat, s: State, a: Step, p: Page)
    requires Enabled(n, s, a) && p in Do(n, s, a).tlb
    ensures p in s.asked ==> p in Do(n, s, a).asked
    ensures p in s.stale ==> p in Do(n, s, a).stale
    ensures p in s.done ==> p in Do(n, s, a).done
    ensures !a.Publish? && p in s.onLock && !a.Lock? ==> p in Do(n, s, a).onLock
  {
  }

  /** How far the hypercall of one Lock step has come. */
  datatype Stage = HasLock | Enqueued(i: nat) | Kicked

  /** The stage after the step that leads from a state with this many hypercalls before their kick. */
  function NextStage(c: Stage, a: Step, unkicked: nat): Stage {
    match c
    case HasLock => if a == Publish then Enqueued(unkicked) else HasLock
    case Enqueued(i) =>
      if a == Kick(i) then Kicked else if a.Kick? && a.i < i then Enqueued(i - 1) else Enqueued(i)
    case Kicked => Kicked
  }

  /** The stage in states[k] of the hypercall that takes the lock in step j. */
  ghost function StageAt(states: seq<State>, steps: seq<Step>, j: nat, k: nat): Stage
    requires j < k <= |steps| && |states| == |steps| + 1
  {
    if k == j + 1 then HasLock
    else NextStage(StageAt(states, steps, j, k - 1), steps[k - 1], |states[k - 1].unkicked|)
  }

  /** Page p is in the set of stale pages that belongs to a hypercall at this stage. */
  ghost predicate Owed(s: State, c: Stage, p: Page) {
    match c
    case HasLock => !s.writer.NoWriter? && p in s.onLock
    case Enqueued(i) => i < |s.unkicked| && p in s.unkicked[i]
    case Kicked => p in s.done
  }

  lemma {:induction false} OwedUntilInvalidated(n: nat, s: State, a: Step, c: Stage, p: Page)
    requires Enabled(n, s, a) && p in Do(n, s, a).tlb && Owed(s, c, p)
    ensures Owed(Do(n, s, a), NextStage(c, a, |s.unkicked|), p)
  {
  }

  /** The TLB has held page p from states[j] to states[k]. */
  ghost predicate HeldThroughout(states: seq<State>, j: nat, k: nat, p: Page)
    requires k < |states|
  {
    forall i :: j <= i <= k ==> p in states[i].tlb
  }

  /** A translation that was in the TLB when a hypercall asked to flush it, and has been there ever
      since, counts as stale, as asked for, and as owed to that very hypercall. */
  lemma {:induction false} HeldMeansOwed(n: nat, states: seq<State>, steps: seq<Step>, j: nat, k: nat, p: Page)
    requires n > 0 && Run(n, states, steps) && j < k < |states|
    requires steps[j].Lock? && p in Asks(steps[j].request) && HeldThroughout(states, j, k, p)
    ensures p in states[k].stale && p in states[k].asked
    ensures Owed(states[k], StageAt(states, steps, j, k), p)
  {
    assert p in states[j].tlb && p in states[k].tlb;
    assert states[k - 1 + 1] == Do(n, states[k - 1], steps[k - 1]);
    if k > j + 1 {
      HeldMeansOwed(n, states, steps, j, k - 1, p);
      ForgottenMeansInvalidated(n, states[k - 1], steps[k - 1], p);
      OwedUntilInvalidated(n, states[k - 1], steps[k - 1], StageAt(states, steps, j, k - 1), p);
    }
  }

  /** So it is covered by something that will flush it ... */
  lemma {:induction false} HeldMeansCovered(n: nat, states: seq<State>, steps: seq<Step>, j: nat, k: nat, p: Page)
    requires n > 0 && Run(n, states, steps) && j < k < |states|
    requires steps[j].Lock? && p in Asks(steps[j].request) && HeldThroughout(states, j, k, p)
    ensures Covered(states[k], p)
  {
    HeldMeansOwed(n, states, steps, j, k, p);
    NoStaleTranslationForgotten(n, states, steps, k, p);
  }

  /** ... and once that hypercall has set the request bit the guest is not entered with it: if it is
      entered with the bit clear, the TLB has been without each page that was asked for at some
      moment since the hypercall took the lock. */
  lemma {:induction false} RequestIsCarriedOut(n: nat, states: seq<State>, steps: seq<Step>, j: nat, k: nat, p: Page)
    requires n > 0 && Run(n, states, steps) && j < k < |states|
    requires steps[j].Lock? && p in Asks(steps[j].request) && StageAt(states, steps, j, k) == Kicked
    requires states[k].reader.Idle? && !states[k].requestBit
    ensures exists i :: j <= i <= k && p !in states[i].tlb
  {
    if HeldThroughout(states, j, k, p) {
      HeldMeansOwed(n, states, steps, j, k, p);
      GuestEntryIsSafe(n, states, steps, k);
    }
  }

  /** A run that ends in s goes on with any enabled step. */
  lemma Extend(n: nat, states: seq<State>, steps: seq<Step>, s: State, a: Step, t: State)
      returns (states': seq<State>, steps': seq<Step>)
    requires Run(n, states, steps) && states[|states| - 1] == s && Enabled(n, s, a) && t == Do(n, s, a)
    ensures Run(n, states', steps') && states'[|states'| - 1] == t
    ensures states' == states + [t] && steps' == steps + [a]
  {
    states', steps' := states + [t], steps + [a];
    forall k | 0 <= k < |steps'|
      ensures Enabled(n, states'[k], steps'[k]) && states'[k + 1] == Do(n, states'[k], steps'[k])
    {
      if k < |steps| {
        assert states'[k] == states[k] && states'[k + 1] == states[k + 1];
      }
    }
  }

  function Start(): State {
    State([], 0, NoWriter, Idle, false, iset{}, iset{}, iset{}, [], iset{}, iset{}, iset{})
  }

  lemma StartRuns()
    ensures Run(16, [Start()], [])
  {
  }

  /** The window between a full flush and its purge. */
  lemma FullFlushFirst() returns (states: seq<State>, steps: seq<Step>, s: State)
    ensures Run(16, states, steps) && states[|states| - 1] == s == Start().(reader := Purge)
  {
    var s0 := Start();
    states, steps := [s0], [];
    var s1 := s0.(reader := OwesFull);
    states, steps := Extend(16, states, steps, s0, StartFullFlush, s1);
    s := s1.(reader := Purge);
    states, steps := Extend(16, states, steps, s1, FullFlush, s);
  }

  /** A request of the one page 5 made in that window. */
  lemma RequestInWindow() returns (states: seq<State>, steps: seq<Step>, s: State, asked: iset<Page>)
    ensures Run(16, states, steps) && states[|states| - 1] == s
    ensures s == Start().(log := [5 * 4096], reader := Purge, requestBit := true, asked := asked)
    ensures 5 in asked
  {
    var e: Entry := 5 * 4096;
    var r := Ranges([e]);
    var s2;
    states, steps, s2 := FullFlushFirst();
    assert Covers([e][0], 5);
    asked := Asks(r);
    hide Run, Covers, CoveredBy, Asks, AllPages, Covered;
    var s3 := s2.(writer := Locked(r), asked := asked);
    assert Do(16, s2, Lock(r)) == s3 by {
      assert iset{} + asked == asked;
      assert asked * iset{} == iset{} && iset{} + (asked * iset{}) == iset{};
    }
    states, steps := Extend(16, states, steps, s2, Lock(r), s3);
    var s4 := s3.(writer := Chosen(r, [e], true));
    states, steps := Extend(16, states, steps, s3, Choose, s4);
    var s5 := s4.(writer := Fitted([e]));
    states, steps := Extend(16, states, steps, s4, Fit, s5);
    var s6 := s5.(writer := NoWriter, log := [e], unkicked := [iset{}]);
    states, steps := Extend(16, states, steps, s5, Publish, s6);
    s := s6.(unkicked := [], requestBit := true);
    assert Do(16, s6, Kick(0)) == s;
    states, steps := Extend(16, states, steps, s6, Kick(0), s);
  }

  /** Why NoFlushLost speaks of purges: a page asked for between a full flush and its purge is thrown
      away with nothing left to flush it. */
  lemma PurgeForgetsARequest() returns (states: seq<State>, steps: seq<Step>)
    ensures Run(16, states, steps)
    ensures var s := states[|states| - 1]; 5 in s.asked && 5 in s.dropped && !Covered(s, 5) && s.stale == iset{}
  {
    var s7, asked;
    states, steps, s7, asked := RequestInWindow();
    var s8 := s7.(reader := PurgeRead, requestBit := false);
    states, steps := Extend(16, states, steps, s7, TestPurge, s8);
    var s9 := s8.(reader := PurgeWrite(1));
    states, steps := Extend(16, states, steps, s8, PurgeReadIn, s9);
    var s10 := Do(16, s9, PurgeWriteOut);
    assert !Covered(s9.(reader := Idle, out := 1), 5);
    states, steps := Extend(16, states, steps, s9, PurgeWriteOut, s10);
  }

  /** An entry names the pages that its two fields encode, in a space of 2^52 pages. */
  lemma {:induction false} EntryNamesPages(e: Entry, p: Page)
    requires e != FLUSH_ALL
    ensures Covers(e, p) <==> exists j: nat :: j <= e % 4096 && p == PageOf(e, j)
    ensures forall j: nat :: PageOf(e, j) == (e / 4096 + j) % 0x10_0000_0000_0000
  {
    if Covers(e, p) {
      OffsetFindsPage(e, Offset(e, p), p);
    }
    if j: nat :| j <= e % 4096 && p == PageOf(e, j) {
      PageHasOffset(e, j);
    }
  }

  /** What a request asks for: the pages its entries name, and all pages if it has none. */
  lemma {:induction false} RequestNamesPages(es: seq<Entry>, p: Page)
    ensures p in Asks(Everything) && p in Asks(Ranges([]))
    ensures p in Asks(Ranges(es)) <==> es == [] || exists k :: 0 <= k < |es| && (es[k] == FLUSH_ALL || Names(es[k], p))
  {
    if es != [] {
      if k :| 0 <= k < |es| && Covers(es[k], p) {
        assert es[k] == FLUSH_ALL || Names(es[k], p) by { NamesOrAll(es[k], p); }
      }
      if k :| 0 <= k < |es| && (es[k] == FLUSH_ALL || Names(es[k], p)) {
        NamesOrAll(es[k], p);
        assert Covers(es[k], p);
      }
    }
  }

  ghost predicate Names(e: Entry, p: Page) {
    exists j: nat :: j <= e % 4096 && p == PageOf(e, j)
  }

  lemma {:induction false} NamesOrAll(e: Entry, p: Page)
    ensures Covers(e, p) <==> e == FLUSH_ALL || Names(e, p)
  {
    if e != FLUSH_ALL {
      EntryNamesPages(e, p);
    }
  }

  lemma {:induction false} PageHasOffset(e: Entry, j: nat)
    requires j < PAGES
    ensures Offset(e, PageOf(e, j)) == j
  {
    var x := e / 4096 + j;
    assert PageOf(e, j) - e / 4096 == j - PAGES * (x / PAGES);
    ModUnique(j - PAGES * (x / PAGES), j, x / PAGES);
  }

  lemma SetFacts(one: iset<Page>, all: iset<Page>)
    requires one <= all
    ensures iset{} + one == one && one * all == one && iset{} - one == iset{} && one - one == iset{}
  {
  }

  lemma AskOnePage(one: iset<Page>) returns (states: seq<State>, steps: seq<Step>, s: State)
    requires one == Asks(Ranges([5 * 4096])) && one <= AllPages()
    ensures Run(16, states, steps) && states[|states| - 1] == s && |steps| == 2
    ensures s == Start().(writer := Locked(Ranges([5 * 4096])), tlb := AllPages(), stale := one, onLock := one, asked := one)
  {
    var s0, all := Start(), AllPages();
    StartRuns();
    SetFacts(one, all);
    states, steps := [s0], [];
    hide Run, Covers, CoveredBy, Asks, AllPages, Covered;
    var s1 := s0.(tlb := all);
    states, steps := Extend(16, states, steps, s0, RunGuest, s1);
    s := s1.(writer := Locked(Ranges([5 * 4096])), stale := one, onLock := one, asked := one);
    states, steps := Extend(16, states, steps, s1, Lock(Ranges([5 * 4096])), s);
  }

  /** A request for page 5 from the hypercall to its effect. */
  lemma OnePageRequested(one: iset<Page>) returns (states: seq<State>, steps: seq<Step>, s: State)
    requires one == Asks(Ranges([5 * 4096])) && one <= AllPages()
    ensures Run(16, states, steps) && states[|states| - 1] == s && |steps| == 6
    ensures s == Start().(log := [5 * 4096], requestBit := true, tlb := AllPages(), stale := one, done := one, asked := one)
  {
    var e: Entry := 5 * 4096;
    var s2;
    SetFacts(one, AllPages());
    states, steps, s2 := AskOnePage(one);
    hide Run, Covers, CoveredBy, Asks, AllPages, Covered;
    var s3 := s2.(writer := Chosen(Ranges([e]), [e], true));
    states, steps := Extend(16, states, steps, s2, Choose, s3);
    var s4 := s3.(writer := Fitted([e]));
    states, steps := Extend(16, states, steps, s3, Fit, s4);
    var s5 := s4.(writer := NoWriter, log := [e], onLock := iset{}, unkicked := [one]);
    states, steps := Extend(16, states, steps, s4, Publish, s5);
    s := s5.(unkicked := [], requestBit := true, done := one);
    assert Do(16, s5, Kick(0)) == s;
    states, steps := Extend(16, states, steps, s5, Kick(0), s);
  }

  lemma {:induction false} AsksForOne(e: Entry, p: Page)
    requires e == p * 4096
    ensures Asks(Ranges([e])) == iset{p} && p in AllPages()
  {
    forall q: Page ensures Covers(e, q) <==> q == p {
      EntryNamesPages(e, q);
    }
    assert Covers([e][0], p);
  }

  lemma OnePageFlushed() returns (states: seq<State>, steps: seq<Step>)
    ensures Run(16, states, steps) && |steps| == 13
    ensures states[6].requestBit && states[6].done == iset{5} && 5 in states[6].tlb
    ensures 5 !in states[10].tlb
    ensures states[12].reader.Idle? && !states[12].requestBit && states[12].done == iset{}
    ensures 5 in states[13].tlb && states[13].stale == iset{}
  {
    var s6;
    var e: Entry := 5 * 4096;
    AsksForOne(e, 5);
    states, steps, s6 := OnePageRequested(iset{5});
    hide Run, Covers, CoveredBy, Asks, Covered;
    var s7 := s6.(requestBit := false, reader := Taken);
    states, steps := Extend(16, states, steps, s6, TakeRequest, s7);
    var s8 := s7.(reader := Peeked([e]));
    assert [e][0..] == [e];
    states, steps := Extend(16, states, steps, s7, Peek, s8);
    var s9 := s8.(reader := Draining([e], 0, 0), out := 1);
    states, steps := Extend(16, states, steps, s8, Advance, s9);
    var s10 := s9.(reader := Draining([e], 0, 1), tlb := AllPages() - iset{5}, stale := iset{}, done := iset{}, asked := iset{});
    assert Do(16, s9, FlushPage) == s10 by {
      assert PageOf(e, 0) == 5;
      assert iset{5} - iset{5} == iset{} && iset{} - iset{5} == iset{};
    }
    states, steps := Extend(16, states, steps, s9, FlushPage, s10);
    var s11 := s10.(reader := Draining([e], 1, 0));
    states, steps := Extend(16, states, steps, s10, NextEntry, s11);
    var s12 := s11.(reader := Idle);
    states, steps := Extend(16, states, steps, s11, ReturnOk, s12);
    var s13 := s12.(tlb := AllPages());
    states, steps := Extend(16, states, steps, s12, RunGuest, s13);
  }
}
