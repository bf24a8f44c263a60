/** Packed sparse sets of virtual processors and the vCPUs they select
    (host/kvm/hyperv.c:981, 1464-1475, 1526-1549, 1792-1928, 2001-2299; hyperv.h:94-99).

    The guest sends a mask of the 64-processor banks it names and, packed in ascending order, only
    these banks.  Guest memory reads are outcomes given as parameters; calls are taken one at a time. */
module SparseSet {
  import opened Bits
  import opened Wrappers

  datatype Status = Success | InvalidInput

  const MAX_BANKS: nat := 64       // HV_MAX_SPARSE_VCPU_BANKS
  const XMM_REGISTERS: nat := 6    // HV_HYPERCALL_MAX_XMM_REGISTERS

  // ----- the set a guest sends -----

  /** What the packed encoding means: the processor's bank is there, and in it the bit is set. */
  predicate Listed(vp: nat, mask: nat, banks: seq<nat>) {
    && Bit(mask, vp / 64)
    && Rank(mask, vp / 64) < |banks|
    && Bit(banks[Rank(mask, vp / 64)], vp % 64)
  }

  /** hv_is_vp_in_sparse_set */
  predicate IsVpInSparseSet(vp: nat, mask: nat, sparseBanks: seq<nat>)
    requires vp / 64 < |sparseBanks|
  {
    RankBound(mask, vp / 64);
    if !Bit(mask, vp / 64) then false
    else
      var sbank := if vp / 64 != 0 then Weight(LowBits(mask, vp / 64)) else 0;
      Bit(sparseBanks[sbank], vp % 64)
  }

  /** The buffer may hold more than the guest sent, and old contents after it: with a legal mask the
      test reads only what was sent, and so finds what the guest meant. */
  lemma TestReadsOnlyWhatWasSent(vp: nat, mask: nat, banks: seq<nat>, cap: nat, sparseBanks: seq<nat>)
    requires vp / 64 < cap <= |sparseBanks| && |banks| == Weight(mask)
    requires var n := if |banks| < cap then |banks| else cap; sparseBanks[..n] == banks[..n]
    ensures IsVpInSparseSet(vp, mask, sparseBanks) <==> Listed(vp, mask, banks)
  {
    var n := if |banks| < cap then |banks| else cap;
    RankBound(mask, vp / 64);
    if Bit(mask, vp / 64) {
      assert sparseBanks[..n][Rank(mask, vp / 64)] == banks[..n][Rank(mask, vp / 64)];
    }
  }

  // ----- packing -----

  function PackedMask(words: seq<nat>): nat {
    if words == [] then 0
    else
      var n := |words| - 1;
      if words[n] == 0 then PackedMask(words[..n]) else SetBit(PackedMask(words[..n]), n)
  }

  function PackedBanks(words: seq<nat>): seq<nat> {
    if words == [] then []
    else
      var n := |words| - 1;
      if words[n] == 0 then PackedBanks(words[..n]) else PackedBanks(words[..n]) + [words[n]]
  }

  lemma {:induction false} PackedMaskBits(words: seq<nat>, k: nat)
    ensures Bit(PackedMask(words), k) <==> k < |words| && words[k] != 0
  {
    if words == [] {
      ZeroHasNoBits(k);
    } else {
      PackedMaskBits(words[..|words| - 1], k);
      SetBitSets(PackedMask(words[..|words| - 1]), |words| - 1, k);
    }
  }

  lemma {:induction false} PackedRank(words: seq<nat>, k: nat)
    requires k <= |words|
    ensures Rank(PackedMask(words), k) == |PackedBanks(words[..k])|
  {
    if k > 0 {
      PackedRank(words, k - 1);
      RankStep(PackedMask(words), k - 1);
      PackedMaskBits(words, k - 1);
      assert words[..k][..k - 1] == words[..k - 1];
    }
  }

  lemma {:induction false} PackedBankAt(words: seq<nat>, k: nat)
    requires k < |words| && words[k] != 0
    ensures |PackedBanks(words[..k])| < |PackedBanks(words)|
    ensures PackedBanks(words)[|PackedBanks(words[..k])|] == words[k]
  {
    var n := |words| - 1;
    if k < n {
      assert words[..n][..k] == words[..k];
      PackedBankAt(words[..n], k);
    }
  }

  /** Packing loses nothing: the mask has as many bits as banks were sent, and the processors the
      packed set lists are those of the set that was packed. */
  lemma PackRoundTrip(words: seq<nat>, vp: nat)
    ensures Weight(PackedMask(words)) == |PackedBanks(words)|
    ensures Listed(vp, PackedMask(words), PackedBanks(words)) <==> BitAt(words, vp)
  {
    var mask, b := PackedMask(words), vp / 64;
    PackedRank(words, |words|);
    assert words[..|words|] == words;
    forall k: nat ensures Bit(LowBits(mask, |words|), k) <==> Bit(mask, k) {
      LowBitsKeep(mask, |words|, k);
      PackedMaskBits(words, k);
    }
    SameBits(LowBits(mask, |words|), mask);
    PackedMaskBits(words, b);
    if b < |words| {
      PackedRank(words, b);
      if words[b] != 0 {
        PackedBankAt(words, b);
      } else {
        ZeroHasNoBits(vp % 64);
      }
    }
  }

  // ----- the vCPUs -----

  /** The VP index of vCPU i: hv[i] is its Hyper-V context, if it has one. */
  function VpIndex(hv: seq<Option<nat>>, i: nat): nat
    requires i < |hv|
  {
    match hv[i] case Some(v) => v case None => i
  }

  /** How many vCPUs have an index of their own that is not their number. */
  function Mismatches(hv: seq<Option<nat>>): nat {
    if hv == [] then 0
    else Mismatches(hv[..|hv| - 1]) + if VpIndex(hv, |hv| - 1) == |hv| - 1 then 0 else 1
  }

  lemma {:induction false} MismatchesUpdate(hv: seq<Option<nat>>, i: nat, v: Option<nat>)
    requires i < |hv|
    ensures Mismatches(hv[i := v]) == Mismatches(hv)
              - (if VpIndex(hv, i) == i then 0 else 1) + (if VpIndex(hv[i := v], i) == i then 0 else 1)
  {
    var n := |hv| - 1;
    if i < n {
      assert hv[i := v][..n] == hv[..n][i := v];
      MismatchesUpdate(hv[..n], i, v);
    } else {
      assert hv[i := v][..n] == hv[..n];
    }
  }

  lemma {:induction false} NoMismatch(hv: seq<Option<nat>>)
    ensures Mismatches(hv) == 0 <==> forall i: nat :: i < |hv| ==> VpIndex(hv, i) == i
  {
    if hv != [] {
      var n := |hv| - 1;
      NoMismatch(hv[..n]);
      assert forall i: nat :: i < n ==> VpIndex(hv[..n], i) == VpIndex(hv, i);
    }
  }

  /** The parameters of one hypercall. */
  datatype Hypercall = Hypercall(
    fast: bool,
    varCnt: nat,
    xmm: seq<(nat, nat)>,            // low and high halves of the XMM registers
    memory: Option<seq<nat>>)        // what reading guest memory yields, if it does not fault

  /** The registers as one row of halves. */
  function Half(xmm: seq<(nat, nat)>, j: nat): nat
    requires j < 2 * |xmm|
  {
    if j % 2 == 1 then xmm[j / 2].1 else xmm[j / 2].0
  }

  predicate ValidHypercall(h: Hypercall) {
    |h.xmm| == XMM_REGISTERS && (h.memory.Some? ==> |h.memory.value| >= h.varCnt)
  }

  /** The guest's banks can be read: consumed halves are taken by the fixed parameters. */
  predicate Readable(h: Hypercall, consumed: nat) {
    if h.fast then h.varCnt <= 2 * XMM_REGISTERS - consumed else h.memory.Some?
  }

  /** The banks the guest sent. */
  function SentBanks(h: Hypercall, consumed: nat): (banks: seq<nat>)
    requires ValidHypercall(h) && Readable(h, consumed)
    ensures |banks| == h.varCnt
  {
    if h.fast then seq<nat>(h.varCnt, k requires 0 <= k < h.varCnt => Half(h.xmm, consumed + k))
    else h.memory.value[..h.varCnt]
  }

  class Vm {
    const maxVcpus: nat                // KVM_MAX_VCPUS
    const sparseBanks: array<nat>      // the calling vCPU's buffer
    var hv: seq<Option<nat>>
    var mismatched: nat                // num_mismatched_vp_indexes

    predicate Valid()
      reads this
    {
      && 0 < maxVcpus <= 64 * MAX_BANKS && |hv| <= maxVcpus
      && sparseBanks.Length == MAX_BANKS
      && (forall i: nat :: i < |hv| ==> VpIndex(hv, i) < maxVcpus)
      && mismatched == Mismatches(hv)
    }

    /** KVM_HV_MAX_SPARSE_VCPU_SET_BITS */
    function Banks(): nat {
      (maxVcpus + 63) / 64
    }

    /** A vCPU is added; it has no Hyper-V context yet. */
    method CreateVcpu()
      requires Valid() && |hv| < maxVcpus
      modifies `hv
      ensures Valid() && hv == old(hv) + [None]
    {
      hv := hv + [None];
      assert hv[..|hv| - 1] == old(hv);
      assert forall i: nat :: i < |hv| - 1 ==> VpIndex(hv, i) == VpIndex(old(hv), i);
    }

    /** kvm_hv_vcpu_init: no VP index changes. */
    method InitContext(i: nat)
      requires Valid() && i < |hv|
      modifies `hv
      ensures Valid() && hv == old(hv)[i := Some(VpIndex(old(hv), i))]
    {
      if hv[i].Some? {
        return;
      }
      MismatchesUpdate(hv, i, Some(i));
      hv := hv[i := Some(i)];
      assert forall k: nat :: k < |hv| ==> VpIndex(hv, k) == VpIndex(old(hv), k);
    }

    /** A write of HV_X64_MSR_VP_INDEX: result 1 refuses it.  The counter stays exact (Valid). */
    method SetVpIndex(i: nat, data: nat, host: bool) returns (r: int)
      requires Valid() && i < |hv|
      modifies `hv, `mismatched
      ensures Valid()
      ensures r == if host && data % 0x1_0000_0000 < maxVcpus then 0 else 1
      ensures hv == old(hv)[i := Some(if r == 0 then data % 0x1_0000_0000 else VpIndex(old(hv), i))]
    {
      InitContext(i);
      var newIndex := data % 0x1_0000_0000;
      if !host || newIndex >= maxVcpus {
        return 1;
      }
      if newIndex == hv[i].value {
        return 0;
      }
      MismatchesUpdate(hv, i, Some(newIndex));
      if hv[i].value == i {
        mismatched := mismatched + 1;
      } else if newIndex == i {
        mismatched := mismatched - 1;
      }
      label L:
      hv := hv[i := Some(newIndex)];
      assert forall k: nat :: k < |hv| && k != i ==> VpIndex(hv, k) == VpIndex(old@L(hv), k);
      return 0;
    }

    /** Spreads the packed banks over a bitmap. */
    method Unpack(mask: nat, bitmap: array<nat>)
      requires Valid() && bitmap.Length == Banks() && bitmap != sparseBanks
      modifies bitmap
      ensures forall vp: nat :: vp < maxVcpus ==>
                (BitAt(bitmap[..], vp) <==> IsVpInSparseSet(vp, mask, sparseBanks[..]))
    {
      for k := 0 to bitmap.Length
        invariant forall b :: 0 <= b < k ==> bitmap[b] == 0
      {
        bitmap[k] := 0;
      }
      var sbank := 0;
      for bank := 0 to Banks()
        invariant sbank == Rank(mask, bank) <= bank
        invariant forall b: nat :: b < bank && Bit(mask, b) ==>
                    Rank(mask, b) < MAX_BANKS && bitmap[b] == sparseBanks[Rank(mask, b)]
        invariant forall b: nat :: b < Banks() && (b < bank ==> !Bit(mask, b)) ==> bitmap[b] == 0
      {
        RankStep(mask, bank);
        RankBound(mask, bank);
        if Bit(mask, bank) {
          bitmap[bank] := sparseBanks[sbank];
          sbank := sbank + 1;
        }
      }
      forall vp: nat | vp < maxVcpus
        ensures BitAt(bitmap[..], vp) <==> IsVpInSparseSet(vp, mask, sparseBanks[..])
      {
        ZeroHasNoBits(vp % 64);
        assert vp / 64 < Banks();
      }
    }

    /** sparse_set_to_vcpu_mask: on both paths bit i of the result is set exactly if the membership
        test holds for the VP index of vCPU i. */
    method SparseSetToVcpuMask(mask: nat, vcpuMask: array<nat>)
      requires Valid() && vcpuMask.Length == Banks() && vcpuMask != sparseBanks
      modifies vcpuMask
      ensures forall i: nat :: i < |hv| ==>
                (BitAt(vcpuMask[..], i) <==> IsVpInSparseSet(VpIndex(hv, i), mask, sparseBanks[..]))
    {
      NoMismatch(hv);
      if mismatched == 0 {
        Unpack(mask, vcpuMask);
        return;
      }
      ghost var banks := sparseBanks[..];
      var vpBitmap := new nat[Banks()];
      Unpack(mask, vpBitmap);
      ghost var words := vpBitmap[..];
      assert sparseBanks[..] == banks;
      for k := 0 to vcpuMask.Length
        invariant vpBitmap[..] == words
        invariant forall b :: 0 <= b < k ==> vcpuMask[b] == 0
      {
        vcpuMask[k] := 0;
      }
      forall k: nat ensures !BitAt(vcpuMask[..], k) {
        ZeroHasNoBits(k % 64);
      }
      for i := 0 to |hv|
        invariant vpBitmap[..] == words
        invariant forall k: nat :: BitAt(vcpuMask[..], k) <==> k < i && BitAt(words, VpIndex(hv, k))
      {
        if BitAt(vpBitmap[..], VpIndex(hv, i)) {
          ghost var before := vcpuMask[..];
          vcpuMask[i / 64] := SetBit(vcpuMask[i / 64], i % 64);
          forall k: nat ensures BitAt(vcpuMask[..], k) <==> k == i || BitAt(before, k) {
            SetBitAt(before, i, k);
          }
        }
      }
      assert sparseBanks[..] == banks;
    }

    /** kvm_get_sparse_vp_set and kvm_hv_get_hc_data */
    method GetSparseVpSet(h: Hypercall, consumed: nat) returns (status: Status)
      requires Valid() && ValidHypercall(h)
      modifies sparseBanks
      ensures status == if h.varCnt <= MAX_BANKS && Readable(h, consumed) then Success else InvalidInput
      ensures status == Success ==>
                var n := if h.varCnt < Banks() then h.varCnt else Banks();
                sparseBanks[..n] == SentBanks(h, consumed)[..n]
    {
      if h.varCnt > MAX_BANKS {
        return InvalidInput;
      }
      var n := if h.varCnt < Banks() then h.varCnt else Banks();
      if h.fast {
        if h.varCnt > 2 * XMM_REGISTERS - consumed {
          return InvalidInput;
        }
        ghost var sent := SentBanks(h, consumed);
        for k := 0 to n
          invariant sparseBanks[..k] == sent[..k]
        {
          var j := k + consumed;
          assert sent[k] == Half(h.xmm, consumed + k) == Half(h.xmm, j);
          sparseBanks[k] := if j % 2 == 1 then h.xmm[j / 2].1 else h.xmm[j / 2].0;
        }
      } else {
        if h.memory.None? {
          return InvalidInput;
        }
        for k := 0 to n
          invariant sparseBanks[..k] == SentBanks(h, consumed)[..k]
        {
          sparseBanks[k] := h.memory.value[k];
        }
      }
      return Success;
    }

    /** Whom a hypercall with this set addresses. */
    predicate Addressed(i: nat, all: bool, h: Hypercall, consumed: nat, mask: nat)
      requires ValidHypercall(h) && i < |hv|
      reads this
    {
      all || (Readable(h, consumed) && Listed(VpIndex(hv, i), mask, SentBanks(h, consumed)))
    }

    /** Which of its errors such a hypercall has: the count does not match the mask, or the banks that
        are needed cannot be read. */
    predicate Refused(all: bool, h: Hypercall, consumed: nat, mask: nat) {
      h.varCnt != Weight(mask) || (!all && h.varCnt > 0 && (h.varCnt > MAX_BANKS || !Readable(h, consumed)))
    }

    /** The targets of HVCALL_FLUSH_VIRTUAL_ADDRESS_{LIST,SPACE}_EX outside guest mode: every vCPU the
        guest's set lists gets the flush, in ascending order, and no other. */
    method FlushTargets(all: bool, h: Hypercall, mask: nat) returns (status: Status, targets: seq<nat>)
      requires Valid() && ValidHypercall(h)
      modifies sparseBanks
      ensures status == if Refused(all, h, 2, mask) then InvalidInput else Success
      ensures forall i: nat :: i in targets <==> status == Success && i < |hv| && Addressed(i, all, h, 2, mask)
      ensures forall j, k :: 0 <= j < k < |targets| ==> targets[j] < targets[k]
    {
      targets := [];
      if h.varCnt != Weight(mask) {
        return InvalidInput, [];
      }
      if !all {
        if h.varCnt == 0 {
          NothingListed(h, mask);
          return Success, [];
        }
        status := GetSparseVpSet(h, 2);
        if status == InvalidInput {
          return;
        }
      }
      if all {
        for i := 0 to |hv|
          invariant forall k: nat :: k in targets <==> k < i
          invariant forall k :: 0 <= k < |targets| ==> targets[k] < i
          invariant forall j, k :: 0 <= j < k < |targets| ==> targets[j] < targets[k]
        {
          targets := targets + [i];
        }
        return Success, targets;
      }
      var vcpuMask := new nat[Banks()];
      SparseSetToVcpuMask(mask, vcpuMask);
      forall i: nat | i < |hv| ensures BitAt(vcpuMask[..], i) <==> Addressed(i, all, h, 2, mask) {
        TestReadsOnlyWhatWasSent(VpIndex(hv, i), mask, SentBanks(h, 2), Banks(), sparseBanks[..]);
      }
      for i := 0 to maxVcpus
        invariant forall k: nat :: k in targets <==> k < i && k < |hv| && BitAt(vcpuMask[..], k)
        invariant forall k :: 0 <= k < |targets| ==> targets[k] < i
        invariant forall j, k :: 0 <= j < k < |targets| ==> targets[j] < targets[k]
      {
        if BitAt(vcpuMask[..], i) && i < |hv| {
          targets := targets + [i];
        }
      }
      return Success, targets;
    }

    lemma NothingListed(h: Hypercall, mask: nat)
      requires ValidHypercall(h) && h.varCnt == 0 == Weight(mask)
      ensures forall i: nat :: i < |hv| ==> !Addressed(i, false, h, 2, mask)
    {
    }

    /** The targets of HVCALL_SEND_IPI_EX, by the membership test alone. */
    method IpiTargets(all: bool, h: Hypercall, mask: nat) returns (status: Status, targets: seq<nat>)
      requires Valid() && ValidHypercall(h)
      modifies sparseBanks
      ensures status == if Refused(all, h, 1, mask) then InvalidInput else Success
      ensures forall i: nat :: i in targets <==> status == Success && i < |hv| && Addressed(i, all, h, 1, mask)
      ensures forall j, k :: 0 <= j < k < |targets| ==> targets[j] < targets[k]
    {
      targets := [];
      if h.varCnt != Weight(mask) {
        return InvalidInput, [];
      }
      if !all {
        if h.varCnt == 0 {
          return Success, [];
        }
        status := GetSparseVpSet(h, 1);
        if status == InvalidInput {
          return;
        }
      }
      ghost var words := sparseBanks[..];
      for i := 0 to |hv|
        invariant sparseBanks[..] == words
        invariant forall k: nat :: k in targets <==> k < i && Addressed(k, all, h, 1, mask)
        invariant forall k :: 0 <= k < |targets| ==> targets[k] < i
        invariant forall j, k :: 0 <= j < k < |targets| ==> targets[j] < targets[k]
      {
        if !all {
          TestReadsOnlyWhatWasSent(VpIndex(hv, i), mask, SentBanks(h, 1), Banks(), words);
        }
        if all || IsVpInSparseSet(VpIndex(hv, i), mask, sparseBanks[..]) {
          targets := targets + [i];
        }
      }
      return Success, targets;
    }
  }
}
