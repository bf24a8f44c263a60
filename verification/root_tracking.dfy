/** Remote TLB flushes when KVM itself runs on Hyper-V (host/kvm/kvm_onhyperv.c:37-123;
    x86.c:12175, 12598-12599).

    A flush hypercall names the root of one set of page tables.  As long as all vCPUs are known to use
    one root it is enough to flush that one; a flush without that knowledge visits them all and finds
    out.  Both operations run under the root lock; what the hypercalls return is a parameter. */
module RootTracking {

  const INVALID_PAGE: nat := 0xFFFF_FFFF_FFFF_FFFF

  /** r is the one valid root in use. */
  ghost predicate IsCommon(roots: seq<nat>, r: nat) {
    r != INVALID_PAGE && r in roots && forall i :: 0 <= i < |roots| && roots[i] != INVALID_PAGE ==> roots[i] == r
  }

  /** There is at most one common root. */
  lemma CommonIsUnique(roots: seq<nat>, r: nat, r': nat)
    requires IsCommon(roots, r) && IsCommon(roots, r')
    ensures r == r'
  {
    var i :| 0 <= i < |roots| && roots[i] == r;
  }

  class Kvm {
    const hooked: bool           // kvm_x86_ops.flush_remote_tlbs is hv_flush_remote_tlbs
    var rootTdp: nat             // kvm_arch.hv_root_tdp
    var roots: seq<nat>          // every vCPU's hv_root_tdp

    /** The tracked root is the common root, if it is valid at all. */
    ghost predicate Valid()
      reads this
    {
      rootTdp != INVALID_PAGE ==> IsCommon(roots, rootTdp)
    }

    constructor (hooked: bool)
      ensures Valid() && this.hooked == hooked && roots == []
    {
      this.hooked, rootTdp, roots := hooked, INVALID_PAGE, [];
    }

    method CreateVcpu()
      requires Valid()
      modifies `roots
      ensures Valid() && roots == old(roots) + [INVALID_PAGE]
    {
      roots := roots + [INVALID_PAGE];
    }

    /** hv_track_root_tdp */
    method TrackRoot(i: nat, root: nat)
      requires Valid() && i < |roots|
      modifies this
      ensures Valid()
      ensures roots == if hooked then old(roots)[i := root] else old(roots)
      ensures rootTdp == if hooked && root != old(rootTdp) then INVALID_PAGE else old(rootTdp)
    {
      if hooked {
        roots := roots[i := root];
        if root != rootTdp {
          rootTdp := INVALID_PAGE;
        }
        assert rootTdp != INVALID_PAGE ==> roots[i] == rootTdp;
      }
    }

    /** __hv_flush_remote_tlbs_range; host(k) is what the k-th hypercall returns.  Success means that
        every valid root any vCPU has was flushed; whatever the hypercalls return, the tracked root
        becomes the common root if there is one; and with a tracked root there is one hypercall. */
    method FlushRemoteTlbs(host: nat -> int) returns (ret: int, ghost flushed: set<nat>, calls: nat)
      requires Valid()
      modifies `rootTdp
      ensures Valid()
      ensures ret == 0 ==> forall i :: 0 <= i < |roots| && roots[i] != INVALID_PAGE ==> roots[i] in flushed
      ensures ret != 0 ==> exists k: nat :: k < calls && ret == host(k)
      ensures forall r :: r in flushed ==> r in roots && r != INVALID_PAGE
      ensures forall r: nat :: IsCommon(roots, r) ==> rootTdp == r
      ensures old(rootTdp) != INVALID_PAGE ==> calls == 1
    {
      ret, flushed, calls := 0, {}, 0;
      if rootTdp != INVALID_PAGE {
        ret, flushed, calls := host(0), if host(0) == 0 then {rootTdp} else {}, 1;
        forall r: nat | IsCommon(roots, r) ensures r == rootTdp {
          CommonIsUnique(roots, r, rootTdp);
        }
        return;
      }
      var unique, i := 0, 0;
      while i < |roots|
        invariant 0 <= i <= |roots|
        invariant Seen(i, unique)
        invariant ret == 0 ==> forall j :: 0 <= j < i && roots[j] != INVALID_PAGE ==> roots[j] in flushed
        invariant ret != 0 ==> exists k: nat :: k < calls && ret == host(k)
        invariant forall r :: r in flushed ==> r in roots && r != INVALID_PAGE
      {
        var root := roots[i];
        if root != INVALID_PAGE && root != rootTdp {
          unique := unique + 1;
          if unique == 1 {
            rootTdp := root;
          }
          if ret == 0 {
            ret := host(calls);
            flushed := if ret == 0 then flushed + {root} else flushed;
            calls := calls + 1;
          }
          if ret != 0 && unique > 1 {
            break;
          }
        }
        i := i + 1;
      }
      if unique > 1 {
        rootTdp := INVALID_PAGE;
      }
    }

    /** What the loop knows after i vCPUs: the first valid root, and whether a second one was met. */
    ghost predicate Seen(i: int, unique: nat)
      reads this
      requires 0 <= i <= |roots|
    {
      && (unique == 0 <==> rootTdp == INVALID_PAGE)
      && (unique == 0 ==> forall j :: 0 <= j < i ==> roots[j] == INVALID_PAGE)
      && (unique > 0 ==> rootTdp in roots[..i])
      && (unique == 1 ==> IsCommon(roots[..i], rootTdp))
      && (unique > 1 ==> exists j :: 0 <= j < i && roots[j] != INVALID_PAGE && roots[j] != rootTdp)
    }
  }
}
