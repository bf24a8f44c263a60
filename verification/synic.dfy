/** The synthetic interrupt controller's vector bitmaps (host/kvm/hyperv.c:66-188, 556-566).

    Each vCPU has 16 SINT registers.  Fast paths do not scan them: they look into bitmaps of the
    vectors in use and of the vectors with automatic EOI; the virtual machine counts the vCPUs that
    use automatic EOI.  Writes are taken one at a time. */
module Synic {
  import opened Arith

  const SINTS: nat := 16
  const FIRST_VALID_VECTOR: nat := 16
  const MASKED: nat := 0x1_0000      // HV_SYNIC_SINT_MASKED

  function Vector(value: nat): nat {
    value % 256
  }

  predicate IsMasked(value: nat) {
    value / 0x1_0000 % 2 == 1
  }

  predicate AutoEoi(value: nat) {
    value / 0x2_0000 % 2 == 1
  }

  /** The layout of a register: the vector in the low byte, bit 16 masks it, bit 17 asks for automatic
      end of interrupt, and the rest does not matter here. */
  lemma {:induction false} RegisterLayout(vector: nat, low: nat, masked: bool, autoEoi: bool, high: nat)
    requires vector < 256 && low < 256
    ensures var value := vector + 0x100 * low + (if masked then 0x1_0000 else 0)
                         + (if autoEoi then 0x2_0000 else 0) + 0x4_0000 * high;
            Vector(value) == vector && IsMasked(value) == masked && AutoEoi(value) == autoEoi
  {
    var m, a := if masked then 1 else 0, if autoEoi then 1 else 0;
    var value := vector + 0x100 * low + 0x1_0000 * m + 0x2_0000 * a + 0x4_0000 * high;
    ModIs(value, low + 0x100 * m + 0x200 * a + 0x400 * high, vector, 256);
    ModIs(value, m + 2 * a + 4 * high, vector + 0x100 * low, 0x1_0000);
    ModIs(m + 2 * a + 4 * high, a + 2 * high, m, 2);
    ModIs(value, a + 2 * high, vector + 0x100 * low + 0x1_0000 * m, 0x2_0000);
    ModIs(a + 2 * high, high, a, 2);
  }

  /** Some register delivers this vector. */
  predicate Connected(sint: seq<nat>, vector: nat) {
    exists i :: 0 <= i < |sint| && Delivers(sint[i], vector)
  }

  predicate ConnectedAutoEoi(sint: seq<nat>, vector: nat) {
    exists i :: 0 <= i < |sint| && DeliversAutoEoi(sint[i], vector)
  }

  predicate Delivers(value: nat, vector: nat) {
    !IsMasked(value) && Vector(value) == vector
  }

  predicate DeliversAutoEoi(value: nat, vector: nat) {
    Delivers(value, vector) && AutoEoi(value)
  }

  /** The vectors a scan of the registers finds, without the invalid ones. */
  function VectorsOf(sint: seq<nat>): set<nat> {
    set v | FIRST_VALID_VECTOR <= v < 256 && Connected(sint, v)
  }

  function AutoEoiVectorsOf(sint: seq<nat>): set<nat> {
    set v | FIRST_VALID_VECTOR <= v < 256 && ConnectedAutoEoi(sint, v)
  }

  /** The bitmap answers for every vector, valid or not, exactly if no register delivers an invalid
      one; only the host can set up such a register. */
  lemma BitmapIsComplete(sint: seq<nat>)
    ensures (forall v: nat :: v in VectorsOf(sint) <==> Connected(sint, v))
       <==> (forall i :: 0 <= i < |sint| && !IsMasked(sint[i]) ==> Vector(sint[i]) >= FIRST_VALID_VECTOR)
  {
    if i :| 0 <= i < |sint| && !IsMasked(sint[i]) && Vector(sint[i]) < FIRST_VALID_VECTOR {
      assert Delivers(sint[i], Vector(sint[i]));
      assert Connected(sint, Vector(sint[i])) && Vector(sint[i]) !in VectorsOf(sint);
    }
  }

  /** A write changes the answer for no other vector than the old one and the new one. */
  lemma OtherVectorsStay(sint: seq<nat>, n: nat, data: nat, v: nat)
    requires n < |sint| && v != Vector(sint[n]) && v != Vector(data)
    ensures Connected(sint[n := data], v) == Connected(sint, v)
    ensures ConnectedAutoEoi(sint[n := data], v) == ConnectedAutoEoi(sint, v)
  {
    var after := sint[n := data];
    assert forall i :: 0 <= i < |sint| && i != n ==> after[i] == sint[i];
    if i :| 0 <= i < |sint| && Delivers(sint[i], v) {
      assert Delivers(after[i], v);
    }
    if i :| 0 <= i < |sint| && DeliversAutoEoi(sint[i], v) {
      assert DeliversAutoEoi(after[i], v);
    }
  }

  /** An invalid vector may be written by the host, or masked. */
  predicate Rejected(data: nat, host: bool) {
    Vector(data) < FIRST_VALID_VECTOR && !host && !IsMasked(data)
  }

  function Count(inUse: seq<bool>): nat {
    if inUse == [] then 0
    else Count(inUse[..|inUse| - 1]) + if inUse[|inUse| - 1] then 1 else 0
  }

  lemma {:induction false} CountUpdate(inUse: seq<bool>, k: nat, b: bool)
    requires k < |inUse|
    ensures Count(inUse[k := b]) == Count(inUse) - (if inUse[k] then 1 else 0) + (if b then 1 else 0)
  {
    var n := |inUse| - 1;
    if k < n {
      assert inUse[k := b][..n] == inUse[..n][k := b];
      CountUpdate(inUse[..n], k, b);
    } else {
      assert inUse[k := b][..n] == inUse[..n];
    }
  }

  lemma {:induction false} CountZero(inUse: seq<bool>)
    ensures Count(inUse) == 0 <==> forall k :: 0 <= k < |inUse| ==> !inUse[k]
  {
    if inUse != [] {
      CountZero(inUse[..|inUse| - 1]);
    }
  }

  /** struct kvm_vcpu_hv_synic */
  class VcpuSynic {
    const sint: array<nat>
    var vecBitmap: set<nat>
    var autoEoiBitmap: set<nat>
    var scanIoapic: bool             // KVM_REQ_SCAN_IOAPIC

    /** synic_init */
    constructor ()
      ensures fresh(sint) && Agrees()
      ensures sint[..] == seq(SINTS, _ => MASKED)
      ensures autoEoiBitmap == {}
    {
      sint := new nat[SINTS](_ => MASKED);
      vecBitmap, autoEoiBitmap, scanIoapic := {}, {}, false;
      new;
      assert sint[..] == seq(SINTS, _ => MASKED);
    }

    /** The bitmaps say what a scan of the registers says. */
    ghost predicate Agrees()
      reads this, sint
    {
      sint.Length == SINTS && vecBitmap == VectorsOf(sint[..]) && autoEoiBitmap == AutoEoiVectorsOf(sint[..])
    }

    /** synic_get_sint_vector: -1 for a masked register. */
    method SintVector(value: nat) returns (r: int)
      ensures r == if IsMasked(value) then -1 else Vector(value)
      ensures forall v: nat :: r == v <==> Delivers(value, v)
    {
      if IsMasked(value) {
        return -1;
      }
      r := Vector(value);
    }

    method HasVectorConnected(vector: nat) returns (r: bool)
      ensures r == Connected(sint[..], vector)
    {
      for i := 0 to sint.Length
        invariant forall k :: 0 <= k < i ==> !Delivers(sint[k], vector)
      {
        var v := SintVector(sint[i]);
        if v == vector {
          assert Delivers(sint[..][i], vector);
          return true;
        }
      }
      return false;
    }

    method HasVectorAutoEoi(vector: nat) returns (r: bool)
      ensures r == ConnectedAutoEoi(sint[..], vector)
    {
      for i := 0 to sint.Length
        invariant forall k :: 0 <= k < i ==> !DeliversAutoEoi(sint[k], vector)
      {
        var v := SintVector(sint[i]);
        if v == vector && AutoEoi(sint[i]) {
          assert DeliversAutoEoi(sint[..][i], vector);
          return true;
        }
      }
      return false;
    }

    /** The part of synic_update_vector that updates the bitmaps. */
    method UpdateBitmaps(vector: nat)
      requires FIRST_VALID_VECTOR <= vector
      modifies `vecBitmap, `autoEoiBitmap
      ensures vecBitmap == old(vecBitmap) - {vector} + if Connected(sint[..], vector) then {vector} else {}
      ensures autoEoiBitmap == old(autoEoiBitmap) - {vector} + if ConnectedAutoEoi(sint[..], vector) then {vector} else {}
    {
      var connected := HasVectorConnected(vector);
      vecBitmap := if connected then vecBitmap + {vector} else vecBitmap - {vector};
      var auto := HasVectorAutoEoi(vector);
      autoEoiBitmap := if auto then autoEoiBitmap + {vector} else autoEoiBitmap - {vector};
    }

    /** Bitmaps that were right but for the vectors old and vector are right once these are updated. */
    lemma UpdatedAgrees(before: seq<nat>, n: nat, data: nat, vecs: set<nat>, autos: set<nat>)
      requires n < |before| == SINTS && sint.Length == SINTS && sint[..] == before[n := data]
      requires vecs == VectorsOf(before) && autos == AutoEoiVectorsOf(before)
      requires vecBitmap == Updated(Updated(vecs, Vector(before[n]), Connected), Vector(data), Connected)
      requires autoEoiBitmap == Updated(Updated(autos, Vector(before[n]), ConnectedAutoEoi), Vector(data), ConnectedAutoEoi)
      ensures Agrees()
    {
      forall v: nat ensures v in vecBitmap <==> v in VectorsOf(sint[..]) {
        if v != Vector(before[n]) && v != Vector(data) {
          OtherVectorsStay(before, n, data, v);
        }
      }
      forall v: nat ensures v in autoEoiBitmap <==> v in AutoEoiVectorsOf(sint[..]) {
        if v != Vector(before[n]) && v != Vector(data) {
          OtherVectorsStay(before, n, data, v);
        }
      }
    }

    function Updated(bitmap: set<nat>, vector: nat, scan: (seq<nat>, nat) -> bool): set<nat>
      reads sint
    {
      if vector < FIRST_VALID_VECTOR then bitmap
      else bitmap - {vector} + if scan(sint[..], vector) then {vector} else {}
    }
  }

  /** The virtual machine: its vCPUs' SynICs and the count that inhibits APICv. */
  class Vm {
    const enableApicv: bool
    var synics: seq<VcpuSynic>
    var autoEoiUsed: nat             // synic_auto_eoi_used
    var inhibited: bool              // APICV_INHIBIT_REASON_HYPERV
    ghost var inUse: seq<bool>       // which vCPUs have a non-empty auto-EOI bitmap

    constructor (apicv: bool)
      ensures Valid() && synics == [] && enableApicv == apicv
    {
      enableApicv, synics, autoEoiUsed, inhibited, inUse := apicv, [], 0, false, [];
    }

    ghost predicate Shape()
      reads this, synics
    {
      && |inUse| == |synics|
      && (forall j, k :: 0 <= j < k < |synics| ==> synics[j] != synics[k] && synics[j].sint != synics[k].sint)
      && (forall k :: 0 <= k < |synics| ==> synics[k].sint.Length == SINTS && inUse[k] == (synics[k].autoEoiBitmap != {}))
    }

    /** The count is the number of vCPUs with automatic EOI, and APICv is inhibited while there are any. */
    ghost predicate Counted()
      reads this
    {
      enableApicv ==> autoEoiUsed == Count(inUse) && inhibited == (autoEoiUsed > 0)
    }

    ghost predicate OthersAgree(k: nat)
      reads this, synics, set j | 0 <= j < |synics| :: synics[j].sint
    {
      forall j :: 0 <= j < |synics| && j != k ==> synics[j].Agrees()
    }

    ghost predicate Valid()
      reads this, synics, set k | 0 <= k < |synics| :: synics[k].sint
    {
      Shape() && Counted() && forall k :: 0 <= k < |synics| ==> synics[k].Agrees()
    }

    /** So APICv is inhibited exactly while some vCPU's registers deliver a vector with automatic EOI. */
    lemma InhibitedWhileUsed()
      requires Valid() && enableApicv
      ensures inhibited <==> exists k :: 0 <= k < |synics| && AutoEoiVectorsOf(synics[k].sint[..]) != {}
    {
      CountZero(inUse);
      assert forall k :: 0 <= k < |synics| ==> synics[k].autoEoiBitmap == AutoEoiVectorsOf(synics[k].sint[..]);
    }

    method AddVcpu()
      requires Valid()
      modifies this
      ensures Valid() && |synics| == |old(synics)| + 1 && synics[..|old(synics)|] == old(synics)
      ensures fresh(synics[|old(synics)|]) && synics[|old(synics)|].sint[..] == seq(SINTS, _ => MASKED)
    {
      var s := new VcpuSynic();
      synics := synics + [s];
      inUse := inUse + [false];
      assert inUse[..|inUse| - 1] == old(inUse);
    }

    /** The part of synic_update_vector that keeps the count. */
    method Recount(k: nat, before: bool, after: bool)
      requires Counted() && k < |inUse| && inUse[k] == before
      modifies `inUse, `autoEoiUsed, `inhibited
      ensures Counted() && inUse == old(inUse)[k := after]
    {
      CountUpdate(inUse, k, after);
      inUse := inUse[k := after];
      if before == after {
        assert inUse == old(inUse);
        return;
      }
      if !enableApicv {
        return;
      }
      if after {
        autoEoiUsed := autoEoiUsed + 1;
      } else {
        autoEoiUsed := autoEoiUsed - 1;
      }
      inhibited := autoEoiUsed != 0;
    }

    /** synic_update_vector */
    method UpdateVector(k: nat, vector: nat)
      requires Shape() && Counted() && k < |synics| && OthersAgree(k)
      modifies this, synics[k]
      ensures Shape() && Counted() && synics == old(synics) && OthersAgree(k)
      ensures synics[k].vecBitmap == synics[k].Updated(old(synics[k].vecBitmap), vector, Connected)
      ensures synics[k].autoEoiBitmap == synics[k].Updated(old(synics[k].autoEoiBitmap), vector, ConnectedAutoEoi)
      ensures synics[k].scanIoapic == old(synics[k].scanIoapic)
    {
      if vector < FIRST_VALID_VECTOR {
        return;
      }
      var before := synics[k].autoEoiBitmap != {};
      synics[k].UpdateBitmaps(vector);
      var after := synics[k].autoEoiBitmap != {};
      Recount(k, before, after);
    }

    /** synic_set_sint: bitmaps and count stay right (Valid) whatever is written to whichever vCPU. */
    method SetSint(k: nat, n: nat, data: nat, host: bool) returns (r: int)
      requires Valid() && k < |synics| && n < SINTS
      modifies this, synics[k], synics[k].sint
      ensures Valid() && synics == old(synics)
      ensures r == if Rejected(data, host) then 1 else 0
      ensures synics[k].sint[..] == if r == 1 then old(synics[k].sint[..]) else old(synics[k].sint[..])[n := data]
      ensures r == 0 ==> synics[k].scanIoapic
    {
      var vector, masked := Vector(data), IsMasked(data);
      if vector < FIRST_VALID_VECTOR && !host && !masked {
        return 1;
      }
      var s := synics[k];
      ghost var before := s.sint[..];
      var oldVector := Vector(s.sint[n]);
      s.sint[n] := data;
      assert OthersAgree(k);
      UpdateVector(k, oldVector);
      UpdateVector(k, vector);
      s.scanIoapic := true;
      s.UpdatedAgrees(before, n, data, old(s.vecBitmap), old(s.autoEoiBitmap));
      return 0;
    }
  }
}
