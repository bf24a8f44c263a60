/** Hyper-V synthetic timers (host/kvm/hyperv.c:215-228, 587-661, 684-747, 838-890).

    The reference time and ktime are parameters and never run backwards; whether a message or an
    interrupt is delivered is a parameter too.  Times are 64 bits and wrap around. */
module Stimer {
  import opened Arith
  import opened Wrappers

  /** What the guest sets: one HV_X64_MSR_STIMER_CONFIG register. */
  datatype Config = Config(enable: bool, periodic: bool, autoEnable: bool, direct: bool, sintx: nat)

  /** When a periodic timer goes off next: the first time a whole period after now if it is new, else
      the first of its times after now. */
  function NextExpiry(exp: nat, now: nat, count: nat): nat
    requires count > 0
  {
    if exp == 0 then now + count
    else if now >= exp then now + (count - (now - exp) % count)
    else exp
  }

  /** exp is on the grid of times that first is on. */
  predicate OnGrid(exp: int, first: int, count: nat)
    requires count > 0
  {
    (exp - first) % count == 0
  }

  lemma {:induction false} NextOnGrid(exp: nat, now: nat, count: nat, first: nat)
    requires count > 0 && exp > 0 && OnGrid(exp, first, count)
    ensures OnGrid(NextExpiry(exp, now, count), first, count)
  {
    if now >= exp {
      var q := (now - exp) / count + 1;
      assert NextExpiry(exp, now, count) - exp == count * q;
      ModIs(NextExpiry(exp, now, count) - first, (exp - first) / count + q, 0, count);
    }
  }

  /** It is the only time of the grid in the period after now, unless the timer is not due yet. */
  lemma {:induction false} NextIsSoonest(exp: nat, now: nat, count: nat, t: nat)
    requires 0 < count && 0 < exp <= now < t <= now + count && OnGrid(t, exp, count)
    ensures t == NextExpiry(exp, now, count)
  {
    NextOnGrid(exp, now, count, exp);
    var n := NextExpiry(exp, now, count);
    var a, b := (t - exp) / count, (n - exp) / count;
    assert t - n == count * (a - b);
    MulSign(count, a - b);
  }

  /** The 64-bit time is later than now exactly if the next time fits in 64 bits. */
  lemma LaterUnlessWrapped(exp: nat, now: U64, count: U64)
    requires 0 < count && exp < TWO_64 && (exp > 0 ==> exp <= now + count)
    ensures now < NextExpiry(exp, now, count) <= now + count
    ensures NextExpiry(exp, now, count) % TWO_64 > now <==> NextExpiry(exp, now, count) < TWO_64
  {
    var n := NextExpiry(exp, now, count);
    if n < TWO_64 {
      ModIs(n, 0, n, TWO_64);
    } else {
      ModIs(n, 1, n - TWO_64, TWO_64);
    }
  }

  /** One start of a periodic timer whose time fits. */
  lemma {:induction false} PeriodicStep(exp: U64, now: U64, count: U64, first: nat)
    requires 0 < count && (exp > 0 ==> exp <= now + count && OnGrid(exp, first, count))
    ensures var next := NextExpiry(exp, now, count);
            now < next <= now + count && OnGrid(next, if exp == 0 then next else first, count)
  {
    if exp > 0 {
      NextOnGrid(exp, now, count, first);
    }
  }

  lemma Fits(x: nat)
    ensures x < TWO_64 ==> x % TWO_64 == x
  {
  }

  class Timer {
    var config: Config
    var count: U64
    var expTime: U64
    var msgPending: bool
    var pending: bool                // its bit in stimer_pending_bitmap
    var armed: Option<U64>           // the hrtimer and when it fires
    // since the last cleanup:
    ghost var first: nat             // the first expiry time
    ghost var wrapped: bool          // an expiry time did not fit in 64 bits
    ghost var seen: U64              // the latest reference time read

    /** stimer_init */
    constructor ()
      ensures Valid() && !config.enable && count == 0 && seen == 0
    {
      config, count, expTime := Config(false, false, false, false, 0), 0, 0;
      msgPending, pending, armed := false, false, None;
      first, wrapped, seen := 0, false, 0;
    }

    /** The expiry time of a periodic timer is at most one period ahead and on the grid of the first. */
    ghost predicate Periodic()
      reads this
    {
      config.periodic && expTime != 0 && !wrapped ==>
        count > 0 && expTime <= seen + count && OnGrid(expTime, first, count)
    }

    ghost predicate Ticking()
      reads this
    {
      config.enable && config.periodic && count != 0 && !msgPending && !wrapped
    }

    ghost predicate Ahead(now: U64)
      requires count != 0
      reads this
    {
      now < expTime <= now + count && OnGrid(expTime, first, count)
    }

    /** A delivery failed that nothing will retry: there is no SINT whose acknowledgement would. */
    predicate Stuck()
      reads this
    {
      config.direct && msgPending
    }

    /** A timer in use is waiting to be looked at, for its hrtimer or for room for its message. */
    predicate Watched()
      reads this
    {
      config.enable && count != 0 ==> pending || armed.Some? || msgPending
    }

    ghost predicate Valid()
      reads this
    {
      Periodic() && Watched()
    }

    /** stimer_mark_pending */
    method MarkPending()
      modifies `pending
      ensures pending
    {
      pending := true;
    }

    /** stimer_cleanup */
    method Cleanup()
      modifies `armed, `pending, `msgPending, `expTime, `first, `wrapped
      ensures armed == None && !pending && !msgPending && expTime == 0 && !wrapped
    {
      armed, pending, msgPending, expTime := None, false, false, 0;
      first, wrapped := 0, false;
    }

    /** stimer_timer_callback */
    method Fire()
      requires Valid() && armed.Some?
      modifies `armed, `pending
      ensures Valid() && armed == None && pending
    {
      armed := None;
      MarkPending();
    }

    /** stimer_start */
    method Start(now: U64, ktime: nat)
      requires Periodic() && config.enable && count != 0 && seen <= now
      modifies `expTime, `pending, `armed, `first, `wrapped, `seen
      ensures Valid() && seen == now
      ensures config.periodic ==> expTime == NextExpiry(old(expTime), now, count) % TWO_64 && pending == old(pending)
      ensures config.periodic && old(expTime) == 0 ==> expTime == (now + count) % TWO_64
      ensures config.periodic ==> armed == Some((ktime + 100 * ((expTime - now) % TWO_64) % TWO_64) % TWO_64)
      ensures Ticking() ==> Ahead(now)
      ensures config.periodic ==> (old(expTime) != 0 ==> first == old(first)) && (old(wrapped) ==> wrapped)
      ensures config.periodic && !old(wrapped) ==> (wrapped <==> NextExpiry(old(expTime), now, count) >= TWO_64)
      ensures !config.periodic && now >= count ==> expTime == count && pending && armed == old(armed)
      ensures !config.periodic && now < count ==>
                expTime == count && pending == old(pending)
                && armed == Some((ktime + 100 * (count - now) % TWO_64) % TWO_64)
    {
      hide NextExpiry, OnGrid;
      seen := now;
      if config.periodic {
        StartPeriodic(now);
        armed := Some((ktime + 100 * ((expTime - now) % TWO_64) % TWO_64) % TWO_64);
        return;
      }
      expTime := count;
      if now >= count {
        MarkPending();
        return;
      }
      armed := Some((ktime + 100 * (count - now) % TWO_64) % TWO_64);
    }

    /** The arithmetic of a periodic start. */
    method StartPeriodic(now: U64)
      requires Periodic() && config.periodic && count != 0 && seen == now
      modifies `expTime, `first, `wrapped
      ensures Periodic() && expTime == NextExpiry(old(expTime), now, count) % TWO_64
      ensures old(expTime) == 0 ==> expTime == (now + count) % TWO_64
      ensures !wrapped ==> now < expTime <= now + count && OnGrid(expTime, first, count)
      ensures old(expTime) != 0 ==> first == old(first)
      ensures wrapped <==> old(wrapped) || NextExpiry(old(expTime), now, count) >= TWO_64
    {
      ghost var next := NextExpiry(expTime, now, count);
      Fits(next);
      if !wrapped {
        PeriodicStep(expTime, now, count, first);
        first := if expTime == 0 then next else first;
      }
      wrapped := wrapped || next >= TWO_64;
      AdvanceExpiry(now);
    }

    method AdvanceExpiry(now: U64)
      requires count != 0
      modifies `expTime
      ensures expTime == NextExpiry(old(expTime), now, count) % TWO_64
    {
      Fits(expTime);
      if expTime != 0 {
        if now >= expTime {
          var remainder := (now - expTime) % count;
          expTime := (now + (count - remainder)) % TWO_64;
        }
      } else {
        expTime := (now + count) % TWO_64;
      }
    }

    /** stimer_set_config; synic tells whether the SynIC is active, zero whether the whole register is
        zero, and offered whether the guest may use direct mode (or its CPUID is not enforced). */
    method SetConfig(new': Config, zero: bool, host: bool, synic: bool, offered: bool) returns (r: nat)
      requires Valid()
      modifies this
      ensures Valid() && count == old(count) && seen == old(seen)
      ensures r == if (synic || (host && zero)) && (host || offered || !new'.direct) then 0 else 1
      ensures r == 1 ==> unchanged(this)
      ensures r == 0 ==>
                config == if old(config.enable) && !new'.direct && new'.sintx == 0 then new'.(enable := false) else new'
      ensures r == 0 ==> expTime == 0 && armed == None && !msgPending && (pending <==> config.enable)
    {
      if !synic && (!host || !zero) {
        return 1;
      }
      if !host && new'.direct && !offered {
        return 1;
      }
      Cleanup();
      config := if config.enable && !new'.direct && new'.sintx == 0 then new'.(enable := false) else new';
      if config.enable {
        MarkPending();
      }
      return 0;
    }

    /** stimer_set_count */
    method SetCount(count': U64, host: bool, synic: bool) returns (r: nat)
      requires Valid()
      modifies this
      ensures Valid() && seen == old(seen)
      ensures r == if synic || (host && count' == 0) then 0 else 1
      ensures r == 1 ==> unchanged(this)
      ensures r == 0 ==>
                && count == count'
                && config == old(config).(enable := if host then old(config.enable)
                                                    else count' != 0 && (old(config.enable) || old(config.autoEnable)))
      ensures r == 0 ==> expTime == 0 && armed == None && !msgPending && (pending <==> config.enable)
    {
      if !synic && (!host || count' != 0) {
        return 1;
      }
      Cleanup();
      count := count';
      if !host {
        if count == 0 {
          config := config.(enable := false);
        } else if config.autoEnable {
          config := config.(enable := true);
        }
      }
      if config.enable {
        MarkPending();
      }
      return 0;
    }

    /** kvm_hv_notify_acked_sint, for this timer */
    method SintAcked(sint: nat)
      requires Valid()
      modifies `pending
      ensures Valid()
      ensures pending <==> old(pending) || (msgPending && config.enable && !config.direct && config.sintx == sint)
    {
      if msgPending && config.enable && !config.direct && config.sintx == sint {
        MarkPending();
      }
    }

    /** stimer_expiration */
    method Expire(delivered: bool)
      modifies `msgPending, `config
      ensures msgPending == !delivered
      ensures config == old(config).(enable := old(config.enable) && (config.periodic || !delivered))
    {
      msgPending := true;
      if delivered {
        msgPending := false;
        if !config.periodic {
          config := config.(enable := false);
        }
      }
    }

    /** What one pass does to this timer, apart from keeping it valid. */
    twostate predicate Processed(now: U64, later: U64, delivered: bool, expired: bool)
      reads this
    {
      && seen <= later && count == old(count)
      && (expired <==> old(pending) && old(config.enable) && old(expTime) != 0 && now >= old(expTime))
      && (Stuck() ==> old(Stuck()) || (expired && !delivered))
      && (old(pending) && Ticking() ==> Ahead(later))
      && (!old(pending) ==> unchanged(this))
      && config == old(config).(enable := old(config.enable) && (config.periodic || !expired || !delivered))
      && (old(pending && config.enable) && !(config.enable && count != 0) ==>
            expTime == 0 && armed == None && !pending && !msgPending)
      && (old(pending) && config.enable && count != 0 ==>
            && msgPending == (if expired then !delivered else old(msgPending))
            && (msgPending ==> expTime == old(expTime) && armed == old(armed) && !pending)
            && (!msgPending && !config.periodic ==> expTime == count && if later >= count then pending else armed.Some?))
      && (old(expTime) != 0 && expTime != 0 && config.periodic ==> first == old(first))
    }

    /** One timer in kvm_hv_process_stimers; the time is read twice.  A timer never goes off early; one
        that is in use afterwards is watched (Valid), and only a failed direct delivery gets it stuck. */
    method Process(now: U64, later: U64, ktime: nat, delivered: bool) returns (expired: bool)
      requires Valid() && seen <= now <= later
      modifies this
      ensures Valid() && Processed(now, later, delivered, expired)
    {
      expired := false;
      if !pending {
        return;
      }
      pending := false;
      if config.enable {
        if expTime != 0 && now >= expTime {
          Expire(delivered);
          expired := true;
        }
        if config.enable && count != 0 {
          if !msgPending {
            Start(later, ktime);
          }
        } else {
          Cleanup();
        }
      }
    }
  }

  // ----- all four timers of a vCPU -----

  const STIMERS: nat := 4            // HV_SYNIC_STIMER_COUNT

  class Vcpu {
    const timers: seq<Timer>

    ghost predicate Valid()
      reads this, timers
    {
      && |timers| == STIMERS
      && (forall i, j :: 0 <= i < j < |timers| ==> timers[i] != timers[j])
      && (forall i :: 0 <= i < |timers| ==> timers[i].Valid())
    }

    /** kvm_hv_process_stimers; time(2i) and time(2i + 1) are read for timer i. */
    method ProcessStimers(time: nat -> U64, ktime: nat -> nat, delivered: nat -> bool)
      returns (ghost expired: seq<bool>)
      requires Valid()
      requires forall i, j :: 0 <= i <= j ==> time(i) <= time(j)
      requires forall i :: 0 <= i < |timers| ==> timers[i].seen <= time(0)
      modifies timers
      ensures Valid() && |expired| == |timers|
      ensures forall i :: 0 <= i < |timers| ==>
                timers[i].Processed(time(2 * i), time(2 * i + 1), delivered(i), expired[i])
    {
      expired := [];
      for i := 0 to |timers|
        invariant Valid() && |expired| == i
        invariant forall k :: i <= k < |timers| ==> unchanged(timers[k])
        invariant forall k :: 0 <= k < i ==>
                    timers[k].Processed(time(2 * k), time(2 * k + 1), delivered(k), expired[k])
      {
        var e := timers[i].Process(time(2 * i), time(2 * i + 1), ktime(i), delivered(i));
        expired := expired + [e];
      }
    }
  }
}
