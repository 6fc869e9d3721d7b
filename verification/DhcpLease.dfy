/** When to renew, rebind and give up a DHCP lease: section 4.4.5 of RFC 2131. */
module DhcpLease {
  const TWO32: nat := 0x1_0000_0000
  const LEASE_INFINITE: nat := 0xFFFF_FFFF
  const LEASE_MIN: nat := 60
  const RETRY_MIN: nat := 60

  type U32 = x: int | 0 <= x < TWO32

  datatype Times = Infinite | Times(t1: U32, t2: U32, end: U32) {
    predicate Ordered() {
      Times? && 0 < t1 < t2 <= end
    }
  }

  /** 7/8 of the lease, the product 64 bits wide */
  function DefaultT2(end: U32): (r: U32)
    requires LEASE_MIN <= end
    ensures end / 2 < r < end && r == end * 7 / 8
  {
    end * 7 / 8 % TWO32
  }

  /** Halfway between T1 and the end */
  function LateT2(t1: U32, end: U32): (r: U32)
    requires t1 < end < LEASE_INFINITE
    ensures t1 < r <= end && r == t1 + (end - t1 + 1) / 2
  {
    (t1 + (end - t1 + 1) % TWO32 / 2) % TWO32
  }

  /** lease_timing: the sums are 32 bits wide, the product 64. For every lease that ends,
      its times are in order, and none of the sums wraps. */
  function LeaseTiming(lease: U32, t1: U32, t2: U32, overrideT1: U32): (r: Times)
    ensures r.Infinite? <==> lease == 0xFFFF_FFFF
    ensures r.Times? ==> r.Ordered() && r.end == (if lease < 60 then 60 else lease)
    ensures r.Times? && overrideT1 == 0 && 0 < t1 < t2 < r.end ==> r.t1 == t1 && r.t2 == t2
    ensures r.Times? && overrideT1 == 0 && !(0 < t1 < t2 < r.end) ==>
      r.t2 == r.end * 7 / 8 && r.t1 == if t2 == 0 && 0 < t1 < r.t2 then t1 else r.end / 2
    ensures r.Times? && 0 < overrideT1 ==> r.t1 == if overrideT1 < r.end then overrideT1 else r.end / 2
  {
    if lease == LEASE_INFINITE then Infinite
    else
      var end: U32 := if lease < LEASE_MIN then LEASE_MIN else lease;
      var suggested := t1 > 0 && t2 > t1 && t2 < end;
      var second: U32 := if suggested then t2 else DefaultT2(end);
      var first: U32 := if suggested || (t1 > 0 && t1 < second && t2 == 0) then t1 else end / 2;
      if overrideT1 == 0 then Times(first, second, end)
      else
        var given: U32 := if overrideT1 < end then overrideT1 else end / 2;
        Times(given, if second <= given then LateT2(given, end) else second, end)
  }

  /** A T1 given by hand leaves T2 as it is if that is still later, and else moves it
      halfway to the end, rounded up */
  lemma OverrideMovesT2(lease: U32, t1: U32, t2: U32, overrideT1: U32)
    requires lease != LEASE_INFINITE && overrideT1 > 0
    ensures var plain, r := LeaseTiming(lease, t1, t2, 0), LeaseTiming(lease, t1, t2, overrideT1);
            r.t2 == if plain.t2 > r.t1 then plain.t2 else r.t1 + (r.end - r.t1 + 1) / 2
  {
    hide DefaultT2, LateT2;
  }

  datatype Step = Wait | Renew | Rebind | Expired

  /** lease_step: what to do, and how long to wait before looking again */
  function LeaseStep(t: Times, elapsed: U32): (r: (Step, U32))
    requires t.Ordered()
    ensures r.0 ==
            if elapsed < t.t1 then Wait
            else if elapsed < t.t2 then Renew
            else if elapsed < t.end then Rebind
            else Expired
  {
    if elapsed >= t.end then (Expired, 0)
    else if elapsed < t.t1 then (Wait, t.t1 - elapsed)
    else
      var step := if elapsed < t.t2 then Renew else Rebind;
      var left := (if step == Renew then t.t2 else t.end) - elapsed;
      var retry := if left / 2 > RETRY_MIN then left / 2 else RETRY_MIN;
      (step, if retry < left then retry else left)
  }

  /** Until expiry every wait is positive, and none goes past the next of T1, T2 and
      the end */
  lemma NeverStepsOver(t: Times, elapsed: U32)
    requires t.Ordered() && elapsed < t.end
    ensures var wait := LeaseStep(t, elapsed).1;
            && wait > 0 && elapsed + wait <= t.end
            && (elapsed < t.t1 ==> elapsed + wait == t.t1)
            && (elapsed < t.t2 ==> elapsed + wait <= t.t2)
  {
  }

  // ----- Requests of a phase -----

  /** The wait after a request with so many seconds of its phase left */
  function RetryWait(left: nat): (r: nat)
    ensures left > 0 ==> 0 < r <= left
  {
    var retry := if left / 2 > RETRY_MIN then left / 2 else RETRY_MIN;
    if retry < left then retry else left
  }

  /** How many requests go unanswered in so many seconds */
  function Requests(left: nat): nat {
    if left == 0 then 0 else 1 + Requests(left - RetryWait(left))
  }

  function Pow2(n: nat): nat {
    if n == 0 then 1 else 2 * Pow2(n - 1)
  }

  /** At most `k` requests exactly when the phase is no longer than 60 seconds doubled
      `k - 1` times: their number is logarithmic */
  lemma {:induction false} RequestsAreLogarithmic(left: nat, k: nat)
    requires k >= 1
    ensures Requests(left) <= k <==> left <= 60 * Pow2(k - 1)
    decreases left
  {
    if left > RETRY_MIN {
      Pow2Positive(k - 1);
      var rest := left - RetryWait(left);
      if k == 1 {
        AtLeastOne(rest);
      } else {
        RequestsAreLogarithmic(rest, k - 1);
        assert Pow2(k - 1) == 2 * Pow2(k - 2);
        Pow2Positive(k - 2);
        if left / 2 <= RETRY_MIN {
          NearTheEnd(left, k);
        }
      }
    } else {
      Pow2Positive(k - 1);
      assert Requests(0) == 0;
    }
  }

  lemma {:induction false} Pow2Positive(n: nat)
    ensures Pow2(n) >= 1
  {
    if n > 0 {
      Pow2Positive(n - 1);
    }
  }

  lemma AtLeastOne(left: nat)
    ensures left > 0 ==> Requests(left) >= 1
  {
  }

  /** Less than three times RETRY_MIN left: waits of RETRY_MIN */
  lemma NearTheEnd(left: nat, k: nat)
    requires RETRY_MIN < left <= 2 * RETRY_MIN + 1 && k >= 2 && Pow2(k - 1) == 2 * Pow2(k - 2) && Pow2(k - 2) >= 1
    ensures left - RETRY_MIN <= RETRY_MIN * Pow2(k - 2) <==> left <= RETRY_MIN * Pow2(k - 1)
  {
  }

  lemma RequestsGrow(a: nat, b: nat)
    requires a <= b
    ensures Requests(a) <= Requests(b)
  {
    if b > 0 {
      var k := Requests(b);
      AtLeastOne(b);
      RequestsAreLogarithmic(b, k);
      RequestsAreLogarithmic(a, k);
    } else {
      assert a == b;
    }
  }

  // ----- An unanswered lease -----

  /** What is left of the phase of renewing, and of that of rebinding */
  function RenewingLeft(t: Times, elapsed: nat): nat
    requires t.Ordered()
  {
    if elapsed < t.t1 then t.t2 - t.t1 else if elapsed < t.t2 then t.t2 - elapsed else 0
  }

  function RebindingLeft(t: Times, elapsed: nat): nat
    requires t.Ordered()
  {
    if elapsed < t.t2 then t.end - t.t2 else if elapsed < t.end then t.end - elapsed else 0
  }

  /** Each request but the last is followed by its wait at least */
  predicate Spaced(t: Times, requests: seq<nat>)
    requires t.Ordered()
  {
    && (forall i | 0 <= i < |requests| :: requests[i] < TWO32)
    && (forall i | 0 <= i < |requests| - 1 :: requests[i] + LeaseStep(t, requests[i]).1 <= requests[i + 1])
  }

  /** And the last by now */
  predicate WaitedFor(t: Times, requests: seq<nat>, elapsed: nat)
    requires t.Ordered() && Spaced(t, requests)
  {
    requests != [] ==> requests[|requests| - 1] + LeaseStep(t, requests[|requests| - 1]).1 <= elapsed
  }

  /** The requests of a phase made so far, those that could still be made in `left`
      seconds, and all that a phase of `whole` seconds has room for */
  predicate Asked(t: Times, requests: seq<nat>, lo: nat, hi: nat, left: nat, whole: nat, elapsed: nat)
    requires t.Ordered()
  {
    && |requests| + Requests(left) <= Requests(whole)
    && (forall i | 0 <= i < |requests| :: lo <= requests[i] < hi)
    && Spaced(t, requests) && WaitedFor(t, requests, elapsed)
  }

  /** With a clock that is never late */
  predicate AskedOnTime(requests: seq<nat>, lo: nat, left: nat, whole: nat, elapsed: nat) {
    && |requests| + Requests(left) == Requests(whole)
    && if elapsed <= lo then requests == [] else requests != [] && requests[0] == lo
  }

  lemma OneMoreAsked(t: Times, requests: seq<nat>, lo: nat, hi: nat, left: nat, whole: nat, elapsed: U32, passed: nat,
                     left': nat)
    requires t.Ordered() && Asked(t, requests, lo, hi, left, whole, elapsed) && lo <= elapsed < hi
    requires LeaseStep(t, elapsed).1 <= passed && Requests(left') + 1 <= Requests(left)
    ensures Asked(t, requests + [elapsed as nat], lo, hi, left', whole, elapsed + passed)
  {
    hide Requests, LeaseStep;
  }

  lemma NoneAsked(t: Times, requests: seq<nat>, lo: nat, hi: nat, left: nat, whole: nat, elapsed: nat, passed: nat,
                  left': nat)
    requires t.Ordered() && Asked(t, requests, lo, hi, left, whole, elapsed) && Requests(left') <= Requests(left)
    ensures Asked(t, requests, lo, hi, left', whole, elapsed + passed)
  {
    hide Requests, LeaseStep;
  }

  /** The inner loop of keep_lease when nobody answers: it asks the server between T1 and
      T2, anyone between T2 and the end, and gives the address up only at the end. Wait
      number `i` takes `late(i)` seconds more than it should; the requests are at most
      those of a clock that is never late, and just those if it is not. */
  method KeepUnanswered(t: Times, late: nat -> nat) returns (renewals: seq<nat>, rebindings: seq<nat>, gaveUp: nat)
    requires t.Ordered() && forall i :: t.end + late(i) < TWO32
    ensures t.end <= gaveUp
    ensures |renewals| <= Requests(t.t2 - t.t1) && |rebindings| <= Requests(t.end - t.t2)
    ensures forall i | 0 <= i < |renewals| :: t.t1 <= renewals[i] < t.t2
    ensures forall i | 0 <= i < |rebindings| :: t.t2 <= rebindings[i] < t.end
    ensures Spaced(t, renewals) && Spaced(t, rebindings)
    ensures (forall i :: late(i) == 0) ==>
      && gaveUp == t.end
      && |renewals| == Requests(t.t2 - t.t1) && renewals != [] && renewals[0] == t.t1
      && |rebindings| == Requests(t.end - t.t2) && (rebindings != [] ==> rebindings[0] == t.t2)
  {
    hide LeaseStep, RetryWait, Requests, Asked, Spaced, WaitedFor;
    renewals, rebindings := [], [];
    var elapsed: U32 := 0;
    var waits := 0;
    NoTimeLeft(t);
    while true
      invariant Asked(t, renewals, t.t1, t.t2, RenewingLeft(t, elapsed), t.t2 - t.t1, elapsed)
      invariant Asked(t, rebindings, t.t2, t.end, RebindingLeft(t, elapsed), t.end - t.t2, elapsed)
      invariant (forall i :: late(i) == 0) ==>
        && elapsed <= t.end
        && AskedOnTime(renewals, t.t1, RenewingLeft(t, elapsed), t.t2 - t.t1, elapsed)
        && AskedOnTime(rebindings, t.t2, RebindingLeft(t, elapsed), t.end - t.t2, elapsed)
      decreases t.end - elapsed
    {
      var (step, wait) := LeaseStep(t, elapsed);
      if step == Expired {
        break;
      }
      var passed := wait + late(waits);
      NeverStepsOver(t, elapsed);
      PhaseStep(t, elapsed, passed);
      AskedNext(t, renewals, rebindings, elapsed, passed);
      if step == Renew {
        renewals := renewals + [elapsed];
      } else if step == Rebind {
        rebindings := rebindings + [elapsed];
      }
      elapsed := elapsed + passed;
      waits := waits + 1;
    }
    gaveUp := elapsed;
    AllAsked(t, renewals, rebindings, elapsed);
  }

  lemma AskedNext(t: Times, renewals: seq<nat>, rebindings: seq<nat>, elapsed: U32, passed: nat)
    requires t.Ordered() && elapsed < t.end && passed >= LeaseStep(t, elapsed).1
    requires Asked(t, renewals, t.t1, t.t2, RenewingLeft(t, elapsed), t.t2 - t.t1, elapsed)
    requires Asked(t, rebindings, t.t2, t.end, RebindingLeft(t, elapsed), t.end - t.t2, elapsed)
    ensures var (step, _) := LeaseStep(t, elapsed);
            && Asked(t, if step == Renew then renewals + [elapsed as nat] else renewals, t.t1, t.t2,
                     RenewingLeft(t, elapsed + passed), t.t2 - t.t1, elapsed + passed)
            && Asked(t, if step == Rebind then rebindings + [elapsed as nat] else rebindings, t.t2, t.end,
                     RebindingLeft(t, elapsed + passed), t.end - t.t2, elapsed + passed)
  {
    hide LeaseStep, Requests, Asked;
    PhaseStep(t, elapsed, passed);
    var step := LeaseStep(t, elapsed).0;
    if step == Renew {
      OneMoreAsked(t, renewals, t.t1, t.t2, RenewingLeft(t, elapsed), t.t2 - t.t1, elapsed, passed,
                   RenewingLeft(t, elapsed + passed));
    } else {
      NoneAsked(t, renewals, t.t1, t.t2, RenewingLeft(t, elapsed), t.t2 - t.t1, elapsed, passed,
                RenewingLeft(t, elapsed + passed));
    }
    if step == Rebind {
      OneMoreAsked(t, rebindings, t.t2, t.end, RebindingLeft(t, elapsed), t.end - t.t2, elapsed, passed,
                   RebindingLeft(t, elapsed + passed));
    } else {
      NoneAsked(t, rebindings, t.t2, t.end, RebindingLeft(t, elapsed), t.end - t.t2, elapsed, passed,
                RebindingLeft(t, elapsed + passed));
    }
  }

  lemma AllAsked(t: Times, renewals: seq<nat>, rebindings: seq<nat>, elapsed: nat)
    requires t.Ordered()
    requires Asked(t, renewals, t.t1, t.t2, RenewingLeft(t, elapsed), t.t2 - t.t1, elapsed)
    requires Asked(t, rebindings, t.t2, t.end, RebindingLeft(t, elapsed), t.end - t.t2, elapsed)
    ensures |renewals| <= Requests(t.t2 - t.t1) && |rebindings| <= Requests(t.end - t.t2)
    ensures forall i | 0 <= i < |renewals| :: t.t1 <= renewals[i] < t.t2
    ensures forall i | 0 <= i < |rebindings| :: t.t2 <= rebindings[i] < t.end
    ensures Spaced(t, renewals) && Spaced(t, rebindings)
  {
    hide LeaseStep, Requests, Spaced;
  }

  lemma NoTimeLeft(t: Times)
    requires t.Ordered()
    ensures Requests(0) == 0 && Requests(t.t2 - t.t1) > 0
    ensures Asked(t, [], t.t1, t.t2, t.t2 - t.t1, t.t2 - t.t1, 0)
    ensures Asked(t, [], t.t2, t.end, t.end - t.t2, t.end - t.t2, 0)
  {
  }

  /** Time that passes takes at least one request off what is left of the phase, and just
      one if it is the wait and no more */
  lemma PhaseStep(t: Times, elapsed: U32, passed: nat)
    requires t.Ordered() && elapsed < t.end && passed >= LeaseStep(t, elapsed).1
    ensures var (step, wait) := LeaseStep(t, elapsed);
            var renewing, rebinding := if step == Renew then 1 else 0, if step == Rebind then 1 else 0;
            && Requests(RenewingLeft(t, elapsed + passed)) + renewing <= Requests(RenewingLeft(t, elapsed))
            && Requests(RebindingLeft(t, elapsed + passed)) + rebinding <= Requests(RebindingLeft(t, elapsed))
            && (passed == wait ==>
                  && Requests(RenewingLeft(t, elapsed + passed)) + renewing == Requests(RenewingLeft(t, elapsed))
                  && Requests(RebindingLeft(t, elapsed + passed)) + rebinding == Requests(RebindingLeft(t, elapsed)))
  {
    hide Requests, LeaseStep, RenewingLeft, RebindingLeft;
    var wait := LeaseStep(t, elapsed).1;
    OnTimeStep(t, elapsed);
    LessLeft(t, elapsed + wait, elapsed + passed);
    RequestsGrow(RenewingLeft(t, elapsed + passed), RenewingLeft(t, elapsed + wait));
    RequestsGrow(RebindingLeft(t, elapsed + passed), RebindingLeft(t, elapsed + wait));
  }

  lemma LessLeft(t: Times, sooner: nat, later: nat)
    requires t.Ordered() && sooner <= later
    ensures RenewingLeft(t, later) <= RenewingLeft(t, sooner) && RebindingLeft(t, later) <= RebindingLeft(t, sooner)
  {
  }

  lemma OnTimeStep(t: Times, elapsed: U32)
    requires t.Ordered() && elapsed < t.end
    ensures var (step, wait) := LeaseStep(t, elapsed);
            var renewing, rebinding := if step == Renew then 1 else 0, if step == Rebind then 1 else 0;
            && Requests(RenewingLeft(t, elapsed + wait)) + renewing == Requests(RenewingLeft(t, elapsed))
            && Requests(RebindingLeft(t, elapsed + wait)) + rebinding == Requests(RebindingLeft(t, elapsed))
  {
    NeverStepsOver(t, elapsed);
  }
}
