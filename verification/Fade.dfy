/** One brightness step of the backlight timer, and how long a fade takes. */
module Fade {

  function Distance(v: int, target: int): nat {
    if v < target then target - v else v - target
  }

  /** The step towards the target: half the way rounded down, at least enough to arrive. */
  function Step(v: int, target: int): int {
    if Distance(v, target) <= 1 then target
    else if v > target then v - (v - target) / 2
    else v + (target - v) / 2
  }

  /** The same step as the timer computes it, with truncated halves and a clamp. */
  method Approach(v: int, target: int) returns (r: int)
    ensures r == Step(v, target)
  {
    r := v;
    if v != target {
      if v > target {
        var step := ((v - target) as real / 2.0).Floor;
        if step == 0 {
          step := 2;
        }
        if v - step < target {
          r := target;
        } else {
          r := v - step;
        }
      } else {
        var step := ((target - v) as real / 2.0).Floor;
        if step == 0 {
          step := 2;
        }
        if v + step > target {
          r := target;
        } else {
          r := v + step;
        }
      }
    }
  }

  /** The value after n timer ticks with the target held. */
  function After(v: int, target: int, n: nat): int
    decreases n
  {
    if n == 0 then v else After(Step(v, target), target, n - 1)
  }

  function Pow2(n: nat): (p: nat)
    ensures 1 <= p
  {
    if n == 0 then 1 else 2 * Pow2(n - 1)
  }

  lemma StepDistance(v: int, target: int)
    ensures Distance(Step(v, target), target)
         == if Distance(v, target) <= 1 then 0 else (Distance(v, target) + 1) / 2
    ensures v <= target ==> v <= Step(v, target) <= target
    ensures v >= target ==> v >= Step(v, target) >= target
  {
  }

  /** The target is reached after n ticks iff n >= 1 + ceil(log2 d), d >= 1 being the distance:
      that is, iff n >= 1 and 2^(n-1) >= d. The bound is the same in both directions. */
  lemma {:induction false} FadeTime(v: int, target: int, n: nat)
    requires v != target
    ensures After(v, target, n) == target <==> 1 <= n && Distance(v, target) <= Pow2(n - 1)
    decreases n
  {
    if n > 0 {
      var u := Step(v, target);
      StepDistance(v, target);
      if u == target {
        Settled(target, n - 1);
        assert Distance(v, target) == 1;
      } else {
        FadeTime(u, target, n - 1);
        if n >= 2 {
          assert Pow2(n - 1) == 2 * Pow2(n - 2);
        }
      }
    }
  }

  lemma {:induction false} Settled(target: int, n: nat)
    ensures After(target, target, n) == target
  {
    if n > 0 {
      Settled(target, n - 1);
    }
  }

  lemma {:induction false} AfterOneMore(v: int, target: int, n: nat)
    ensures After(v, target, n + 1) == Step(After(v, target, n), target)
    decreases n
  {
    if n > 0 {
      AfterOneMore(Step(v, target), target, n - 1);
    }
  }

  /** A fade is monotone and never overshoots. */
  lemma {:induction false} NoOvershoot(v: int, target: int, n: nat)
    ensures v <= target ==> v <= After(v, target, n) <= target
    ensures v >= target ==> v >= After(v, target, n) >= target
    decreases n
  {
    StepDistance(v, target);
    if n > 0 {
      NoOvershoot(Step(v, target), target, n - 1);
    }
  }
}
