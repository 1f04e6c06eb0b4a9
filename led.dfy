/**
 * The LED dimmer of the file-system blinky application: a task that reads
 * the requested power from a file once a second and smooths it over 100
 * frames into a gamma-corrected shared value, and a software delta-sigma
 * DAC on the second core that turns that value into LED on/off states.
 */
module Led {
  import opened Abi
  import opened Arith

  const POWER_MAX: int := 100
  const FRAMES: nat := 100
  const GAMMA_SCALE: int := 429_496
  const U32_MOD: int := 0x1_0000_0000

  /** What one `read_requested_power` call sees: two FS statuses and the `strtol` value. */
  datatype ReadInput = ReadInput(openStatus: i32, readStatus: i32, parsed: int)

  /** `std::max<long>(std::min<long>(value, 100), 0)`. */
  function Clamp(value: int): (r: int)
    ensures 0 <= r <= POWER_MAX
    ensures 0 <= value <= POWER_MAX ==> r == value
    ensures value < 0 ==> r == 0
    ensures value > POWER_MAX ==> r == POWER_MAX
  {
    if value > POWER_MAX then POWER_MAX else if value < 0 then 0 else value
  }

  /**
   * `read_requested_power`: -1 when opening or reading the file fails
   * (the read status is not consulted when the open failed), otherwise the
   * parsed value clamped to [0, 100].
   */
  function ReadRequestedPower(io: ReadInput): (r: i32)
    ensures r == -1 <==> io.openStatus != SOLID_ERR_OK || io.readStatus != SOLID_ERR_OK
    ensures r != -1 ==> r == Clamp(io.parsed)
    ensures -1 <= r <= POWER_MAX
  {
    if io.openStatus != SOLID_ERR_OK then -1
    else if io.readStatus != SOLID_ERR_OK then -1
    else Clamp(io.parsed)
  }

  /** `default_power ^= 100` on a non-negative `int32_t`. */
  function Toggle(d: nat): (r: nat)
    requires d < 0x8000_0000
    ensures r < 0x8000_0000
    ensures d == 0 ==> r == POWER_MAX
    ensures d == POWER_MAX ==> r == 0
  {
    ((d as bv32) ^ 100) as int
  }

  /** `if (power < 0) power = default_power;` */
  function Target(read: int, defaultPower: int): int {
    if read < 0 then defaultPower else read
  }

  /** One frame: move `smoothed` one unit toward `power`, never past it. */
  function Step(smoothed: int, power: int): (r: int)
    ensures r - power == Toward(smoothed - power, 1)
  {
    if power > smoothed then Min(smoothed + 1, power) else Max(smoothed - 1, power)
  }

  function Min(a: int, b: int): int { if a < b then a else b }
  function Max(a: int, b: int): int { if a > b then a else b }

  /** A distance `e` shrunk toward zero by `n`. */
  function Toward(e: int, n: nat): (r: int)
    ensures e >= 0 ==> r == Max(e - n, 0)
    ensures e < 0 ==> r == Min(e + n, 0)
  {
    if e >= 0 then Max(e - n, 0) else Min(e + n, 0)
  }

  /** `smoothed` after `n` frames toward `power`. */
  function Approach(smoothed: int, power: int, n: nat): int {
    if n == 0 then smoothed else Step(Approach(smoothed, power, n - 1), power)
  }

  /** After `n` frames the distance to the target has shrunk by `n`, down to zero. */
  lemma {:induction false} ApproachDistance(smoothed: int, power: int, n: nat)
    ensures Approach(smoothed, power, n) - power == Toward(smoothed - power, n)
  {
    if n > 0 {
      ApproachDistance(smoothed, power, n - 1);
    }
  }

  /** Smoothing never leaves [0, 100] when it starts there and aims there. */
  lemma ApproachInRange(smoothed: int, power: int, n: nat)
    requires 0 <= smoothed <= POWER_MAX && 0 <= power <= POWER_MAX
    ensures 0 <= Approach(smoothed, power, n) <= POWER_MAX
  {
    ApproachDistance(smoothed, power, n);
  }

  /** 100 frames always reach a target in [0, 100] from anywhere in [0, 100]. */
  lemma ApproachReachesTarget(smoothed: int, power: int)
    requires 0 <= smoothed <= POWER_MAX && 0 <= power <= POWER_MAX
    ensures Approach(smoothed, power, FRAMES) == power
  {
    ApproachDistance(smoothed, power, FRAMES);
  }

  /**
   * `smoothed_power * smoothed_power * 429'496` as written: an `int32_t`
   * product, `None` where it overflows (undefined behaviour in C++).
   */
  function GammaAsWritten(s: int): (r: Option32)
    ensures r.Some32? <==> -0x8000_0000 <= s * s * GAMMA_SCALE < 0x8000_0000
    ensures r.Some32? ==> r.value == s * s * GAMMA_SCALE
  {
    var sq := s * s;
    if !(-0x8000_0000 <= sq < 0x8000_0000) then None32
    else if -0x8000_0000 <= sq * GAMMA_SCALE < 0x8000_0000 then Some32(sq * GAMMA_SCALE)
    else None32
  }

  datatype Option32 = None32 | Some32(value: i32)

  /** The `int32_t` product overflows from 71 on, and is defined below it. */
  lemma GammaOverflowsFrom71(s: int)
    requires 0 <= s <= POWER_MAX
    ensures GammaAsWritten(s).None32? <==> s >= 71
  {
    if s >= 71 {
      assert s * s >= 71 * 71;
    } else {
      assert s * s <= 70 * 70;
    }
  }

  /**
   * The product computed in `uint32_t`, which is what the value stored in
   * `g_led_power` evidently means: no wrap on [0, 100], and it spans
   * [0, 0xffff_ffff] approximately.
   */
  function Gamma(s: int): (r: u32)
    ensures 0 <= s <= POWER_MAX ==> r == s * s * GAMMA_SCALE
    ensures s == POWER_MAX ==> 0xffff_ffff - r < 10_000
  {
    GammaNoWrap(s);
    (s * s * GAMMA_SCALE) % U32_MOD
  }

  lemma GammaNoWrap(s: int)
    ensures 0 <= s <= POWER_MAX ==> 0 <= s * s * GAMMA_SCALE <= 0xffff_ffff
  {
    if 0 <= s <= POWER_MAX {
      assert s * s <= 100 * 100;
    }
  }

  /** Where the `int32_t` product is defined, the stored value agrees with `Gamma`. */
  lemma GammaAgrees(s: int)
    requires 0 <= s <= POWER_MAX && GammaAsWritten(s).Some32?
    ensures Gamma(s) == GammaAsWritten(s).value
  {
  }

  /** Brighter is never dimmer: `Gamma` is monotone on [0, 100]. */
  lemma GammaMonotone(a: int, b: int)
    requires 0 <= a <= b <= POWER_MAX
    ensures Gamma(a) <= Gamma(b)
  {
    assert a * a <= b * b;
  }

  /** The values stored during `n` frames toward `power`. */
  function FrameStores(smoothed: int, power: int, n: nat): (r: seq<u32>)
    ensures |r| == n
  {
    if n == 0 then [] else FrameStores(smoothed, power, n - 1) + [Gamma(Approach(smoothed, power, n))]
  }

  /** The state after running the task on `inputs`: `(smoothed_power, default_power)`. */
  function TaskRun(inputs: seq<ReadInput>): (r: (int, nat))
    ensures r.1 == 0 || r.1 == POWER_MAX
  {
    if |inputs| == 0 then (0, 0)
    else
      var prev := TaskRun(inputs[..|inputs| - 1]);
      var power := Target(ReadRequestedPower(inputs[|inputs| - 1]), prev.1);
      (Approach(prev.0, power, FRAMES), Toggle(prev.1))
  }

  /** Every value the task stored in `g_led_power` while running on `inputs`. */
  function TaskStores(inputs: seq<ReadInput>): (r: seq<u32>)
    ensures |r| == FRAMES * |inputs|
  {
    if |inputs| == 0 then []
    else
      var prev := TaskRun(inputs[..|inputs| - 1]);
      var power := Target(ReadRequestedPower(inputs[|inputs| - 1]), prev.1);
      TaskStores(inputs[..|inputs| - 1]) + FrameStores(prev.0, power, FRAMES)
  }

  /**
   * Each second ends exactly at that second's target (the file's clamped
   * value, or the blink default), which stays in [0, 100].
   */
  lemma {:induction false} TaskRunReachesTarget(inputs: seq<ReadInput>)
    requires |inputs| > 0
    ensures var prev := TaskRun(inputs[..|inputs| - 1]);
            TaskRun(inputs).0 == Target(ReadRequestedPower(inputs[|inputs| - 1]), prev.1)
    ensures 0 <= TaskRun(inputs).0 <= POWER_MAX
  {
    var prev := TaskRun(inputs[..|inputs| - 1]);
    var power := Target(ReadRequestedPower(inputs[|inputs| - 1]), prev.1);
    if |inputs| > 1 {
      TaskRunReachesTarget(inputs[..|inputs| - 1]);
    }
    ApproachReachesTarget(prev.0, power);
  }

  /** The blink default alternates: 100 for the second, fourth, ... second, 0 otherwise. */
  lemma {:induction false} TaskRunDefault(inputs: seq<ReadInput>)
    ensures TaskRun(inputs).1 == (if |inputs| % 2 == 0 then 0 else POWER_MAX)
  {
    if |inputs| > 0 {
      var n := |inputs| - 1;
      TaskRunDefault(inputs[..n]);
      assert TaskRun(inputs).1 == Toggle(TaskRun(inputs[..n]).1);
      assert n % 2 == 0 <==> |inputs| % 2 == 1;
    }
  }

  /** One second's 100 frames: the stored values and the final `smoothed_power`. */
  method Frames(smoothed0: int, power: int) returns (smoothed: int, stores: seq<u32>)
    ensures smoothed == Approach(smoothed0, power, FRAMES)
    ensures stores == FrameStores(smoothed0, power, FRAMES)
  {
    smoothed := smoothed0;
    stores := [];
    var frame := 0;
    while frame < 100
      invariant 0 <= frame <= FRAMES
      invariant smoothed == Approach(smoothed0, power, frame)
      invariant stores == FrameStores(smoothed0, power, frame)
    {
      if power > smoothed {
        smoothed := Min(smoothed + 1, power);
      } else {
        smoothed := Max(smoothed - 1, power);
      }
      var correctedPower := Gamma(smoothed);
      stores := stores + [correctedPower];
      frame := frame + 1;
    }
  }

  /**
   * `led_power_update_task_entry` for `|inputs|` seconds of its endless
   * loop, one file read per second.
   */
  method Task(inputs: seq<ReadInput>) returns (smoothed: int, defaultPower: nat, stores: seq<u32>)
    ensures (smoothed, defaultPower) == TaskRun(inputs)
    ensures stores == TaskStores(inputs)
  {
    smoothed, defaultPower, stores := 0, 0, [];
    var k := 0;
    while k < |inputs|
      invariant 0 <= k <= |inputs|
      invariant (smoothed, defaultPower) == TaskRun(inputs[..k])
      invariant stores == TaskStores(inputs[..k])
    {
      var power := ReadRequestedPower(inputs[k]);
      if power < 0 {
        power := defaultPower;
      }
      var frameStores;
      TaskPrefixStep(inputs, k);
      smoothed, frameStores := Frames(smoothed, power);
      stores := stores + frameStores;
      defaultPower := Toggle(defaultPower);
      k := k + 1;
    }
    assert inputs[..k] == inputs;
  }

  /** One more second of the task, in terms of the functions that specify it. */
  lemma TaskPrefixStep(inputs: seq<ReadInput>, k: nat)
    requires k < |inputs|
    ensures var prev := TaskRun(inputs[..k]);
            var power := Target(ReadRequestedPower(inputs[k]), prev.1);
            && TaskRun(inputs[..k + 1]) == (Approach(prev.0, power, FRAMES), Toggle(prev.1))
            && TaskStores(inputs[..k + 1]) == TaskStores(inputs[..k]) + FrameStores(prev.0, power, FRAMES)
  {
    assert inputs[..k + 1][..k] == inputs[..k];
  }

  /**
   * One DAC step: `new_value = integrator + power` in `uint32_t`, and the
   * LED is on exactly when the addition wrapped (`new_value < integrator`).
   */
  function DacStep(integrator: u32, power: u32): (r: (u32, bool))
    ensures r.0 == (integrator + power) % U32_MOD
    ensures r.1 <==> integrator + power >= U32_MOD
  {
    var newValue := (integrator + power) % U32_MOD;
    (newValue, newValue < integrator)
  }

  function Sum(s: seq<u32>): nat {
    if |s| == 0 then 0 else Sum(s[..|s| - 1]) + s[|s| - 1]
  }

  /**
   * The DAC loop of `slo_main` for as many iterations as `powers` has
   * loads of `g_led_power`: the LED was on `(i0 + sum) / 2^32` times, so its
   * duty cycle follows the power.
   */
  method Dac(integrator0: u32, powers: seq<u32>) returns (integrator: u32, outputs: seq<bool>)
    ensures |outputs| == |powers|
    ensures integrator == (integrator0 + Sum(powers)) % U32_MOD
    ensures CountOn(outputs) == (integrator0 + Sum(powers)) / U32_MOD
  {
    integrator := integrator0;
    outputs := [];
    var k := 0;
    ghost var total: nat := integrator0;
    while k < |powers|
      invariant 0 <= k <= |powers| && |outputs| == k
      invariant total == integrator0 + Sum(powers[..k])
      invariant integrator == total % U32_MOD
      invariant CountOn(outputs) == total / U32_MOD
    {
      var newValue := (integrator + powers[k]) % U32_MOD;
      var output := newValue < integrator;
      SumPrefixStep(powers, k);
      DacInvariantStep(total, integrator, powers[k], outputs);
      total := total + powers[k];
      integrator := newValue;
      outputs := outputs + [output];
      k := k + 1;
    }
    assert powers[..k] == powers;
  }

  /** One DAC iteration keeps the loop's account of the integrator and of the on-count. */
  lemma DacInvariantStep(total: nat, integrator: u32, p: u32, outputs: seq<bool>)
    requires integrator == total % U32_MOD && CountOn(outputs) == total / U32_MOD
    ensures var newValue := (integrator + p) % U32_MOD;
            && newValue == (total + p) % U32_MOD
            && CountOn(outputs + [newValue < integrator]) == (total + p) / U32_MOD
  {
    DacCarry(total, p);
    var step := DacStep(integrator, p);
    CountOnSnoc(outputs, step.1);
  }

  /** The sum of a prefix grows by the next element. */
  lemma SumPrefixStep(s: seq<u32>, k: nat)
    requires k < |s|
    ensures Sum(s[..k + 1]) == Sum(s[..k]) + s[k]
  {
    assert s[..k + 1][..k] == s[..k];
  }

  /** Adding a 32-bit `p` to a running total moves its 2^32-quotient by the carry of the low word. */
  lemma DacCarry(total: nat, p: u32)
    ensures (total + p) % U32_MOD == (total % U32_MOD + p) % U32_MOD
    ensures (total + p) / U32_MOD
            == total / U32_MOD + (if total % U32_MOD + p >= U32_MOD then 1 else 0)
  {
    var q := total / U32_MOD;
    var lo := total % U32_MOD;
    assert total == q * U32_MOD + lo;
    if lo + p >= U32_MOD {
      assert total + p == (q + 1) * U32_MOD + (lo + p - U32_MOD);
      DivModUnique(total + p, U32_MOD, q + 1, lo + p - U32_MOD);
      DivModUnique(lo + p, U32_MOD, 1, lo + p - U32_MOD);
    } else {
      assert total + p == q * U32_MOD + (lo + p);
      DivModUnique(total + p, U32_MOD, q, lo + p);
      DivModUnique(lo + p, U32_MOD, 0, lo + p);
    }
  }

  /** With a constant power `p`, `n` steps stay on `(i0 + n * p) / 2^32` times. */
  lemma {:induction false} SumConstant(p: u32, n: nat)
    ensures Sum(seq(n, _ => p)) == n * p
  {
    if n > 0 {
      assert seq(n, _ => p)[..n - 1] == seq(n - 1, _ => p);
      SumConstant(p, n - 1);
    }
  }
}
