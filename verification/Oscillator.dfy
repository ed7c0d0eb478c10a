/** Calibration of the clock: a binary search for the target frequency, then a scan of the neighbourhood. */
module Oscillator {

  /** The measured frame length as a function of the 8-bit calibration register. */
  type Response = int -> int

  ghost predicate Nondecreasing(f: Response) {
    forall u, v :: 0 <= u <= v < 256 ==> f(u) <= f(v)
  }

  /** Measurements are closer to the target than half of it. */
  ghost predicate Near(f: Response, target: int) {
    forall v :: 0 <= v < 256 ==> target < 2 * f(v) < 3 * target
  }

  function Deviation(f: Response, target: int, v: int): nat {
    if f(v) < target then target - f(v) else f(v) - target
  }

  ghost predicate Optimal(f: Response, target: int, v: int) {
    0 <= v < 256 && forall u :: 0 <= u < 256 ==> Deviation(f, target, v) <= Deviation(f, target, u)
  }

  /** The last setting below the target, or 0. */
  predicate Below(f: Response, target: int, trial: int) {
    && 0 <= trial < 256
    && (trial > 0 ==> f(trial) < target)
    && (trial < 255 ==> f(trial + 1) >= target)
  }

  method BinarySearch(f: Response, target: int) returns (trialValue: int, x: int)
    ensures Below(f, target, trialValue)
    ensures exists v :: 0 <= v < 256 && x == f(v)
  {
    var step := 128;
    trialValue := 0;
    ghost var bound, at := 256, 0;
    x := f(0);
    while step > 0
      invariant step in {0, 1, 2, 4, 8, 16, 32, 64, 128}
      invariant 0 <= trialValue && (trialValue > 0 ==> f(trialValue) < target)
      invariant bound == trialValue + (if step == 0 then 1 else 2 * step) <= 256
      invariant bound < 256 ==> f(bound) >= target
      invariant 0 <= at < 256 && x == f(at)
    {
      at := trialValue + step;
      x := f(trialValue + step);
      if x < target {
        trialValue := trialValue + step;
      } else {
        bound := trialValue + step;
      }
      step := step / 2;
    }
  }

  // ---- The scan; its counter is the 8-bit register itself ----

  function ScanStart(trialValue: int): int { (trialValue - 1) % 256 }

  function ScanNext(osccal: int): int { (osccal + 1) % 256 }

  predicate ScanGuard(osccal: int, trialValue: int) { osccal <= trialValue + 1 }

  function ScanAfter(trialValue: int, n: nat): int {
    if n == 0 then ScanStart(trialValue) else ScanNext(ScanAfter(trialValue, n - 1))
  }

  /** The scan visits nothing for 0, the neighbours for 1 to 253, and never ends for 254 and 255. */
  lemma ScanVisits(trialValue: int)
    requires 0 <= trialValue < 256
    ensures !ScanGuard(ScanStart(trialValue), trialValue) <==> trialValue == 0
    ensures 1 <= trialValue <= 253 ==>
              && ScanStart(trialValue) == trialValue - 1
              && !ScanGuard(ScanAfter(trialValue, 3), trialValue)
    ensures trialValue >= 254 <==> forall n: nat :: ScanGuard(ScanAfter(trialValue, n), trialValue)
  {
    if trialValue >= 254 {
      forall n: nat ensures ScanGuard(ScanAfter(trialValue, n), trialValue) { ScanStays(trialValue, n); }
    } else if trialValue == 0 {
      assert !ScanGuard(ScanAfter(0, 0), 0);
    } else {
      assert ScanAfter(trialValue, 1) == trialValue;
      assert ScanAfter(trialValue, 2) == trialValue + 1;
      assert ScanAfter(trialValue, 3) == trialValue + 2;
    }
  }

  lemma {:induction false} ScanStays(trialValue: int, n: nat)
    ensures 0 <= ScanAfter(trialValue, n) < 256
  {
    if n > 0 { ScanStays(trialValue, n - 1); }
  }

  datatype Calibration = Done(osccal: int) | Endless

  /** The scan, where it ends: the first best of those visited, if one of them is better than `x`. */
  method Scan(f: Response, target: int, trialValue: int, x: int) returns (optimumValue: int)
    requires 0 <= trialValue <= 253
    ensures trialValue == 0 ==> optimumValue == 0
    ensures trialValue > 0 ==> trialValue - 1 <= optimumValue <= trialValue + 1
    ensures trialValue > 0 && (forall v :: 0 <= v < 256 ==> Deviation(f, target, v) < x) ==>
              forall v :: trialValue - 1 <= v <= trialValue + 1 ==>
                Deviation(f, target, optimumValue) <= Deviation(f, target, v)
  {
    optimumValue := trialValue;
    var optimumDev := x;
    var osccal := ScanStart(trialValue);
    while ScanGuard(osccal, trialValue)
      invariant if trialValue == 0 then osccal == 255 && optimumValue == 0
                else trialValue - 1 <= osccal <= trialValue + 2 && trialValue - 1 <= optimumValue <= trialValue + 1
      invariant trialValue > 0 ==> forall v :: trialValue - 1 <= v < osccal ==> optimumDev <= Deviation(f, target, v)
      invariant optimumDev == x || optimumDev == Deviation(f, target, optimumValue)
      invariant trialValue > 0 && osccal > trialValue - 1 && Deviation(f, target, trialValue - 1) < x ==>
                  optimumDev == Deviation(f, target, optimumValue)
      decreases trialValue + 2 - osccal
    {
      var dev := f(osccal) - target;
      if dev < 0 {
        dev := -dev;
      }
      if dev < optimumDev {
        optimumDev := dev;
        optimumValue := osccal;
      }
      osccal := ScanNext(osccal);
    }
  }

  /** The whole calibration, for every nondecreasing response near the target: it ends exactly if setting 254 reaches
      the target; it is then optimal if setting 1 is below the target, and otherwise exactly if 0 is as good as 1. */
  method CalibrateOscillator(f: Response, target: int) returns (r: Calibration)
    requires Nondecreasing(f) && Near(f, target)
    ensures r.Endless? <==> f(254) < target
    ensures r.Done? && f(1) < target ==> Optimal(f, target, r.osccal)
    ensures r.Done? && f(1) >= target ==> r.osccal == 0
    ensures r.Done? && f(1) >= target ==> (Optimal(f, target, r.osccal) <==> Deviation(f, target, 0) <= Deviation(f, target, 1))
  {
    var trialValue, x := BinarySearch(f, target);
    if trialValue >= 254 {
      ScanVisits(trialValue);
      return Endless;
    }
    var osccal := Scan(f, target, trialValue, x);
    NeighboursDecide(f, target, trialValue);
    r := Done(osccal);
  }

  /** No setting is nearer to the target than both sides of it. */
  lemma NeighboursDecide(f: Response, target: int, trial: int)
    requires Nondecreasing(f) && Below(f, target, trial) && trial <= 253
    ensures forall u :: 0 <= u < 256 ==>
              Deviation(f, target, u) >= Deviation(f, target, trial) || Deviation(f, target, u) >= Deviation(f, target, trial + 1)
  {
    forall u | 0 <= u < 256
      ensures Deviation(f, target, u) >= Deviation(f, target, trial) || Deviation(f, target, u) >= Deviation(f, target, trial + 1)
    {
      if u <= trial {
        assert f(u) <= f(trial);
      } else {
        assert f(trial + 1) <= f(u);
      }
    }
  }

  // ---- Oscillators for which it goes wrong ----

  /** The target at 16.5 MHz. */
  const TARGET: int := 2356

  /** One that is too slow at all settings: the calibration would never end. */
  function Slow(v: int): int { 2100 + v }

  /** One that passes the target with its first step: setting 0 is kept although setting 1 is better. */
  function Jumping(v: int): int { if v <= 0 then 2256 else TARGET + v }

  lemma SlowNeverEnds()
    ensures Nondecreasing(Slow) && Near(Slow, TARGET) && Slow(254) < TARGET
  {
  }

  lemma JumpingIsMissed()
    ensures Nondecreasing(Jumping) && Near(Jumping, TARGET)
    ensures Jumping(254) >= TARGET && Jumping(1) >= TARGET
    ensures Deviation(Jumping, TARGET, 0) > Deviation(Jumping, TARGET, 1) && !Optimal(Jumping, TARGET, 0)
  {
    assert Deviation(Jumping, TARGET, 1) == 1;
  }

  method CalibrateSlow() returns (r: Calibration)
    ensures r.Endless?
  {
    SlowNeverEnds();
    r := CalibrateOscillator(Slow, TARGET);
  }

  /** The calibration ends with a setting that another one beats. */
  method CalibrateJumping() returns (r: Calibration)
    ensures r == Done(0) && !Optimal(Jumping, TARGET, 0)
  {
    JumpingIsMissed();
    r := CalibrateOscillator(Jumping, TARGET);
  }
}
