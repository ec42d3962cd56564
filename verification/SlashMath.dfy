/** The arithmetic of one slash and of many. */
module SlashMath {
  import opened Chain
  import opened RegistrySpec

  /** A slash takes the share rounded down, hence never more than there is. */
  lemma SlashAmountBounds(total: int, bps: nat)
    requires total >= 0 && bps <= BPS_DENOMINATOR
    ensures 0 <= SlashAmount(total, bps) <= total
    ensures SlashAmount(total, bps) == total * bps / 10_000
    ensures 10_000 * SlashAmount(total, bps) <= total * bps
    ensures total * bps < 10_000 * (SlashAmount(total, bps) + 1)
  {
    assert 0 <= total * bps <= total * BPS_DENOMINATOR;
  }

  /** A larger stake is never slashed less. */
  lemma SlashAmountMonotone(small: int, large: int, bps: nat)
    requires 0 <= small <= large && bps <= BPS_DENOMINATOR
    ensures SlashAmount(small, bps) <= SlashAmount(large, bps)
  {
    hide SlashAmount;
    SlashAmountBounds(small, bps);
    SlashAmountBounds(large, bps);
    ProductMonotone(small, large, bps);
    Squeeze(small * bps, large * bps, SlashAmount(small, bps), SlashAmount(large, bps));
  }

  lemma ProductMonotone(a: int, b: int, k: nat)
    requires a <= b
    ensures a * k <= b * k
  {
  }

  lemma Squeeze(p: int, q: int, x: int, y: int)
    requires p <= q && BPS_DENOMINATOR * x <= p && q < BPS_DENOMINATOR * (y + 1)
    ensures x <= y
  {
  }

  /** Taking a slash leaves both parts of the stake non-negative, removes exactly the amount, and
      empties the active part before it touches the unbonding one. */
  lemma TakeFromExact(info: StakeInfo, amount: int)
    requires 0 <= info.staked && 0 <= info.unbonding
    requires info.staked + info.unbonding <= MAX_I128
    requires 0 <= amount <= info.staked + info.unbonding
    ensures TakeFrom(info, amount).Ok?
    ensures var left := TakeFrom(info, amount).value;
            && 0 <= left.staked <= info.staked && 0 <= left.unbonding <= info.unbonding
            && left.staked + left.unbonding == info.staked + info.unbonding - amount
            && (left.unbonding < info.unbonding ==> left.staked == 0)
            && left.releaseLedger == info.releaseLedger
  {
  }

  function Pow(b: int, n: nat): int {
    if n == 0 then 1 else b * Pow(b, n - 1)
  }

  /** What `n` slashes leave of `total`. */
  function AfterSlashes(total: int, bps: nat, n: nat): int {
    if n == 0 then total
    else
      var r := AfterSlashes(total, bps, n - 1);
      r - SlashAmount(r, bps)
  }

  lemma {:induction false} PowPositive(b: int, n: nat)
    requires b >= 0
    ensures Pow(b, n) >= 0
    ensures b > 0 ==> Pow(b, n) > 0
  {
    if n > 0 {
      PowPositive(b, n - 1);
    }
  }

  /** One slash between two bounds of what was there. */
  lemma OneSlash(r: int, bps: nat)
    requires r >= 0 && bps <= BPS_DENOMINATOR
    ensures var r' := r - SlashAmount(r, bps);
            && r * (BPS_DENOMINATOR - bps) <= r' * BPS_DENOMINATOR < r * (BPS_DENOMINATOR - bps) + BPS_DENOMINATOR
  {
    SlashAmountBounds(r, bps);
  }

  lemma MulLe(a: int, b: int, c: int)
    requires a <= b && c >= 0
    ensures a * c <= b * c
  {
  }

  lemma MulLt(a: int, b: int, c: int)
    requires a < b && c > 0
    ensures a * c < b * c
  {
  }

  /** `r` is what `n` slashes leave of `t`: between `t * ((10000 - bps) / 10000)^n` and less than
      `10000 / bps` above it. */
  ghost predicate Shrunk(t: int, r: int, bps: nat, n: nat) {
    && 0 <= r <= t
    && t * Pow(BPS_DENOMINATOR - bps, n) <= r * Pow(BPS_DENOMINATOR, n)
    && bps * r * Pow(BPS_DENOMINATOR, n) < bps * t * Pow(BPS_DENOMINATOR - bps, n) + Pow(BPS_DENOMINATOR, n + 1)
  }

  /** Rounding down `n` times never takes more than the exact share, and stays close to it. */
  lemma {:induction false} ManySlashes(total: int, bps: nat, n: nat)
    requires total >= 0 && 0 < bps <= BPS_DENOMINATOR
    ensures Shrunk(total, AfterSlashes(total, bps, n), bps, n)
  {
    if n == 0 {
      assert Pow(BPS_DENOMINATOR, 1) == BPS_DENOMINATOR * Pow(BPS_DENOMINATOR, 0);
      assert AfterSlashes(total, bps, 0) == total;
    } else {
      ManySlashes(total, bps, n - 1);
      var r := AfterSlashes(total, bps, n - 1);
      SlashAmountBounds(r, bps);
      OneSlash(r, bps);
      PowPositive(BPS_DENOMINATOR, n - 1);
      LowerStep(total, r, r - SlashAmount(r, bps), bps, Pow(BPS_DENOMINATOR, n - 1), Pow(BPS_DENOMINATOR - bps, n - 1));
      UpperStep(total, r, r - SlashAmount(r, bps), bps, Pow(BPS_DENOMINATOR, n - 1), Pow(BPS_DENOMINATOR - bps, n - 1));
      assert Pow(BPS_DENOMINATOR, n) == BPS_DENOMINATOR * Pow(BPS_DENOMINATOR, n - 1);
      assert Pow(BPS_DENOMINATOR, n + 1) == BPS_DENOMINATOR * Pow(BPS_DENOMINATOR, n);
      assert Pow(BPS_DENOMINATOR - bps, n) == (BPS_DENOMINATOR - bps) * Pow(BPS_DENOMINATOR - bps, n - 1);
    }
  }

  lemma LowerStep(t: int, r: int, r': int, bps: int, p: int, q: int)
    requires 0 < bps <= BPS_DENOMINATOR && p > 0
    requires t * q <= r * p
    requires r * (BPS_DENOMINATOR - bps) <= r' * BPS_DENOMINATOR
    ensures t * ((BPS_DENOMINATOR - bps) * q) <= r' * (BPS_DENOMINATOR * p)
  {
    var d := BPS_DENOMINATOR - bps;
    calc {
      t * (d * q);
    ==
      (t * q) * d;
    <=  { MulLe(t * q, r * p, d); }
      (r * p) * d;
    ==
      (r * d) * p;
    <=  { MulLe(r * d, r' * BPS_DENOMINATOR, p); }
      (r' * BPS_DENOMINATOR) * p;
    ==
      r' * (BPS_DENOMINATOR * p);
    }
  }

  lemma UpperStep(t: int, r: int, r': int, bps: int, p: int, q: int)
    requires 0 < bps <= BPS_DENOMINATOR && p > 0
    requires bps * r * p < bps * t * q + BPS_DENOMINATOR * p
    requires r' * BPS_DENOMINATOR < r * (BPS_DENOMINATOR - bps) + BPS_DENOMINATOR
    ensures bps * r' * (BPS_DENOMINATOR * p) < bps * t * ((BPS_DENOMINATOR - bps) * q) + BPS_DENOMINATOR * (BPS_DENOMINATOR * p)
  {
    var whole := BPS_DENOMINATOR;
    var rest := whole - bps;
    calc {
      bps * r' * (whole * p);
    ==
      (r' * whole) * (bps * p);
    <  { assert bps * p > 0; MulLt(r' * whole, r * rest + whole, bps * p); }
      (r * rest + whole) * (bps * p);
    ==
      rest * (bps * r * p) + whole * bps * p;
    <=  { MulLe(bps * r * p, bps * t * q + whole * p, rest); }
      rest * (bps * t * q + whole * p) + whole * bps * p;
    ==
      bps * t * (rest * q) + rest * (whole * p) + bps * (whole * p);
    ==  { assert rest * (whole * p) + bps * (whole * p) == (rest + bps) * (whole * p); }
      bps * t * (rest * q) + whole * (whole * p);
    }
  }
}
