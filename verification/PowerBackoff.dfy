/**
  nr_ue_max_mcs_min_rb: lower the allocation until the UE's power headroom allows it.

  The path goes from (rb0, mcs0) down in resource blocks to minRb, and from there down in MCS to 0.
  `power` stands for the transport block size and power formulas, which the loop only evaluates.
 */
module PowerBackoff {

  type Power = (nat, nat) -> int

  /** (rb, mcs) is the first point of the path that fits the limit, or its end if none does. */
  ghost predicate FirstFit(power: Power, limit: int, minRb: nat, rb0: nat, mcs0: nat, rb: nat, mcs: nat) {
    && minRb <= rb <= rb0 && mcs <= mcs0
    && (mcs < mcs0 ==> rb == minRb)
    && (forall r: nat :: rb < r <= rb0 ==> power(r, mcs0) > limit)
    && (forall m: nat :: mcs < m <= mcs0 ==> power(minRb, m) > limit)
    && (power(rb, mcs) <= limit || (rb == minRb && mcs == 0))
  }

  /** The description leaves no choice. */
  lemma FirstFitUnique(
      power: Power, limit: int, minRb: nat, rb0: nat, mcs0: nat, rb: nat, mcs: nat, rb': nat, mcs': nat)
    requires FirstFit(power, limit, minRb, rb0, mcs0, rb, mcs)
    requires FirstFit(power, limit, minRb, rb0, mcs0, rb', mcs')
    ensures rb == rb' && mcs == mcs'
  {
    if mcs < mcs0 && mcs' < mcs0 {
      assert mcs < mcs' ==> power(minRb, mcs') > limit;
      assert mcs' < mcs ==> power(minRb, mcs) > limit;
    } else if mcs == mcs' {
      assert rb < rb' ==> power(rb', mcs0) > limit;
      assert rb' < rb ==> power(rb, mcs0) > limit;
    }
  }

  /** A higher limit never costs blocks or MCS steps. */
  lemma FirstFitMonotone(
      power: Power, limit: int, limit': int, minRb: nat, rb0: nat, mcs0: nat, rb: nat, mcs: nat, rb': nat, mcs': nat)
    requires limit <= limit'
    requires FirstFit(power, limit, minRb, rb0, mcs0, rb, mcs)
    requires FirstFit(power, limit', minRb, rb0, mcs0, rb', mcs')
    ensures rb <= rb' && mcs <= mcs'
  {
    assert !(rb' < rb && power(rb, mcs0) <= limit');
    assert !(mcs' < mcs && power(minRb, mcs) <= limit');
  }

  method MaxMcsMinRb(power: Power, limit: int, minRb: nat, rb0: nat, mcs0: nat) returns (rb: nat, mcs: nat)
    requires minRb <= rb0 && mcs0 <= 28
    ensures FirstFit(power, limit, minRb, rb0, mcs0, rb, mcs)
  {
    rb, mcs := rb0, mcs0;
    var txPower := power(rb, mcs);
    while limit < txPower && rb > minRb
      invariant minRb <= rb <= rb0 && txPower == power(rb, mcs0)
      invariant forall r: nat :: rb < r <= rb0 ==> power(r, mcs0) > limit
      decreases rb
    {
      rb := rb - 1;
      txPower := power(rb, mcs);
    }
    while limit < txPower && mcs > 0
      invariant mcs <= mcs0 && txPower == power(rb, mcs)
      invariant mcs < mcs0 ==> rb == minRb
      invariant limit < txPower ==> rb == minRb
      invariant forall m: nat :: mcs < m <= mcs0 ==> power(minRb, m) > limit
      decreases mcs
    {
      mcs := mcs - 1;
      txPower := power(rb, mcs);
    }
  }
}
