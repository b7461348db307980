/** The credential component of the score: type weight, recency decay, saturating sum,
    cap. The contract computes it in saturating u32/u64 steps; it is worth exactly the
    unbounded formula, in any order. */
module CredentialPoints {
  import opened Host
  import opened Arithmetic

  const BPS_DENOMINATOR := 10_000
  const SECONDS_PER_DAY := 86_400
  const BASE_POINTS := 20
  const VC_CAP := 100

  datatype RecencyDecay = RecencyDecay(enabled: bool, perDay: u32, minBps: u32)

  const DEFAULT_DECAY := RecencyDecay(false, 5, 5_000)

  /** What the scoring loop reads of one credential: its type's weight and its date. */
  datatype Credential = Credential(weight: u32, anchoredAt: u64)

  // ---- the contract's saturating steps -------------------------------------------

  /** `recency_multiplier_bps`. */
  function RecencyMultiplierBps(anchoredAt: u64, now: u64, perDay: u32, minBps: u32): (bps: u32)
    ensures bps <= BPS_DENOMINATOR
  {
    var ageDays: u64 := SatSub(now, anchoredAt) / SECONDS_PER_DAY;
    var decay: u64 := Min(ageDays * perDay, U64_MAX);
    Max(SatSub(BPS_DENOMINATOR, decay), Min(minBps, BPS_DENOMINATOR))
  }

  /** `apply_recency_bps`: the final cast to u32 keeps the low 32 bits. */
  function ApplyRecencyBps(points: u32, bps: u32): u32 {
    Min(points * bps, U64_MAX) / BPS_DENOMINATOR % (U32_MAX + 1)
  }

  /** The points the loop adds for one credential. */
  function LoopPoints(c: Credential, now: u64, d: RecencyDecay): u32 {
    var points: u32 := Min(BASE_POINTS * c.weight, U32_MAX) / 100;
    if d.enabled
    then ApplyRecencyBps(points, RecencyMultiplierBps(c.anchoredAt, now, d.perDay, d.minBps))
    else points
  }

  /** The accumulator after the loop has seen all of cs. */
  function LoopTotal(cs: seq<Credential>, now: u64, d: RecencyDecay): u32 {
    if cs == [] then 0
    else SatAddU32(LoopTotal(cs[..|cs| - 1], now, d), LoopPoints(cs[|cs| - 1], now, d))
  }

  // ---- the exact value ------------------------------------------------------------

  /** Full worth, less a fixed share per whole day of age, down to the configured floor. */
  function ExactBps(anchoredAt: nat, now: nat, d: RecencyDecay): nat {
    if !d.enabled then 10_000
    else
      var ageDays := if now < anchoredAt then 0 else (now - anchoredAt) / 86_400;
      Max(10_000 - ageDays * d.perDay, Min(d.minBps, 10_000))
  }

  /** Twenty points, scaled by the type's weight in percent and then by age. */
  function ExactPoints(c: Credential, now: nat, d: RecencyDecay): (p: nat) {
    MulBound(20 * c.weight / 100, ExactBps(c.anchoredAt, now, d), 20 * c.weight / 100, ExactBps(c.anchoredAt, now, d));
    20 * c.weight / 100 * ExactBps(c.anchoredAt, now, d) / 10_000
  }

  function ExactTotal(cs: seq<Credential>, now: nat, d: RecencyDecay): nat {
    if cs == [] then 0
    else ExactTotal(cs[..|cs| - 1], now, d) + ExactPoints(cs[|cs| - 1], now, d)
  }

  // ---- refinement -----------------------------------------------------------------

  /** The u64 arithmetic of the multiplier never loses anything. */
  lemma MultiplierIsExact(anchoredAt: u64, now: u64, d: RecencyDecay)
    requires d.enabled
    ensures RecencyMultiplierBps(anchoredAt, now, d.perDay, d.minBps) == ExactBps(anchoredAt, now, d)
  {
    var ageDays := SatSub(now, anchoredAt) / SECONDS_PER_DAY;
    MulBound(ageDays, d.perDay, ageDays, d.perDay);
  }

  /** Scaling by a multiplier of at most one neither overflows nor truncates. */
  lemma ScalingIsExact(points: u32, bps: u32)
    requires bps <= BPS_DENOMINATOR
    ensures ApplyRecencyBps(points, bps) == points * bps / BPS_DENOMINATOR <= points
    ensures 0 <= points * bps
  {
    MulBound(points, bps, points, BPS_DENOMINATOR);
    DivAtMost(points * bps, BPS_DENOMINATOR, points);
  }

  /** One credential's saturated points differ from the exact ones only beyond the cap. */
  lemma PointsAgreeUpToCap(c: Credential, now: u64, d: RecencyDecay)
    ensures Min(LoopPoints(c, now, d), VC_CAP) == Min(ExactPoints(c, now, d), 100)
  {
    var sat: u32 := Min(BASE_POINTS * c.weight, U32_MAX) / 100;
    var exact := BASE_POINTS * c.weight / 100;
    var bps := ExactBps(c.anchoredAt, now, d);
    if d.enabled {
      MultiplierIsExact(c.anchoredAt, now, d);
      ScalingIsExact(sat, bps);
    }
    if BASE_POINTS * c.weight > U32_MAX && bps > 0 {
      assert sat == 42_949_672 <= exact;
      MulBound(sat, 1, sat, bps);
      MulBound(sat, bps, exact, bps);
      assert 42_949_672 <= sat * bps <= exact * bps;
    }
  }

  /** The saturating loop followed by the cap is the exact capped sum, for all weights,
      ages and list lengths. */
  lemma {:induction false} LoopRefinesExactSum(cs: seq<Credential>, now: u64, d: RecencyDecay)
    ensures Min(LoopTotal(cs, now, d), VC_CAP) == Min(ExactTotal(cs, now, d), 100)
  {
    if cs != [] {
      LoopRefinesExactSum(cs[..|cs| - 1], now, d);
      PointsAgreeUpToCap(cs[|cs| - 1], now, d);
    }
  }

  // ---- order, length and age ------------------------------------------------------

  lemma {:induction false} ExactTotalAppend(a: seq<Credential>, b: seq<Credential>, now: nat, d: RecencyDecay)
    ensures ExactTotal(a + b, now, d) == ExactTotal(a, now, d) + ExactTotal(b, now, d)
  {
    if b == [] {
      assert a + b == a;
    } else {
      assert (a + b)[..|a + b| - 1] == a + b[..|b| - 1];
      ExactTotalAppend(a, b[..|b| - 1], now, d);
    }
  }

  lemma ExactTotalOne(c: Credential, now: nat, d: RecencyDecay)
    ensures ExactTotal([c], now, d) == ExactPoints(c, now, d)
  {
    assert [c][..0] == [];
  }

  lemma MultisetWithout<T>(s: seq<T>, k: nat)
    requires k < |s|
    ensures multiset(s[..k] + s[k + 1..]) == multiset(s) - multiset{s[k]}
  {
    assert s == s[..k] + [s[k]] + s[k + 1..];
  }

  /** Dropping the same element from two permutations leaves two permutations. */
  lemma RemoveMatching<T>(a: seq<T>, b: seq<T>, k: nat)
    requires a != [] && k < |b| && b[k] == a[|a| - 1]
    requires multiset(a) == multiset(b)
    ensures multiset(a[..|a| - 1]) == multiset(b[..k] + b[k + 1..])
  {
    var n := |a| - 1;
    MultisetWithout(a, n);
    MultisetWithout(b, k);
    assert a[..n] + a[n + 1..] == a[..n];
  }

  /** The order in which the credentials are listed does not matter. */
  lemma {:induction false} ExactTotalOrderFree(a: seq<Credential>, b: seq<Credential>, now: nat, d: RecencyDecay)
    requires multiset(a) == multiset(b)
    ensures ExactTotal(a, now, d) == ExactTotal(b, now, d)
  {
    assert |a| == |multiset(a)| == |multiset(b)| == |b|;
    if a != [] {
      var last, front := a[|a| - 1], a[..|a| - 1];
      assert a == front + [last];
      assert last in multiset(b);
      var k :| 0 <= k < |b| && b[k] == last;
      var pre, post := b[..k], b[k + 1..];
      assert b == pre + ([last] + post);
      RemoveMatching(a, b, k);
      ExactTotalOrderFree(front, pre + post, now, d);
      ExactTotalAppend(pre, post, now, d);
      ExactTotalAppend(pre, [last] + post, now, d);
      ExactTotalAppend([last], post, now, d);
      ExactTotalOne(last, now, d);
    }
  }

  /** The contract's capped points do not depend on the order of the list. */
  lemma LoopOrderFree(a: seq<Credential>, b: seq<Credential>, now: u64, d: RecencyDecay)
    requires multiset(a) == multiset(b)
    ensures Min(LoopTotal(a, now, d), VC_CAP) == Min(LoopTotal(b, now, d), VC_CAP)
  {
    LoopRefinesExactSum(a, now, d);
    LoopRefinesExactSum(b, now, d);
    ExactTotalOrderFree(a, b, now, d);
  }

  /** An older credential is never worth more. */
  lemma PointsFadeWithAge(c: Credential, now: nat, later: nat, d: RecencyDecay)
    requires now <= later
    ensures ExactPoints(c, later, d) <= ExactPoints(c, now, d)
  {
    var points := BASE_POINTS * c.weight / 100;
    var old_, new_ := ExactBps(c.anchoredAt, now, d), ExactBps(c.anchoredAt, later, d);
    assert new_ <= old_ by {
      if d.enabled && c.anchoredAt <= now {
        MulBound((now - c.anchoredAt) / SECONDS_PER_DAY, d.perDay,
                 (later - c.anchoredAt) / SECONDS_PER_DAY, d.perDay);
      } else if d.enabled && c.anchoredAt <= later {
        MulBound((later - c.anchoredAt) / SECONDS_PER_DAY, d.perDay,
                 (later - c.anchoredAt) / SECONDS_PER_DAY, d.perDay);
      }
    }
    MulBound(points, new_, points, old_);
  }

  lemma {:induction false} TotalFadesWithAge(cs: seq<Credential>, now: nat, later: nat, d: RecencyDecay)
    requires now <= later
    ensures ExactTotal(cs, later, d) <= ExactTotal(cs, now, d)
  {
    if cs != [] {
      TotalFadesWithAge(cs[..|cs| - 1], now, later, d);
      PointsFadeWithAge(cs[|cs| - 1], now, later, d);
    }
  }
}
