/**
 The payout calculation of payout/service.go: traffic picks a tier, the tier's name picks the rates, and
 amounts under a minimum are dropped.
 */
module Payout {

  datatype Tier = Tier(name: string, minGB: int, maxGB: int, rateSent: real, rateRecv: real)

  datatype Rates = Rates(sent: real, received: real, minPayout: real)

  datatype Config = Config(tiers: seq<Tier>, rates: Rates)

  const GB: real := 1073741824.0

  const DEFAULT: Config := Config(
    [Tier("Basic", 0, 10, 0.30, 0.15), Tier("Premium", 10, 100, 0.50, 0.30),
     Tier("Enterprise", 100, 10000, 0.80, 0.50)],
    Rates(0.50, 0.30, 10.00))

  /** The first tier whose range holds the total, or "Basic", whether or not there is such a tier. */
  function FindTier(tiers: seq<Tier>, totalGB: real): string {
    if tiers == [] then "Basic"
    else if tiers[0].minGB as real <= totalGB < tiers[0].maxGB as real then tiers[0].name
    else FindTier(tiers[1..], totalGB)
  }

  /** The rates of the first tier of that name, or the default rates. */
  function TierRates(cfg: Config, tiers: seq<Tier>, name: string): (real, real) {
    if tiers == [] then (cfg.rates.sent, cfg.rates.received)
    else if tiers[0].name == name then (tiers[0].rateSent, tiers[0].rateRecv)
    else TierRates(cfg, tiers[1..], name)
  }

  function RatesFor(cfg: Config, totalGB: real): (real, real) {
    TierRates(cfg, cfg.tiers, FindTier(cfg.tiers, totalGB))
  }

  /** Before the minimum is applied. */
  function Gross(cfg: Config, sent: int, received: int): real {
    var gbSent, gbReceived := sent as real / GB, received as real / GB;
    var rates := RatesFor(cfg, gbSent + gbReceived);
    gbSent * rates.0 + gbReceived * rates.1
  }

  function Amount(cfg: Config, sent: int, received: int): real {
    if Gross(cfg, sent, received) < cfg.rates.minPayout then 0.0 else Gross(cfg, sent, received)
  }

  class PayoutService {
    var tiers: seq<Tier>
    var rates: Rates

    constructor ()
      ensures Now() == DEFAULT
    {
      tiers := DEFAULT.tiers;
      rates := DEFAULT.rates;
    }

    function Now(): Config
      reads this
    {
      Config(tiers, rates)
    }

    method SetTiers(newTiers: seq<Tier>)
      modifies `tiers
      ensures tiers == newTiers
    {
      tiers := newTiers;
    }

    method SetRates(newRates: Rates)
      modifies `rates
      ensures rates == newRates
    {
      rates := newRates;
    }

    /** The positive payouts of all nodes, in order; nodes whose bandwidth cannot be read are absent from the list. */
    method CalculateAllPayouts(bandwidths: seq<(int, int)>) returns (payouts: seq<real>)
      ensures payouts == Positive(Now(), bandwidths)
    {
      payouts := [];
      for i := 0 to |bandwidths|
        invariant payouts + Positive(Now(), bandwidths[i..]) == Positive(Now(), bandwidths)
      {
        assert bandwidths[i..][1..] == bandwidths[i + 1..];
        var amount := Amount(Now(), bandwidths[i].0, bandwidths[i].1);
        if amount > 0.0 {
          payouts := payouts + [amount];
        }
      }
    }
  }

  function Positive(cfg: Config, bandwidths: seq<(int, int)>): seq<real> {
    if bandwidths == [] then [] else
      var a := Amount(cfg, bandwidths[0].0, bandwidths[0].1);
      if a > 0.0 then [a] + Positive(cfg, bandwidths[1..]) else Positive(cfg, bandwidths[1..])
  }

  // ----- Well-formed tier tables

  /** Distinct names, ranges that start at zero and meet, and rates that are non-negative and do not decrease. */
  ghost predicate WellFormed(tiers: seq<Tier>) {
    && tiers != [] && tiers[0].minGB == 0
    && (forall i | 0 <= i < |tiers| ::
        tiers[i].minGB <= tiers[i].maxGB && tiers[i].rateSent >= 0.0 && tiers[i].rateRecv >= 0.0)
    && (forall i | 0 <= i < |tiers| - 1 :: tiers[i].maxGB == tiers[i + 1].minGB)
    && (forall i, j | 0 <= i < j < |tiers| :: tiers[i].name != tiers[j].name)
    && (forall i, j | 0 <= i < j < |tiers| ::
        tiers[i].rateSent <= tiers[j].rateSent && tiers[i].rateRecv <= tiers[j].rateRecv)
  }

  function Top(tiers: seq<Tier>): real
    requires tiers != []
  {
    tiers[|tiers| - 1].maxGB as real
  }

  /** Where a total below the top falls. */
  ghost predicate InTier(tiers: seq<Tier>, i: nat, total: real) {
    i < |tiers| && tiers[i].minGB as real <= total < tiers[i].maxGB as real
  }

  lemma {:induction false} Ranges(tiers: seq<Tier>, i: nat, j: nat)
    requires forall k | 0 <= k < |tiers| :: tiers[k].minGB <= tiers[k].maxGB
    requires forall k | 0 <= k < |tiers| - 1 :: tiers[k].maxGB == tiers[k + 1].minGB
    requires i < j < |tiers|
    ensures tiers[i].maxGB <= tiers[j].minGB
  {
    if i + 1 < j {
      Ranges(tiers, i, j - 1);
    }
  }

  /** Below the top every total falls into exactly one range. */
  lemma {:induction false} SomeTier(tiers: seq<Tier>, total: real, n: nat) returns (i: nat)
    requires WellFormed(tiers) && n < |tiers| && 0.0 <= total < tiers[n].maxGB as real
    ensures InTier(tiers, i, total)
    decreases n
  {
    if tiers[n].minGB as real <= total {
      i := n;
    } else {
      i := SomeTier(tiers, total, n - 1);
    }
  }

  lemma {:induction false} FindsThatTier(tiers: seq<Tier>, total: real, i: nat)
    requires InTier(tiers, i, total) && forall j | 0 <= j < |tiers| && j != i :: !InTier(tiers, j, total)
    ensures FindTier(tiers, total) == tiers[i].name
    decreases tiers
  {
    if i > 0 {
      assert !InTier(tiers, 0, total);
      forall j | 0 <= j < |tiers[1..]| && j != i - 1 ensures !InTier(tiers[1..], j, total) {
        assert !InTier(tiers, j + 1, total);
      }
      FindsThatTier(tiers[1..], total, i - 1);
    }
  }

  lemma {:induction false} FindsNoTier(tiers: seq<Tier>, total: real)
    requires forall j | 0 <= j < |tiers| :: !InTier(tiers, j, total)
    ensures FindTier(tiers, total) == "Basic"
  {
    if tiers != [] {
      assert !InTier(tiers, 0, total);
      forall j | 0 <= j < |tiers[1..]| ensures !InTier(tiers[1..], j, total) {
        assert !InTier(tiers, j + 1, total);
      }
      FindsNoTier(tiers[1..], total);
    }
  }

  lemma {:induction false} RatesOfName(cfg: Config, tiers: seq<Tier>, i: nat)
    requires i < |tiers| && forall j, k | 0 <= j < k < |tiers| :: tiers[j].name != tiers[k].name
    ensures TierRates(cfg, tiers, tiers[i].name) == (tiers[i].rateSent, tiers[i].rateRecv)
    decreases tiers
  {
    if i > 0 {
      RatesOfName(cfg, tiers[1..], i - 1);
    }
  }

  /** Below the top the rates are those of the range the total falls into. */
  lemma RatesBelowTop(cfg: Config, total: real) returns (i: nat)
    requires WellFormed(cfg.tiers) && 0.0 <= total < Top(cfg.tiers)
    ensures InTier(cfg.tiers, i, total) && RatesFor(cfg, total) == (cfg.tiers[i].rateSent, cfg.tiers[i].rateRecv)
  {
    i := SomeTier(cfg.tiers, total, |cfg.tiers| - 1);
    forall j | 0 <= j < |cfg.tiers| && j != i ensures !InTier(cfg.tiers, j, total) {
      if j < i {
        Ranges(cfg.tiers, j, i);
      } else {
        Ranges(cfg.tiers, i, j);
      }
    }
    FindsThatTier(cfg.tiers, total, i);
    RatesOfName(cfg, cfg.tiers, i);
  }

  /** At or past the top the rates are those of the name "Basic", wherever that tier stands, or the defaults. */
  lemma RatesAtTop(cfg: Config, total: real)
    requires WellFormed(cfg.tiers) && total >= Top(cfg.tiers)
    ensures RatesFor(cfg, total) == TierRates(cfg, cfg.tiers, "Basic")
  {
    forall j | 0 <= j < |cfg.tiers| ensures !InTier(cfg.tiers, j, total) {
      if j < |cfg.tiers| - 1 {
        Ranges(cfg.tiers, j, |cfg.tiers| - 1);
      }
    }
    FindsNoTier(cfg.tiers, total);
  }

  /** The rates for "Basic": a tier of that name gives them, and only without one do the defaults. */
  lemma {:induction false} BasicOrDefault(cfg: Config, tiers: seq<Tier>)
    ensures
      || (exists i | 0 <= i < |tiers| :: tiers[i].name == "Basic"
            && TierRates(cfg, tiers, "Basic") == (tiers[i].rateSent, tiers[i].rateRecv)
            && forall j | 0 <= j < i :: tiers[j].name != "Basic")
      || ((forall i | 0 <= i < |tiers| :: tiers[i].name != "Basic")
          && TierRates(cfg, tiers, "Basic") == (cfg.rates.sent, cfg.rates.received))
  {
    if tiers != [] && tiers[0].name != "Basic" {
      BasicOrDefault(cfg, tiers[1..]);
      if i :| 0 <= i < |tiers[1..]| && tiers[1..][i].name == "Basic"
              && TierRates(cfg, tiers[1..], "Basic") == (tiers[1..][i].rateSent, tiers[1..][i].rateRecv)
              && forall j | 0 <= j < i :: tiers[1..][j].name != "Basic" {
        assert tiers[i + 1] == tiers[1..][i];
        forall j | 0 <= j < i + 1 ensures tiers[j].name != "Basic" {
          assert j > 0 ==> tiers[j] == tiers[1..][j - 1];
        }
      } else {
        forall i | 0 <= i < |tiers| ensures tiers[i].name != "Basic" {
          assert i > 0 ==> tiers[i] == tiers[1..][i - 1];
        }
      }
    }
  }

  // ----- Monotonicity

  lemma Product(a: real, b: real, x: real, y: real)
    requires 0.0 <= a <= b && 0.0 <= x <= y
    ensures a * x <= b * y
  {
    assert a * x <= b * x;
    assert b * x <= b * y;
  }

  lemma HigherTierHigherRates(cfg: Config, total: real, more: real)
    requires WellFormed(cfg.tiers) && 0.0 <= total <= more < Top(cfg.tiers)
    ensures 0.0 <= RatesFor(cfg, total).0 <= RatesFor(cfg, more).0
    ensures 0.0 <= RatesFor(cfg, total).1 <= RatesFor(cfg, more).1
  {
    var i := RatesBelowTop(cfg, total);
    var j := RatesBelowTop(cfg, more);
    if j < i {
      Ranges(cfg.tiers, j, i);
    }
  }

  /** More traffic in either direction never pays less while the rates do not fall. */
  lemma GrossGrows(cfg: Config, sent: int, received: int, sent': int, received': int)
    requires 0 <= sent <= sent' && 0 <= received <= received'
    requires
      var r, r' := RatesFor(cfg, sent as real / GB + received as real / GB),
          RatesFor(cfg, sent' as real / GB + received' as real / GB);
      0.0 <= r.0 <= r'.0 && 0.0 <= r.1 <= r'.1
    ensures Gross(cfg, sent, received) <= Gross(cfg, sent', received')
  {
    var r, r' := RatesFor(cfg, sent as real / GB + received as real / GB),
        RatesFor(cfg, sent' as real / GB + received' as real / GB);
    GrossIs(cfg, sent, received);
    GrossIs(cfg, sent', received');
    hide RatesFor, Gross;
    SumGrows(sent as real / GB, sent' as real / GB, r.0, r'.0,
             received as real / GB, received' as real / GB, r.1, r'.1);
  }

  lemma SumGrows(a: real, b: real, x: real, y: real, c: real, d: real, u: real, v: real)
    requires 0.0 <= a <= b && 0.0 <= x <= y && 0.0 <= c <= d && 0.0 <= u <= v
    ensures a * x + c * u <= b * y + d * v
  {
    Product(a, b, x, y);
    Product(c, d, u, v);
  }

  lemma GrossIs(cfg: Config, sent: int, received: int)
    ensures
      var r := RatesFor(cfg, sent as real / GB + received as real / GB);
      Gross(cfg, sent, received) == sent as real / GB * r.0 + received as real / GB * r.1
  {
    hide RatesFor;
  }

  lemma CutKeepsOrder(cfg: Config, sent: int, received: int, sent': int, received': int)
    requires Gross(cfg, sent, received) <= Gross(cfg, sent', received')
    requires 0.0 <= Gross(cfg, sent', received')
    ensures Amount(cfg, sent, received) <= Amount(cfg, sent', received')
  {
  }

  lemma GrossNonNegative(cfg: Config, sent: int, received: int)
    requires sent >= 0 && received >= 0
    requires RatesFor(cfg, sent as real / GB + received as real / GB).0 >= 0.0
    requires RatesFor(cfg, sent as real / GB + received as real / GB).1 >= 0.0
    ensures Gross(cfg, sent, received) >= 0.0
  {
  }

  /** With a well-formed table, the payout is monotone in bytes sent and in bytes received for all totals below
      the last tier's maximum. */
  lemma MonotoneBelowTop(cfg: Config, sent: int, received: int, sent': int, received': int)
    requires WellFormed(cfg.tiers) && 0 <= sent <= sent' && 0 <= received <= received'
    requires sent' as real / GB + received' as real / GB < Top(cfg.tiers)
    ensures Amount(cfg, sent, received) <= Amount(cfg, sent', received')
  {
    HigherTierHigherRates(cfg, sent as real / GB + received as real / GB, sent' as real / GB + received' as real / GB);
    GrossGrows(cfg, sent, received, sent', received');
    GrossNonNegative(cfg, sent', received');
    CutKeepsOrder(cfg, sent, received, sent', received');
  }

  /** It is monotone again among totals at or past the maximum, at the fallback rates. */
  lemma MonotonePastTop(cfg: Config, sent: int, received: int, sent': int, received': int)
    requires WellFormed(cfg.tiers) && 0 <= sent <= sent' && 0 <= received <= received'
    requires sent as real / GB + received as real / GB >= Top(cfg.tiers)
    requires cfg.rates.sent >= 0.0 && cfg.rates.received >= 0.0
    ensures Amount(cfg, sent, received) <= Amount(cfg, sent', received')
  {
    RatesAtTop(cfg, sent as real / GB + received as real / GB);
    RatesAtTop(cfg, sent' as real / GB + received' as real / GB);
    BasicOrDefault(cfg, cfg.tiers);
    GrossGrows(cfg, sent, received, sent', received');
    GrossNonNegative(cfg, sent', received');
    CutKeepsOrder(cfg, sent, received, sent', received');
  }

  // ----- Across the maximum

  /** The last whole byte below the last tier's maximum. */
  function LastByte(tiers: seq<Tier>): int
    requires tiers != []
  {
    tiers[|tiers| - 1].maxGB * 1073741824 - 1
  }

  function Least(x: real, y: real): real {
    if x <= y then x else y
  }

  /** One more byte than the last one below the maximum, paid in the cheaper direction at the fallback rates, makes
      up for the fall of the rates, both when all traffic was sent and when all was received. */
  predicate FallIsCovered(cfg: Config)
    requires cfg.tiers != []
  {
    var n := LastByte(cfg.tiers) as real;
    Covered(n, RatesFor(cfg, n / GB), TierRates(cfg, cfg.tiers, "Basic"))
  }

  predicate Covered(n: real, last: (real, real), fallback: (real, real)) {
    var next := Least(fallback.0, fallback.1);
    n * (last.0 - fallback.0) <= next && n * (last.1 - fallback.1) <= next
  }

  /** What so many bytes each way are worth at given rates, before dividing by the size of a gigabyte. */
  function Worth(s: int, r: int, rates: (real, real)): real {
    s as real * rates.0 + r as real * rates.1
  }

  ghost predicate GrossMonotone(cfg: Config) {
    forall s: int, r: int, s': int, r': int | 0 <= s <= s' && 0 <= r <= r' ::
      Gross(cfg, s, r) <= Gross(cfg, s', r')
  }

  ghost predicate Monotone(cfg: Config) {
    forall s: int, r: int, s': int, r': int | 0 <= s <= s' && 0 <= r <= r' ::
      Amount(cfg, s, r) <= Amount(cfg, s', r')
  }

  /** The rates before and after the maximum are what the tier table and the defaults promise of rates. */
  ghost predicate Sane(cfg: Config) {
    WellFormed(cfg.tiers) && Top(cfg.tiers) > 0.0 && cfg.rates.sent >= 0.0 && cfg.rates.received >= 0.0
  }

  /** Dividing the bytes first or last is the same in exact arithmetic. */
  lemma GrossOfBytes(cfg: Config, s: int, r: int)
    ensures
      Gross(cfg, s, r) == Worth(s, r, RatesFor(cfg, (s + r) as real / GB)) / GB
  {
    assert s as real / GB + r as real / GB == (s + r) as real / GB;
    var rates := RatesFor(cfg, (s + r) as real / GB);
    PerByte(s as real, rates.0);
    PerByte(r as real, rates.1);
  }

  lemma PerByte(x: real, rate: real)
    ensures x / GB * rate == x * rate / GB
  {
  }

  /** A weighted mean of two quantities that n times over stay within c stays within c. */
  lemma WithinShare(n: real, s: real, r: real, a: real, b: real, c: real)
    requires n > 0.0 && s >= 0.0 && r >= 0.0 && s + r <= n && c >= 0.0
    requires n * a <= c && n * b <= c
    ensures s * a + r * b <= c
  {
    var share := c / n;
    assert n * share == c && share >= 0.0;
    AtMostShare(n, a, share);
    AtMostShare(n, b, share);
    assert s * a <= s * share && r * b <= r * share;
    assert (s + r) * share <= n * share;
  }

  lemma AtMostShare(n: real, a: real, share: real)
    requires n > 0.0 && n * a <= n * share
    ensures a <= share
  {
  }

  lemma FallbackNonNegative(cfg: Config)
    requires Sane(cfg)
    ensures TierRates(cfg, cfg.tiers, "Basic").0 >= 0.0 && TierRates(cfg, cfg.tiers, "Basic").1 >= 0.0
  {
    BasicOrDefault(cfg, cfg.tiers);
  }

  lemma CoveredCrossing(cfg: Config, s: int, r: int, s': int, r': int)
    requires Sane(cfg) && FallIsCovered(cfg) && 0 <= s <= s' && 0 <= r <= r'
    requires s + r <= LastByte(cfg.tiers) < s' + r'
    ensures Gross(cfg, s, r) <= Gross(cfg, s', r')
  {
    var n := LastByte(cfg.tiers) as real;
    var x, last := RatesFor(cfg, (s + r) as real / GB), RatesFor(cfg, n / GB);
    var f := TierRates(cfg, cfg.tiers, "Basic");
    GrossOfBytes(cfg, s, r);
    GrossOfBytes(cfg, s', r');
    RatesAtTop(cfg, (s' + r') as real / GB);
    HigherTierHigherRates(cfg, (s + r) as real / GB, n / GB);
    FallbackNonNegative(cfg);
    hide RatesFor, Gross, TierRates, WellFormed, Covered, Worth;
    CrossingWorth(n, s, r, s', r', x, last, f);
  }

  lemma CrossingWorth(n: real, s: int, r: int, s': int, r': int, x: (real, real), last: (real, real), f: (real, real))
    requires n > 0.0 && 0 <= s <= s' && 0 <= r <= r' && s + r < s' + r' && (s + r) as real <= n
    requires 0.0 <= x.0 <= last.0 && 0.0 <= x.1 <= last.1 && f.0 >= 0.0 && f.1 >= 0.0
    requires Covered(n, last, f)
    ensures Worth(s, r, x) <= Worth(s', r', f)
  {
    var ds, dr := (s' - s) as real, (r' - r) as real;
    CrossingArithmetic(n, s as real, r as real, ds, dr, x.0, x.1, last.0, last.1, f.0, f.1);
    assert s as real + ds == s' as real && r as real + dr == r' as real;
  }

  lemma CrossingArithmetic(n: real, s: real, r: real, ds: real, dr: real,
                           x: real, y: real, l: real, m: real, f: real, g: real)
    requires n > 0.0 && s >= 0.0 && r >= 0.0 && s + r <= n && ds >= 0.0 && dr >= 0.0 && ds + dr >= 1.0
    requires 0.0 <= x <= l && 0.0 <= y <= m && f >= 0.0 && g >= 0.0
    requires n * (l - f) <= Least(f, g) && n * (m - g) <= Least(f, g)
    ensures s * x + r * y <= (s + ds) * f + (r + dr) * g
  {
    assert Least(f, g) >= 0.0;
    hide Least;
    Product(s, s, x, l);
    Product(r, r, y, m);
    FallWithinShare(n, s, r, l, m, f, g, Least(f, g));
    NextByte(ds, dr, f, g);
    Expand(s, ds, f);
    Expand(r, dr, g);
  }

  lemma FallWithinShare(n: real, s: real, r: real, l: real, m: real, f: real, g: real, c: real)
    requires n > 0.0 && s >= 0.0 && r >= 0.0 && s + r <= n && c >= 0.0
    requires n * (l - f) <= c && n * (m - g) <= c
    ensures s * l + r * m <= s * f + r * g + c
  {
    WithinShare(n, s, r, l - f, m - g, c);
    Distribute(s, l, f);
    Distribute(r, m, g);
  }

  lemma Expand(a: real, b: real, c: real)
    ensures (a + b) * c == a * c + b * c
  {
  }

  lemma Distribute(a: real, b: real, c: real)
    ensures a * (b - c) == a * b - a * c
  {
  }

  lemma NextByte(ds: real, dr: real, f: real, g: real)
    requires ds >= 0.0 && dr >= 0.0 && ds + dr >= 1.0 && f >= 0.0 && g >= 0.0
    ensures ds * f + dr * g >= Least(f, g)
  {
    var c := Least(f, g);
    assert 0.0 <= c <= f && c <= g;
    hide Least;
    SumGrows(ds, ds, c, f, dr, dr, c, g);
    AtLeastOne(ds + dr, c);
    Expand(ds, dr, c);
  }

  lemma AtLeastOne(a: real, c: real)
    requires a >= 1.0 && c >= 0.0
    ensures a * c >= c
  {
    assert (a - 1.0) * c >= 0.0;
  }

  /** Before the minimum is applied, the payout is monotone over all traffic if and only if the fall of the rates
      at the last tier's maximum is covered. */
  lemma GrossMonotoneExactlyWhenCovered(cfg: Config)
    requires Sane(cfg)
    ensures GrossMonotone(cfg) <==> FallIsCovered(cfg)
  {
    if FallIsCovered(cfg) {
      forall s: int, r: int, s': int, r': int | 0 <= s <= s' && 0 <= r <= r'
        ensures Gross(cfg, s, r) <= Gross(cfg, s', r')
      {
        GrossMonotoneWhenCovered(cfg, s, r, s', r');
      }
    } else {
      var s, r, s', r' := UncoveredStep(cfg);
    }
  }

  lemma GrossMonotoneWhenCovered(cfg: Config, s: int, r: int, s': int, r': int)
    requires Sane(cfg) && FallIsCovered(cfg) && 0 <= s <= s' && 0 <= r <= r'
    ensures Gross(cfg, s, r) <= Gross(cfg, s', r') && Gross(cfg, s', r') >= 0.0
  {
    var before, after := s as real / GB + r as real / GB, s' as real / GB + r' as real / GB;
    FallbackNonNegative(cfg);
    if after < Top(cfg.tiers) {
      HigherTierHigherRates(cfg, before, after);
      GrossGrows(cfg, s, r, s', r');
    } else {
      RatesAtTop(cfg, after);
      if before >= Top(cfg.tiers) {
        RatesAtTop(cfg, before);
        GrossGrows(cfg, s, r, s', r');
      } else {
        CoveredCrossing(cfg, s, r, s', r');
      }
    }
    GrossNonNegative(cfg, s', r');
  }

  /** If the fall is not covered, one byte more pays less. */
  lemma UncoveredStep(cfg: Config) returns (s: int, r: int, s': int, r': int)
    requires Sane(cfg) && !FallIsCovered(cfg)
    ensures 0 <= s <= s' && 0 <= r <= r' && s' + r' == s + r + 1
    ensures s + r == LastByte(cfg.tiers) && (s == 0 || r == 0)
    ensures Gross(cfg, s, r) > Gross(cfg, s', r') >= 0.0
  {
    var n := LastByte(cfg.tiers);
    var last, f := RatesFor(cfg, n as real / GB), TierRates(cfg, cfg.tiers, "Basic");
    assert n > 0;
    hide RatesFor, TierRates, Gross, WellFormed, Covered, Worth;
    s, r, s', r' := ChooseStep(n, last, f);
    StepAcross(cfg, s, r, s', r', last, f);
  }

  lemma ChooseStep(n: nat, last: (real, real), fallback: (real, real)) returns (s: int, r: int, s': int, r': int)
    requires !Covered(n as real, last, fallback)
    ensures 0 <= s <= s' && 0 <= r <= r' && s' + r' == n + 1 && s + r == n && (s == 0 || r == 0)
    ensures Worth(s, r, last) > Worth(s', r', fallback)
  {
    var (f, g) := fallback;
    if n as real * (last.0 - f) > Least(f, g) {
      OneMoreByte(n as real, last.0, f, g);
      s, r := n, 0;
    } else {
      OneMoreByte(n as real, last.1, g, f);
      s, r := 0, n;
    }
    if f <= g {
      s', r' := s + 1, r;
    } else {
      s', r' := s, r + 1;
    }
  }

  lemma StepAcross(cfg: Config, s: int, r: int, s': int, r': int, last: (real, real), f: (real, real))
    requires Sane(cfg) && 0 <= s && 0 <= r && 0 <= s' && 0 <= r'
    requires s + r == LastByte(cfg.tiers) && s' + r' == LastByte(cfg.tiers) + 1
    requires last == RatesFor(cfg, LastByte(cfg.tiers) as real / GB) && f == TierRates(cfg, cfg.tiers, "Basic")
    requires Worth(s, r, last) > Worth(s', r', f)
    ensures Gross(cfg, s, r) > Gross(cfg, s', r') >= 0.0
  {
    FallbackNonNegative(cfg);
    RatesAtTop(cfg, (s' + r') as real / GB);
    GrossOfBytes(cfg, s, r);
    GrossOfBytes(cfg, s', r');
    GrossNonNegative(cfg, s', r');
  }

  lemma OneMoreByte(n: real, l: real, f: real, g: real)
    requires n * (l - f) > Least(f, g)
    ensures if f <= g then n * l > (n + 1.0) * f else n * l > n * f + g
  {
    Distribute(n, l, f);
  }

  /** The same over every split of the last byte count below the maximum, of which only those that reach the minimum
      matter. */
  ghost predicate SplitsAreCovered(cfg: Config)
    requires cfg.tiers != []
  {
    forall s: int | 0 <= s <= LastByte(cfg.tiers) :: SplitIsCovered(cfg, s)
  }

  predicate SplitIsCovered(cfg: Config, s: int)
    requires cfg.tiers != []
  {
    var r := LastByte(cfg.tiers) - s;
    var last, fallback := RatesFor(cfg, LastByte(cfg.tiers) as real / GB), TierRates(cfg, cfg.tiers, "Basic");
    Worth(s, r, last) / GB >= cfg.rates.minPayout ==>
      Worth(s, r, last) <= Worth(s, r, fallback) + Least(fallback.0, fallback.1)
  }

  /** One byte after an uncovered split pays less. */
  lemma UncoveredSplit(cfg: Config, s: int) returns (s': int, r': int)
    requires Sane(cfg) && 0 <= s <= LastByte(cfg.tiers) && !SplitIsCovered(cfg, s)
    ensures s <= s' && LastByte(cfg.tiers) - s <= r'
    ensures Amount(cfg, s, LastByte(cfg.tiers) - s) > Amount(cfg, s', r')
  {
    var r := LastByte(cfg.tiers) - s;
    var last, f := RatesFor(cfg, LastByte(cfg.tiers) as real / GB), TierRates(cfg, cfg.tiers, "Basic");
    s', r' := ByteMore(s, r, f);
    GrossOfBytes(cfg, s, r);
    hide RatesFor, TierRates, Worth, Gross, WellFormed;
    StepAcross(cfg, s, r, s', r', last, f);
  }

  lemma ByteMore(s: int, r: int, f: (real, real)) returns (s': int, r': int)
    ensures s <= s' && r <= r' && s' + r' == s + r + 1
    ensures Worth(s', r', f) == Worth(s, r, f) + Least(f.0, f.1)
  {
    if f.0 <= f.1 {
      s', r' := s + 1, r;
    } else {
      s', r' := s, r + 1;
    }
  }

  /** A pair of traffics across the maximum that loses comes from an uncovered split: filling it up to the last byte
      in a direction whose rate falls loses at least as much. */
  lemma LossShowsInSplit(cfg: Config, s: int, r: int, s': int, r': int) returns (split: int)
    requires Sane(cfg) && 0 <= s <= s' && 0 <= r <= r' && s + r <= LastByte(cfg.tiers) < s' + r'
    requires Gross(cfg, s, r) > Gross(cfg, s', r') && Gross(cfg, s, r) >= cfg.rates.minPayout
    ensures 0 <= split <= LastByte(cfg.tiers) && !SplitIsCovered(cfg, split)
  {
    var n := LastByte(cfg.tiers);
    var x, last := RatesFor(cfg, (s + r) as real / GB), RatesFor(cfg, n as real / GB);
    var f := TierRates(cfg, cfg.tiers, "Basic");
    GrossOfBytes(cfg, s, r);
    GrossOfBytes(cfg, s', r');
    RatesAtTop(cfg, (s' + r') as real / GB);
    HigherTierHigherRates(cfg, (s + r) as real / GB, n as real / GB);
    FallbackNonNegative(cfg);
    hide RatesFor, Gross, TierRates, WellFormed, Worth;
    split := FillUp(n, s, r, s', r', x, last, f);
  }

  lemma FillUp(n: int, s: int, r: int, s': int, r': int, x: (real, real), last: (real, real), f: (real, real))
      returns (split: int)
    requires 0 <= s <= s' && 0 <= r <= r' && s + r <= n < s' + r'
    requires 0.0 <= x.0 <= last.0 && 0.0 <= x.1 <= last.1 && f.0 >= 0.0 && f.1 >= 0.0
    requires Worth(s, r, x) > Worth(s', r', f)
    ensures 0 <= split <= n && Worth(split, n - split, last) >= Worth(s, r, x)
    ensures Worth(split, n - split, last) > Worth(split, n - split, f) + Least(f.0, f.1)
  {
    BytesPay(s, r, s', r', f);
    Product(s as real, s as real, x.0, last.0);
    Product(r as real, r as real, x.1, last.1);
    assert Worth(s, r, last) >= Worth(s, r, x);
    hide Worth;
    if last.0 > f.0 {
      split := n - r;
      MoreSent(s, n - r, r, last, f);
    } else {
      OtherRateFalls(s, r, last, f);
      split := s;
      MoreReceived(s, r, n - s, last, f);
    }
  }

  /** At least one byte more, at the fallback rates. */
  lemma BytesPay(s: int, r: int, s': int, r': int, f: (real, real))
    requires 0 <= s <= s' && 0 <= r <= r' && s + r < s' + r' && f.0 >= 0.0 && f.1 >= 0.0
    ensures Worth(s', r', f) >= Worth(s, r, f) + Least(f.0, f.1)
  {
    var ds, dr := (s' - s) as real, (r' - r) as real;
    NextByte(ds, dr, f.0, f.1);
    Distribute(f.0, s as real, -ds);
    Distribute(f.1, r as real, -dr);
  }

  lemma MoreSent(s: int, more: int, r: int, last: (real, real), f: (real, real))
    requires s <= more && last.0 >= f.0 >= 0.0
    ensures Worth(more, r, last) >= Worth(s, r, last)
    ensures Worth(more, r, last) - Worth(more, r, f) >= Worth(s, r, last) - Worth(s, r, f)
  {
    MoreAtRate(s as real, (more - s) as real, last.0, f.0);
  }

  lemma MoreReceived(s: int, r: int, more: int, last: (real, real), f: (real, real))
    requires r <= more && last.1 >= f.1 >= 0.0
    ensures Worth(s, more, last) >= Worth(s, r, last)
    ensures Worth(s, more, last) - Worth(s, more, f) >= Worth(s, r, last) - Worth(s, r, f)
  {
    MoreAtRate(r as real, (more - r) as real, last.1, f.1);
  }

  lemma MoreAtRate(a: real, d: real, x: real, y: real)
    requires d >= 0.0 && x >= y >= 0.0
    ensures (a + d) * x >= a * x && (a + d) * x - (a + d) * y >= a * x - a * y
  {
    Product(d, d, y, x);
    assert d * y >= 0.0;
    Expand(a, d, x);
    Expand(a, d, y);
  }

  lemma OtherRateFalls(s: int, r: int, last: (real, real), f: (real, real))
    requires s >= 0 && r >= 0 && last.0 <= f.0 && Worth(s, r, last) > Worth(s, r, f)
    ensures last.1 > f.1
  {
    Distribute(s as real, f.0, last.0);
    Distribute(r as real, last.1, f.1);
    assert s as real * (f.0 - last.0) >= 0.0;
    PositiveFactor(r as real, last.1 - f.1);
  }

  lemma PositiveFactor(x: real, y: real)
    requires x >= 0.0 && x * y > 0.0
    ensures y > 0.0
  {
  }

  /** The exact line for what is paid: the payout is monotone over all traffic if and only if every split of the last
      byte count below the maximum that reaches the minimum is covered by one byte more. */
  lemma MonotoneExactlyWhenSplitsCovered(cfg: Config)
    requires Sane(cfg) && cfg.rates.minPayout >= 0.0
    ensures Monotone(cfg) <==> SplitsAreCovered(cfg)
  {
    if SplitsAreCovered(cfg) {
      forall s: int, r: int, s': int, r': int | 0 <= s <= s' && 0 <= r <= r'
        ensures Amount(cfg, s, r) <= Amount(cfg, s', r')
      {
        MonotoneWhenSplitsCovered(cfg, s, r, s', r');
      }
    } else {
      var s: int :| 0 <= s <= LastByte(cfg.tiers) && !SplitIsCovered(cfg, s);
      var s', r' := UncoveredSplit(cfg, s);
    }
  }

  /** Two splits decide when both reach the minimum: all sent and all received. */
  lemma EndsDecide(cfg: Config)
    requires Sane(cfg)
    ensures FallIsCovered(cfg) ==> SplitsAreCovered(cfg)
    ensures
      var n := LastByte(cfg.tiers);
      Gross(cfg, n, 0) >= cfg.rates.minPayout && Gross(cfg, 0, n) >= cfg.rates.minPayout ==>
        (FallIsCovered(cfg) <==> SplitsAreCovered(cfg))
  {
    var n := LastByte(cfg.tiers);
    var last, f := RatesFor(cfg, n as real / GB), TierRates(cfg, cfg.tiers, "Basic");
    FallbackNonNegative(cfg);
    GrossOfBytes(cfg, n, 0);
    GrossOfBytes(cfg, 0, n);
    hide RatesFor, TierRates, WellFormed, Gross, Worth, Covered;
    if FallIsCovered(cfg) {
      forall s: int | 0 <= s <= n ensures SplitIsCovered(cfg, s) {
        CoveredSplit(n, s, last, f);
      }
    } else if SplitIsCovered(cfg, n) && SplitIsCovered(cfg, 0) {
      if Gross(cfg, n, 0) >= cfg.rates.minPayout && Gross(cfg, 0, n) >= cfg.rates.minPayout {
        CoveredEnds(n, last, f);
      }
    }
  }

  lemma CoveredSplit(n: int, s: int, last: (real, real), f: (real, real))
    requires 0 <= s <= n && n > 0 && f.0 >= 0.0 && f.1 >= 0.0 && Covered(n as real, last, f)
    ensures Worth(s, n - s, last) <= Worth(s, n - s, f) + Least(f.0, f.1)
  {
    WithinShare(n as real, s as real, (n - s) as real, last.0 - f.0, last.1 - f.1, Least(f.0, f.1));
    Distribute(s as real, last.0, f.0);
    Distribute((n - s) as real, last.1, f.1);
  }

  lemma CoveredEnds(n: int, last: (real, real), f: (real, real))
    requires Worth(n, 0, last) <= Worth(n, 0, f) + Least(f.0, f.1)
    requires Worth(0, n, last) <= Worth(0, n, f) + Least(f.0, f.1)
    ensures Covered(n as real, last, f)
  {
    Distribute(n as real, last.0, f.0);
    Distribute(n as real, last.1, f.1);
  }

  lemma MonotoneWhenSplitsCovered(cfg: Config, s: int, r: int, s': int, r': int)
    requires Sane(cfg) && cfg.rates.minPayout >= 0.0 && SplitsAreCovered(cfg) && 0 <= s <= s' && 0 <= r <= r'
    ensures Amount(cfg, s, r) <= Amount(cfg, s', r')
  {
    if s' as real / GB + r' as real / GB < Top(cfg.tiers) {
      MonotoneBelowTop(cfg, s, r, s', r');
    } else if s as real / GB + r as real / GB >= Top(cfg.tiers) {
      MonotonePastTop(cfg, s, r, s', r');
    } else {
      RatesAtTop(cfg, s' as real / GB + r' as real / GB);
      FallbackNonNegative(cfg);
      GrossNonNegative(cfg, s', r');
      if Gross(cfg, s, r) > Gross(cfg, s', r') && Gross(cfg, s, r) >= cfg.rates.minPayout {
        var split := LossShowsInSplit(cfg, s, r, s', r');
      }
      hide Gross;
    }
  }

  lemma DefaultIsWellFormed()
    ensures WellFormed(DEFAULT.tiers) && Top(DEFAULT.tiers) == 10000.0
    ensures TierRates(DEFAULT, DEFAULT.tiers, "Basic") == (0.30, 0.15)
  {
    assert DEFAULT.tiers[0].name == "Basic" && DEFAULT.tiers[1].name == "Premium"
           && DEFAULT.tiers[2].name == "Enterprise";
    assert "Basic" != "Premium" && "Basic" != "Enterprise" && "Premium" != "Enterprise" by {
      assert |"Basic"| == 5 && |"Premium"| == 7 && |"Enterprise"| == 10;
    }
  }

  /** With the default table it does pay less: the last gigabyte below 10000 sent costs 4999.20 of 7999.20. */
  lemma DefaultPaysLessAtTop()
    ensures Amount(DEFAULT, 9999 * 1073741824, 0) == 7999.20
    ensures Amount(DEFAULT, 10000 * 1073741824, 0) == 3000.00
  {
    DefaultIsWellFormed();
    assert (9999 * 1073741824) as real / GB == 9999.0 && (10000 * 1073741824) as real / GB == 10000.0;
    var i := RatesBelowTop(DEFAULT, 9999.0);
    assert i == 2;
    RatesAtTop(DEFAULT, 10000.0);
  }

  /** With a non-negative minimum a payout is nothing or at least the minimum, for any table and traffic. */
  lemma NothingOrMinimum(cfg: Config, sent: int, received: int)
    requires cfg.rates.minPayout >= 0.0
    ensures Amount(cfg, sent, received) == 0.0 || Amount(cfg, sent, received) >= cfg.rates.minPayout
  {
  }

  // ----- The amount in bytes, and the list of payouts

  /** A payout without division: each direction's bytes at its rate, or nothing if that is under the minimum. */
  lemma AmountInBytes(cfg: Config, sent: int, received: int)
    ensures
      var rates := RatesFor(cfg, sent as real / GB + received as real / GB);
      var earned := sent as real * rates.0 + received as real * rates.1;
      Amount(cfg, sent, received) * GB == if earned < cfg.rates.minPayout * GB then 0.0 else earned
  {
    var rates := RatesFor(cfg, sent as real / GB + received as real / GB);
    hide RatesFor;
    AtRate(sent as real, rates.0);
    AtRate(received as real, rates.1);
  }

  lemma AtRate(bytes: real, rate: real)
    ensures bytes / GB * rate * GB == bytes * rate
  {
    var gb := bytes / GB;
    assert gb * GB == bytes;
    assert gb * rate * GB == gb * GB * rate;
  }

  /** The list of payouts follows the list of nodes, a part at a time. */
  lemma {:induction false} PositiveSplits(cfg: Config, first: seq<(int, int)>, second: seq<(int, int)>)
    ensures Positive(cfg, first + second) == Positive(cfg, first) + Positive(cfg, second)
  {
    hide Positive;
    if first == [] {
      assert first + second == second;
      NothingPaid(cfg, first);
    } else {
      PositiveSplits(cfg, first[1..], second);
      assert (first + second)[1..] == first[1..] + second;
      FirstPaid(cfg, first);
      FirstPaid(cfg, first + second);
    }
  }

  lemma NothingPaid(cfg: Config, bandwidths: seq<(int, int)>)
    ensures bandwidths == [] ==> Positive(cfg, bandwidths) == []
  {
  }

  lemma FirstPaid(cfg: Config, bandwidths: seq<(int, int)>)
    requires bandwidths != []
    ensures
      var a := Amount(cfg, bandwidths[0].0, bandwidths[0].1);
      Positive(cfg, bandwidths) == (if a > 0.0 then [a] else []) + Positive(cfg, bandwidths[1..])
  {
    hide Amount;
  }

  function Total(amounts: seq<real>): real {
    if amounts == [] then 0.0 else amounts[0] + Total(amounts[1..])
  }

  function Amounts(cfg: Config, bandwidths: seq<(int, int)>): seq<real> {
    if bandwidths == [] then []
    else [Amount(cfg, bandwidths[0].0, bandwidths[0].1)] + Amounts(cfg, bandwidths[1..])
  }

  /** Leaving out the nodes without a payout changes no total, as long as no amount is negative. */
  lemma {:induction false} PaidInFull(cfg: Config, bandwidths: seq<(int, int)>)
    requires forall i | 0 <= i < |bandwidths| :: Amount(cfg, bandwidths[i].0, bandwidths[i].1) >= 0.0
    ensures Total(Positive(cfg, bandwidths)) == Total(Amounts(cfg, bandwidths))
    ensures forall a | a in Positive(cfg, bandwidths) :: a > 0.0
  {
    hide Amount;
    if bandwidths != [] {
      assert forall i | 0 <= i < |bandwidths[1..]| :: bandwidths[1..][i] == bandwidths[i + 1];
      PaidInFull(cfg, bandwidths[1..]);
    }
  }
}
