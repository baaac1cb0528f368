/**
 The bandwidth shaper of gateway/ddos_shaper.go: per client, a bucket of byte tokens refilled with
 elapsed time on every call.  A refused call keeps the refill but does not move the clock it is
 measured from.
 */
module TokenBucket {

  const SECOND: int := 1_000_000_000
  const MINUTE: int := 60 * SECOND

  datatype Bucket = Bucket(tokens: int, lastUpdate: int, rate: int, burst: int)

  /** int64(float64(rate) * elapsed): the product of non-negative numbers, truncated. */
  function Credit(rate: int, elapsed: int): int {
    rate * elapsed / SECOND
  }

  function Capped(tokens: int, burst: int): int {
    if tokens > burst then burst else tokens
  }

  /** One call on a known client's bucket. */
  function Step(b: Bucket, now: int, bytes: int): (Bucket, bool) {
    var tokens := Capped(b.tokens + Credit(b.rate, now - b.lastUpdate), b.burst);
    if tokens >= bytes then (b.(tokens := tokens - bytes, lastUpdate := now), true)
    else (b.(tokens := tokens), false)
  }

  type Table = map<string, Bucket>

  /** What every new client's bucket starts from. */
  datatype Defaults = Defaults(rate: int, burst: int)

  /** First contact fills the bucket and lets the call through without charging it. */
  function Serve(table: Table, client: string, now: int, bytes: int, d: Defaults): (Table, bool) {
    if client !in table then (table[client := Bucket(d.burst, now, d.rate, d.burst)], true)
    else
      var (b, ok) := Step(table[client], now, bytes);
      (table[client := b], ok)
  }

  /** Not charged for more than ten minutes. */
  predicate Stale(b: Bucket, now: int) {
    now - b.lastUpdate > 10 * MINUTE
  }

  function Swept(table: Table, now: int): Table {
    map c | c in table && !Stale(table[c], now) :: table[c]
  }

  class TrafficShaper {
    var bandwidths: map<string, Bucket>
    const defaultRate: int
    const defaultBurst: int

    constructor (defaultRate: int, defaultBurst: int)
      ensures bandwidths == map[] && this.defaultRate == defaultRate && this.defaultBurst == defaultBurst
    {
      bandwidths := map[];
      this.defaultRate := defaultRate;
      this.defaultBurst := defaultBurst;
    }

    method CheckBandwidth(clientIP: string, bytes: int, now: int) returns (allowed: bool)
      modifies `bandwidths
      ensures (bandwidths, allowed)
              == Serve(old(bandwidths), clientIP, now, bytes, Defaults(defaultRate, defaultBurst))
    {
      if clientIP !in bandwidths {
        bandwidths := bandwidths[clientIP := Bucket(defaultBurst, now, defaultRate, defaultBurst)];
        return true;
      }
      var bw := bandwidths[clientIP];
      var elapsed := now - bw.lastUpdate;
      bw := bw.(tokens := bw.tokens + bw.rate * elapsed / SECOND);
      if bw.tokens > bw.burst {
        bw := bw.(tokens := bw.burst);
      }
      allowed := bw.tokens >= bytes;
      if allowed {
        bw := bw.(tokens := bw.tokens - bytes, lastUpdate := now);
      }
      bandwidths := bandwidths[clientIP := bw];
    }

    /** One tick of the cleanup loop: forgets stale buckets, in any order. */
    method Cleanup(now: int)
      modifies `bandwidths
      ensures bandwidths == Swept(old(bandwidths), now)
    {
      var left := bandwidths.Keys;
      while left != {}
        invariant left <= bandwidths.Keys <= old(bandwidths).Keys
        invariant forall c | c in bandwidths :: bandwidths[c] == old(bandwidths)[c]
        invariant forall c | c in old(bandwidths) && c !in left ::
                    c in bandwidths <==> now - old(bandwidths)[c].lastUpdate <= 10 * MINUTE
        decreases left
      {
        var ip :| ip in left;
        if now - bandwidths[ip].lastUpdate > 10 * MINUTE {
          bandwidths := bandwidths - {ip};
        }
        left := left - {ip};
      }
    }
  }

  // ----- Runs of one client's bucket

  datatype Call = Call(now: int, bytes: int)

  ghost predicate Clocked(calls: seq<Call>, from: int)
    decreases calls
  {
    calls == [] || (from <= calls[0].now && calls[0].bytes >= 0 && Clocked(calls[1..], calls[0].now))
  }

  function After(b: Bucket, calls: seq<Call>): Bucket
    decreases calls
  {
    if calls == [] then b else After(Step(b, calls[0].now, calls[0].bytes).0, calls[1..])
  }

  /** Bytes let through over a run. */
  function Passed(b: Bucket, calls: seq<Call>): int
    decreases calls
  {
    if calls == [] then 0 else
      var (next, ok) := Step(b, calls[0].now, calls[0].bytes);
      (if ok then calls[0].bytes else 0) + Passed(next, calls[1..])
  }

  /** What the refused calls of a run credited, before any cap. */
  function RefusedCredit(b: Bucket, calls: seq<Call>): int
    decreases calls
  {
    if calls == [] then 0 else
      var (next, ok) := Step(b, calls[0].now, calls[0].bytes);
      (if ok then 0 else Credit(b.rate, calls[0].now - b.lastUpdate)) + RefusedCredit(next, calls[1..])
  }

  ghost predicate Sane(b: Bucket) {
    b.rate >= 0 && 0 <= b.tokens <= b.burst
  }

  lemma CreditIsNonNegative(rate: int, elapsed: int)
    requires rate >= 0 && elapsed >= 0
    ensures Credit(rate, elapsed) >= 0
  {
  }

  /** Truncating each part loses at least as much as truncating the whole. */
  lemma CreditsAdd(rate: int, d: int, e: int)
    ensures Credit(rate, d) + Credit(rate, e) <= Credit(rate, d + e)
  {
    assert rate * (d + e) == rate * d + rate * e;
    DivAdd(rate * d, rate * e);
  }

  lemma DivAdd(x: int, y: int)
    ensures x / SECOND + y / SECOND <= (x + y) / SECOND
  {
  }

  /** Tokens stay between nothing and the burst size in every run. */
  lemma {:induction false} TokensStayInRange(b: Bucket, calls: seq<Call>, from: int)
    requires Sane(b) && b.lastUpdate <= from && Clocked(calls, from)
    ensures Sane(After(b, calls)) && After(b, calls).rate == b.rate && After(b, calls).burst == b.burst
    ensures b.lastUpdate <= After(b, calls).lastUpdate
    decreases calls
  {
    if calls != [] {
      CreditIsNonNegative(b.rate, calls[0].now - b.lastUpdate);
      TokensStayInRange(Step(b, calls[0].now, calls[0].bytes).0, calls[1..], calls[0].now);
    }
  }

  /** The account of every run: what passed plus what is left never exceeds what was there, what the charged
      time earned, and what refused calls earned on top of it. */
  lemma {:induction false} Account(b: Bucket, calls: seq<Call>, from: int)
    requires Sane(b) && b.lastUpdate <= from && Clocked(calls, from)
    ensures Passed(b, calls) + After(b, calls).tokens
            <= b.tokens + Credit(b.rate, After(b, calls).lastUpdate - b.lastUpdate) + RefusedCredit(b, calls)
    decreases calls
  {
    if calls != [] {
      var c := calls[0];
      var next := Step(b, c.now, c.bytes).0;
      CreditIsNonNegative(b.rate, c.now - b.lastUpdate);
      Account(next, calls[1..], c.now);
      TokensStayInRange(next, calls[1..], c.now);
      CreditsAdd(b.rate, next.lastUpdate - b.lastUpdate, After(next, calls[1..]).lastUpdate - next.lastUpdate);
    }
  }

  function Refusals(b: Bucket, calls: seq<Call>): nat
    decreases calls
  {
    if calls == [] then 0 else
      var (next, ok) := Step(b, calls[0].now, calls[0].bytes);
      (if ok then 0 else 1) + Refusals(next, calls[1..])
  }

  lemma {:induction false} NoRefusalNoCredit(b: Bucket, calls: seq<Call>)
    requires Refusals(b, calls) == 0
    ensures RefusedCredit(b, calls) == 0
    decreases calls
  {
    if calls != [] {
      NoRefusalNoCredit(Step(b, calls[0].now, calls[0].bytes).0, calls[1..]);
    }
  }

  /** Over a stretch without refusals the bytes passed stay within burst + rate * elapsed. */
  lemma RefusalFreeBound(b: Bucket, calls: seq<Call>, from: int)
    requires Sane(b) && b.lastUpdate <= from && Clocked(calls, from) && Refusals(b, calls) == 0
    ensures Passed(b, calls) <= b.burst + Credit(b.rate, After(b, calls).lastUpdate - b.lastUpdate)
  {
    Account(b, calls, from);
    NoRefusalNoCredit(b, calls);
    TokensStayInRange(b, calls, from);
  }

  /** The credits k refused calls would add, each measured from the same charge. */
  function Overlapping(b: Bucket, calls: seq<Call>): int
  {
    if calls == [] then 0
    else Overlapping(b, calls[..|calls| - 1]) + Credit(b.rate, calls[|calls| - 1].now - b.lastUpdate)
  }

  lemma {:induction false} AfterLast(b: Bucket, calls: seq<Call>)
    requires calls != []
    ensures
      var front, last := calls[..|calls| - 1], calls[|calls| - 1];
      && After(b, calls) == Step(After(b, front), last.now, last.bytes).0
      && Refusals(b, calls) == Refusals(b, front) + if Step(After(b, front), last.now, last.bytes).1 then 0 else 1
    decreases calls
  {
    var front, last := calls[..|calls| - 1], calls[|calls| - 1];
    if |calls| > 1 {
      var next := Step(b, calls[0].now, calls[0].bytes).0;
      AfterLast(next, calls[1..]);
      assert front[1..] == calls[1..][..|calls| - 2];
      assert front[0] == calls[0];
    } else {
      assert front == [];
    }
  }

  lemma {:induction false} RefusalsAtMostAll(b: Bucket, calls: seq<Call>)
    ensures Refusals(b, calls) <= |calls|
    decreases calls
  {
    if calls != [] {
      RefusalsAtMostAll(Step(b, calls[0].now, calls[0].bytes).0, calls[1..]);
    }
  }

  lemma {:induction false} ClockedFront(calls: seq<Call>, from: int, n: nat)
    requires Clocked(calls, from) && n <= |calls|
    ensures Clocked(calls[..n], from) && (n < |calls| ==> from <= calls[n].now)
    decreases calls
  {
    if calls != [] && n > 0 {
      assert calls[..n][1..] == calls[1..][..n - 1];
      ClockedFront(calls[1..], calls[0].now, n - 1);
    }
  }

  /** After any run of refusals the tokens are the capped sum of all their overlapping credits, and the charge
      they are measured from has not moved. */
  lemma {:induction false} RefusalsCreditAgain(b: Bucket, calls: seq<Call>, from: int)
    requires Sane(b) && b.lastUpdate <= from && Clocked(calls, from) && Refusals(b, calls) == |calls|
    ensures After(b, calls) == b.(tokens := Capped(b.tokens + Overlapping(b, calls), b.burst))
    ensures Overlapping(b, calls) >= 0
    decreases |calls|
  {
    if calls != [] {
      var front, last := calls[..|calls| - 1], calls[|calls| - 1];
      AfterLast(b, calls);
      RefusalsAtMostAll(b, front);
      ClockedFront(calls, from, |calls| - 1);
      RefusalsCreditAgain(b, front, from);
      CreditIsNonNegative(b.rate, last.now - b.lastUpdate);
    }
  }

  /** So a refused client only has to repeat itself: n calls at one instant multiply its credit by n, up to the
      burst. */
  lemma {:induction false} RetryingMultipliesCredit(b: Bucket, calls: seq<Call>, now: int)
    requires Sane(b) && b.lastUpdate <= now && Refusals(b, calls) == |calls|
    requires forall i | 0 <= i < |calls| :: calls[i].now == now && calls[i].bytes >= 0
    ensures After(b, calls).tokens == Capped(b.tokens + |calls| * Credit(b.rate, now - b.lastUpdate), b.burst)
  {
    SameInstantClocked(calls, now);
    RefusalsCreditAgain(b, calls, now);
    SameInstantSum(b, calls, now);
  }

  lemma {:induction false} SameInstantClocked(calls: seq<Call>, now: int)
    requires forall i | 0 <= i < |calls| :: calls[i].now == now && calls[i].bytes >= 0
    ensures Clocked(calls, now)
    decreases calls
  {
    if calls != [] {
      SameInstantClocked(calls[1..], now);
    }
  }

  lemma {:induction false} SameInstantSum(b: Bucket, calls: seq<Call>, now: int)
    requires forall i | 0 <= i < |calls| :: calls[i].now == now
    ensures Overlapping(b, calls) == |calls| * Credit(b.rate, now - b.lastUpdate)
    decreases |calls|
  {
    if calls != [] {
      SameInstantSum(b, calls[..|calls| - 1], now);
      var k, c := |calls| - 1, Credit(b.rate, now - b.lastUpdate);
      assert (k + 1) * c == k * c + c;
    }
  }

  // ----- For which shapers the bound survives refusals

  /** The bound of a refusal-free stretch, over all buckets of a rate and burst size and all runs. */
  ghost predicate AlwaysBounded(rate: int, burst: int) {
    forall b: Bucket, calls: seq<Call>, from: int
      | Sane(b) && b.rate == rate && b.burst == burst && b.lastUpdate <= from && Clocked(calls, from) ::
      Passed(b, calls) <= burst + Credit(rate, After(b, calls).lastUpdate - b.lastUpdate)
  }

  /** No lapse of time earns a part of the burst: nothing or all of it. */
  ghost predicate AllOrNothing(rate: int, burst: int) {
    forall d: nat :: Credit(rate, d) == 0 || Credit(rate, d) >= burst
  }

  lemma CreditGrows(rate: int, d: int, e: int)
    requires rate >= 0 && d <= e
    ensures Credit(rate, d) <= Credit(rate, e)
  {
    assert rate * d <= rate * e;
  }

  /** If credit comes all at once, crediting it again adds nothing: what passes is covered by the tokens there
      were and the charged time, and by the charged time alone once a refused call has earned the burst. */
  lemma {:induction false} AllOrNothingBound(b: Bucket, calls: seq<Call>, from: int)
    requires Sane(b) && b.lastUpdate <= from && Clocked(calls, from) && AllOrNothing(b.rate, b.burst)
    ensures
      var earned := Credit(b.rate, After(b, calls).lastUpdate - b.lastUpdate);
      && Passed(b, calls) <= b.tokens + earned
      && (Credit(b.rate, from - b.lastUpdate) >= b.burst ==> Passed(b, calls) <= earned)
    decreases calls
  {
    hide Credit;
    if calls == [] {
      CreditIsNonNegative(b.rate, 0);
    } else {
      var c := calls[0];
      var next := Step(b, c.now, c.bytes).0;
      CreditIsNonNegative(b.rate, c.now - b.lastUpdate);
      CreditGrows(b.rate, from - b.lastUpdate, c.now - b.lastUpdate);
      CreditAtOnce(b.rate, b.burst, c.now - b.lastUpdate);
      assert AllOrNothing(next.rate, next.burst);
      hide AllOrNothing;
      AllOrNothingBound(next, calls[1..], c.now);
      CreditsAdd(b.rate, next.lastUpdate - b.lastUpdate, After(next, calls[1..]).lastUpdate - next.lastUpdate);
    }
  }

  lemma CreditAtOnce(rate: int, burst: int, d: nat)
    requires AllOrNothing(rate, burst)
    ensures Credit(rate, d) == 0 || Credit(rate, d) >= burst
  {
  }

  /** The configurations whose credit comes all at once. */
  lemma AllOrNothingExactlyWhen(rate: int, burst: int)
    requires rate >= 0
    ensures AllOrNothing(rate, burst) <==> rate == 0 || burst <= 1 || rate >= burst * SECOND
  {
    if rate == 0 || burst <= 1 {
      forall d: nat ensures Credit(rate, d) == 0 || Credit(rate, d) >= burst {
        CreditIsNonNegative(rate, d);
      }
    } else if rate >= burst * SECOND {
      forall d: nat ensures Credit(rate, d) == 0 || Credit(rate, d) >= burst {
        if d > 0 {
          CreditGrows(rate, 1, d);
          assert burst * SECOND / SECOND == burst;
        }
      }
    } else {
      var d := PartOfBurst(rate, burst);
    }
  }

  /** In any other configuration some lapse of time earns a part of the burst. */
  lemma PartOfBurst(rate: int, burst: int) returns (d: nat)
    requires 0 < rate < burst * SECOND && burst >= 2
    ensures d > 0 && 1 <= Credit(rate, d) < burst
  {
    if rate >= SECOND {
      d := 1;
    } else {
      d := (SECOND + rate - 1) / rate;
      assert SECOND <= rate * d < SECOND + rate;
    }
  }

  function Repeat(c: Call, n: nat): seq<Call> {
    if n == 0 then [] else [c] + Repeat(c, n - 1)
  }

  lemma {:induction false} OversizeRefused(b: Bucket, now: int, n: nat)
    requires Sane(b) && b.lastUpdate <= now
    ensures
      var calls := Repeat(Call(now, b.burst + 1), n);
      |calls| == n && Refusals(b, calls) == n && Clocked(calls, now)
      && (forall i | 0 <= i < n :: calls[i].now == now && calls[i].bytes >= 0)
    decreases n
  {
    if n > 0 {
      var next := Step(b, now, b.burst + 1).0;
      CreditIsNonNegative(b.rate, now - b.lastUpdate);
      OversizeRefused(next, now, n - 1);
      assert Repeat(Call(now, b.burst + 1), n)[1..] == Repeat(Call(now, b.burst + 1), n - 1);
    }
  }

  /** A retry at time d until the bucket is full again, then the burst. */
  function Refill(burst: nat, d: int): seq<Call> {
    Repeat(Call(d, burst + 1), burst) + [Call(d, burst)]
  }

  lemma {:induction false} PassedAppend(b: Bucket, first: seq<Call>, second: seq<Call>)
    ensures Passed(b, first + second) == Passed(b, first) + Passed(After(b, first), second)
    ensures After(b, first + second) == After(After(b, first), second)
    decreases first
  {
    if first == [] {
      assert first + second == second;
    } else {
      assert (first + second)[1..] == first[1..] + second;
      PassedAppend(Step(b, first[0].now, first[0].bytes).0, first[1..], second);
    }
  }

  lemma {:induction false} RefusedPassNothing(b: Bucket, calls: seq<Call>)
    requires Refusals(b, calls) == |calls|
    ensures Passed(b, calls) == 0
    decreases calls
  {
    if calls != [] {
      RefusalsAtMostAll(Step(b, calls[0].now, calls[0].bytes).0, calls[1..]);
      RefusedPassNothing(Step(b, calls[0].now, calls[0].bytes).0, calls[1..]);
    }
  }

  /** An empty bucket refills within an instant that earns one token, and passes its burst. */
  lemma RefillPasses(b: Bucket, d: nat)
    requires Sane(b) && b.tokens == 0 && b.lastUpdate == 0 && Credit(b.rate, d) >= 1
    ensures Clocked(Refill(b.burst, d), 0)
    ensures Passed(b, Refill(b.burst, d)) == b.burst && After(b, Refill(b.burst, d)).lastUpdate == d
  {
    hide Credit, Repeat;
    var retries, last := Repeat(Call(d, b.burst + 1), b.burst), [Call(d, b.burst)];
    OversizeRefused(b, d, b.burst);
    RetriesFill(b, retries, d);
    RefusedPassNothing(b, retries);
    PassedAppend(b, retries, last);
    assert last[1..] == [];
    CreditIsNonNegative(b.rate, d);
    ClockedAppend(retries, 0, d, last);
  }

  lemma RetriesFill(b: Bucket, retries: seq<Call>, d: nat)
    requires Sane(b) && b.tokens == 0 && b.lastUpdate == 0 && Credit(b.rate, d) >= 1
    requires |retries| == b.burst == Refusals(b, retries)
    requires forall i | 0 <= i < |retries| :: retries[i].now == d && retries[i].bytes >= 0
    ensures After(b, retries) == b.(tokens := b.burst)
  {
    hide Credit;
    RetryingMultipliesCredit(b, retries, d);
    SameInstantClocked(retries, d);
    RefusalsCreditAgain(b, retries, d);
    AtLeastOneEach(b.burst, Credit(b.rate, d));
  }

  lemma AtLeastOneEach(n: nat, c: int)
    requires c >= 1
    ensures n * c >= n
  {
  }

  lemma {:induction false} ClockedAppend(first: seq<Call>, from: int, now: int, second: seq<Call>)
    requires from <= now && Clocked(second, now)
    requires forall i | 0 <= i < |first| :: first[i].now == now && first[i].bytes >= 0
    ensures Clocked(first + second, from)
    decreases first
  {
    if first == [] {
      assert first + second == second;
    } else {
      assert (first + second)[1..] == first[1..] + second;
      ClockedAppend(first[1..], now, now, second);
    }
  }

  /** Refusals break the bound exactly for the other configurations: a client that drains its bucket and repeats
      a refused call while a part of the burst has been earned passes the burst twice. */
  lemma BoundedExactlyWhen(rate: int, burst: int)
    requires rate >= 0
    ensures AlwaysBounded(rate, burst) <==> rate == 0 || burst <= 1 || rate >= burst * SECOND
  {
    AllOrNothingExactlyWhen(rate, burst);
    if AllOrNothing(rate, burst) {
      forall b: Bucket, calls: seq<Call>, from: int
        | Sane(b) && b.rate == rate && b.burst == burst && b.lastUpdate <= from && Clocked(calls, from)
        ensures Passed(b, calls) <= burst + Credit(rate, After(b, calls).lastUpdate - b.lastUpdate)
      {
        AllOrNothingBound(b, calls, from);
      }
    } else {
      var b, calls := TwiceTheBurst(rate, burst);
    }
  }

  lemma TwiceTheBurst(rate: int, burst: int) returns (b: Bucket, calls: seq<Call>)
    requires 0 < rate < burst * SECOND && burst >= 2
    ensures Sane(b) && b.rate == rate && b.burst == burst && b.lastUpdate == 0 && Clocked(calls, 0)
    ensures Passed(b, calls) == 2 * burst > burst + Credit(rate, After(b, calls).lastUpdate - b.lastUpdate)
  {
    var d := PartOfBurst(rate, burst);
    b := Bucket(burst, 0, rate, burst);
    var empty := Bucket(0, 0, rate, burst);
    calls := [Call(0, burst)] + Refill(burst, d);
    assert calls[1..] == Refill(burst, d);
    RefillPasses(empty, d);
    assert Step(b, 0, burst) == (empty, true);
  }

  // ----- The whole table, with first contacts and cleanup ticks

  datatype Item = Request(client: string, now: int, bytes: int) | Tick(now: int)

  /** The clock never goes back and sizes are not negative. */
  ghost predicate Timed(items: seq<Item>, from: int)
    decreases items
  {
    items == [] || (from <= items[0].now && (items[0].Request? ==> items[0].bytes >= 0)
                    && Timed(items[1..], items[0].now))
  }

  function NextTable(table: Table, i: Item, d: Defaults): Table {
    match i
    case Request(client, now, bytes) => Serve(table, client, now, bytes, d).0
    case Tick(now) => Swept(table, now)
  }

  function TableAfter(table: Table, items: seq<Item>, d: Defaults): Table
    decreases items
  {
    if items == [] then table
    else TableAfter(NextTable(table, items[0], d), items[1..], d)
  }

  function Decisions(table: Table, items: seq<Item>, d: Defaults): seq<bool>
    decreases items
  {
    if items == [] then [] else
      var i := items[0];
      (if i.Tick? then [] else [Serve(table, i.client, i.now, i.bytes, d).1])
      + Decisions(NextTable(table, i, d), items[1..], d)
  }

  /** Every bucket is in range, carries the defaults and was charged by time t. */
  ghost predicate TableSane(table: Table, t: int, d: Defaults) {
    forall c | c in table :: Sane(table[c]) && table[c].lastUpdate <= t && table[c].rate == d.rate
        && table[c].burst == d.burst
  }

  lemma ServeKeepsSane(table: Table, t: int, r: Item, d: Defaults)
    requires TableSane(table, t, d) && t <= r.now && r.Request? && r.bytes >= 0 && d.rate >= 0 && d.burst >= 0
    ensures TableSane(Serve(table, r.client, r.now, r.bytes, d).0, r.now, d)
  {
    if r.client in table {
      CreditIsNonNegative(d.rate, r.now - table[r.client].lastUpdate);
    }
  }

  /** In every run from an empty table, with first contacts and cleanup ticks anywhere, every client's tokens stay
      between nothing and the burst size. */
  lemma {:induction false} TableStaysInRange(table: Table, items: seq<Item>, t: int, d: Defaults)
    requires TableSane(table, t, d) && Timed(items, t) && d.rate >= 0 && d.burst >= 0
    ensures forall c | c in TableAfter(table, items, d) :: Sane(TableAfter(table, items, d)[c])
    decreases items
  {
    if items != [] {
      if items[0].Request? {
        ServeKeepsSane(table, t, items[0], d);
      }
      TableStaysInRange(NextTable(table, items[0], d), items[1..], items[0].now, d);
    }
  }

  /** Requests of no bytes, the only ones the gateway's middleware makes, are never refused. */
  lemma {:induction false} NoBytesNeverRefused(table: Table, items: seq<Item>, t: int, d: Defaults)
    requires TableSane(table, t, d) && Timed(items, t) && d.rate >= 0 && d.burst >= 0
    requires forall i | 0 <= i < |items| :: items[i].Request? ==> items[i].bytes == 0
    ensures forall ok | ok in Decisions(table, items, d) :: ok
    decreases items
  {
    if items != [] {
      if items[0].Request? {
        ServeKeepsSane(table, t, items[0], d);
        if items[0].client in table {
          CreditIsNonNegative(d.rate, items[0].now - table[items[0].client].lastUpdate);
        }
      }
      NoBytesNeverRefused(NextTable(table, items[0], d), items[1..], items[0].now, d);
    }
  }

  /** The next request after a tick is decided differently because of the tick exactly when the tick forgot the
      client and the refilled bucket would have refused it: a forgotten client passes any size, uncharged. */
  lemma TickChangesNextExactlyWhen(table: Table, now: int, r: Item, d: Defaults)
    requires r.Request?
    ensures Serve(Swept(table, now), r.client, r.now, r.bytes, d).1 != Serve(table, r.client, r.now, r.bytes, d).1
            <==> r.client in table && Stale(table[r.client], now) && !Step(table[r.client], r.now, r.bytes).1
  {
  }

  ghost predicate Unnoticed(table: Table, now: int, d: Defaults) {
    forall items | Timed(items, now) :: Decisions(Swept(table, now), items, d) == Decisions(table, items, d)
  }

  /** Over all that may still be asked, a tick goes unnoticed if and only if it forgets nobody. */
  lemma TickUnnoticedExactlyWhen(table: Table, now: int, d: Defaults)
    requires TableSane(table, now, d) && d.rate >= 0 && d.burst >= 0
    ensures Unnoticed(table, now, d) <==> forall c | c in table :: !Stale(table[c], now)
  {
    if forall c | c in table :: !Stale(table[c], now) {
      assert Swept(table, now) == table;
    } else {
      var c :| c in table && Stale(table[c], now);
      var r := Request(c, now, d.burst + 1);
      var next := [r];
      assert Timed(next, now) by { assert next[1..] == []; }
      CreditIsNonNegative(d.rate, now - table[c].lastUpdate);
      TickChangesNextExactlyWhen(table, now, r, d);
      assert Decisions(Swept(table, now), next, d)[0] != Decisions(table, next, d)[0];
      assert Decisions(Swept(table, now), next, d) != Decisions(table, next, d);
    }
  }
}
