/**
 What the bandwidth shaper of gateway/ddos_shaper.go charges: how much a first contact leaves, the exact tokens after a
 run, and who keeps a bucket, told from the sizes and times of the calls.
 */
module TokenCharges {
  import opened TokenBucket

  /** One client's requests of these sizes, all at one instant. */
  function AtOnce(client: string, now: int, sizes: seq<nat>): seq<Item> {
    if sizes == [] then [] else [Request(client, now, sizes[0])] + AtOnce(client, now, sizes[1..])
  }

  /** The bytes of the first i requests that passed. */
  function Spent(sizes: seq<nat>, passed: seq<bool>, i: nat): nat
    requires i <= |sizes| && i <= |passed|
    decreases i
  {
    if i == 0 then 0 else (if passed[0] then sizes[0] else 0) + Spent(sizes[1..], passed[1..], i - 1)
  }

  lemma {:induction false} OneEach(table: Table, client: string, now: int, sizes: seq<nat>, d: Defaults)
    ensures |Decisions(table, AtOnce(client, now, sizes), d)| == |sizes|
    decreases |sizes|
  {
    if sizes != [] {
      var items := AtOnce(client, now, sizes);
      assert items[1..] == AtOnce(client, now, sizes[1..]);
      OneEach(NextTable(table, items[0], d), client, now, sizes[1..], d);
    }
  }

  /** With a bucket charged at this very instant, a request passes if and only if it fits in what the requests that
      passed before it left of the tokens; refused ones cost nothing. */
  lemma {:induction false} FitsInWhatIsLeft(table: Table, client: string, now: int, sizes: seq<nat>, d: Defaults,
                                            i: nat)
    requires client in table && table[client].lastUpdate == now && table[client].tokens <= table[client].burst
    requires i < |sizes|
    ensures |Decisions(table, AtOnce(client, now, sizes), d)| == |sizes|
    ensures
      var passed := Decisions(table, AtOnce(client, now, sizes), d);
      passed[i] <==> Spent(sizes, passed, i) + sizes[i] <= table[client].tokens
    decreases |sizes|
  {
    OneEach(table, client, now, sizes, d);
    var items := AtOnce(client, now, sizes);
    var passed, next := Decisions(table, items, d), NextTable(table, items[0], d);
    assert items[1..] == AtOnce(client, now, sizes[1..]);
    assert passed[1..] == Decisions(next, items[1..], d);
    if i > 0 {
      FitsInWhatIsLeft(next, client, now, sizes[1..], d, i - 1);
    }
  }

  /** First contact passes uncharged whatever its size and leaves the whole burst: of the client's further requests at
      that instant one passes if and only if it fits in what is left of the burst. */
  lemma FirstContactLeavesBurst(table: Table, client: string, now: int, first: nat, sizes: seq<nat>, d: Defaults,
                                i: nat)
    requires client !in table && i < |sizes|
    ensures
      var passed := Decisions(table, [Request(client, now, first)] + AtOnce(client, now, sizes), d);
      && |passed| == |sizes| + 1 && passed[0]
      && (passed[i + 1] <==> Spent(sizes, passed[1..], i) + sizes[i] <= d.burst)
  {
    var items := [Request(client, now, first)] + AtOnce(client, now, sizes);
    assert items[1..] == AtOnce(client, now, sizes);
    FitsInWhatIsLeft(NextTable(table, items[0], d), client, now, sizes, d, i);
  }

  // ----- Runs with time in between

  function Bytes(calls: seq<Call>): int {
    if calls == [] then 0 else calls[0].bytes + Bytes(calls[1..])
  }

  /** What the time between the calls earns, each gap truncated on its own. */
  function Earned(rate: int, last: int, calls: seq<Call>): int
    decreases calls
  {
    if calls == [] then 0 else Credit(rate, calls[0].now - last) + Earned(rate, calls[0].now, calls[1..])
  }

  lemma {:induction false} EarnedIsNonNegative(rate: int, last: int, calls: seq<Call>)
    requires rate >= 0 && Clocked(calls, last)
    ensures Earned(rate, last, calls) >= 0
    decreases calls
  {
    if calls != [] {
      CreditIsNonNegative(rate, calls[0].now - last);
      EarnedIsNonNegative(rate, calls[0].now, calls[1..]);
    }
  }

  /** While no call is refused and the burst is not reached, the tokens are exactly what was there, plus what the gaps
      earned, less the bytes of the calls. */
  lemma {:induction false} ExactTokens(b: Bucket, calls: seq<Call>)
    requires Sane(b) && Clocked(calls, b.lastUpdate) && Refusals(b, calls) == 0
    requires b.tokens + Earned(b.rate, b.lastUpdate, calls) <= b.burst
    ensures After(b, calls).tokens == b.tokens + Earned(b.rate, b.lastUpdate, calls) - Bytes(calls)
    ensures Passed(b, calls) == Bytes(calls)
    decreases calls
  {
    if calls != [] {
      CreditIsNonNegative(b.rate, calls[0].now - b.lastUpdate);
      EarnedIsNonNegative(b.rate, calls[0].now, calls[1..]);
      ExactTokens(Step(b, calls[0].now, calls[0].bytes).0, calls[1..]);
    }
  }

  /** A bucket left alone long enough is full again: then exactly the calls within the burst pass. */
  lemma FullAgain(b: Bucket, now: int, bytes: int)
    requires Sane(b) && b.lastUpdate <= now && b.rate * (now - b.lastUpdate) >= b.burst * SECOND
    ensures Step(b, now, bytes).1 <==> bytes <= b.burst
    ensures bytes <= b.burst ==> Step(b, now, bytes).0 == Bucket(b.burst - bytes, now, b.rate, b.burst)
  {
    Whole(b.rate * (now - b.lastUpdate), b.burst);
  }

  lemma Whole(x: int, n: int)
    requires x >= n * SECOND
    ensures x / SECOND >= n
  {
  }

  // ----- Who is remembered

  /** A request or tick, and whether the request passed. */
  datatype Done = Done(item: Item, passed: bool)

  function Outcome(table: Table, item: Item, d: Defaults): Done {
    Done(item, item.Request? && Serve(table, item.client, item.now, item.bytes, d).1)
  }

  function Record(table: Table, items: seq<Item>, d: Defaults): seq<Done>
    decreases items
  {
    if items == [] then [] else [Outcome(table, items[0], d)] + Record(NextTable(table, items[0], d), items[1..], d)
  }

  /** When a request of the client last passed; 0 if none did. */
  function LastPassed(past: seq<Done>, client: string): int
    decreases |past|
  {
    if past == [] then 0 else
      var last := past[|past| - 1];
      if last.item.Request? && last.item.client == client && last.passed then last.item.now
      else LastPassed(past[..|past| - 1], client)
  }

  /** The client made a request, and at no tick since its bucket was opened had ten minutes gone by without one of its
      requests passing. */
  predicate Remembered(past: seq<Done>, client: string)
    decreases |past|
  {
    past != [] &&
    var front, last := past[..|past| - 1], past[|past| - 1].item;
    match last
    case Request(c, _, _) => c == client || Remembered(front, client)
    case Tick(now) => Remembered(front, client) && now - LastPassed(front, client) <= 600 * SECOND
  }

  ghost predicate Recalls(table: Table, past: seq<Done>, client: string) {
    && (client in table <==> Remembered(past, client))
    && (client in table ==> table[client].lastUpdate == LastPassed(past, client))
  }

  lemma StepRecalls(table: Table, past: seq<Done>, item: Item, d: Defaults, client: string)
    requires Recalls(table, past, client)
    ensures Recalls(NextTable(table, item, d), past + [Outcome(table, item, d)], client)
  {
    var longer := past + [Outcome(table, item, d)];
    assert longer[..|longer| - 1] == past;
  }

  lemma {:induction false} RunRecalls(table: Table, past: seq<Done>, items: seq<Item>, d: Defaults, client: string)
    requires Recalls(table, past, client)
    ensures Recalls(TableAfter(table, items, d), past + Record(table, items, d), client)
    decreases items
  {
    if items == [] {
      assert past + [] == past;
    } else {
      var next, first := NextTable(table, items[0], d), Outcome(table, items[0], d);
      StepRecalls(table, past, items[0], d, client);
      RunRecalls(next, past + [first], items[1..], d, client);
      assert past + [first] + Record(next, items[1..], d) == past + Record(table, items, d);
    }
  }

  /** On every run a client has a bucket if and only if no tick since its first contact came more than ten minutes after
      one of its requests had last passed; refused requests do not keep it. */
  lemma HasBucketExactlyWhen(items: seq<Item>, d: Defaults, client: string)
    ensures client in TableAfter(map[], items, d) <==> Remembered(Record(map[], items, d), client)
  {
    RunRecalls(map[], [], items, d, client);
    assert [] + Record(map[], items, d) == Record(map[], items, d);
  }
}
