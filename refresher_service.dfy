/**
 * `MountTableRefresherService`: one refresh cycle reads the router records,
 * builds one refresher per record with an admin address, lets them run,
 * waits for them with a bounded wait, logs a summary and drops the cached
 * client of every router whose refresher did not succeed.
 *
 * The threads are modelled sequentially. Which refreshers finished before
 * the wait ended, and what their managers answered, is an input to `Refresh`
 * (a `Completion` per refresher), as is whether the waiting thread was
 * interrupted.
 */
module RefresherService {
  import opened JavaStrings
  import opened Others
  import opened RefresherThread

  // ---------------------------------------------------------------------------
  // Which records get a refresher, and which manager each refresher uses

  /** `isLocalAdmin`: the address contains "local". */
  function IsLocalAdmin(adminAddress: string): (local: bool)
    ensures local <==> exists i :: OccursAt(adminAddress, "local", i)
  {
    Contains(adminAddress, "local")
  }

  /** A record whose admin address is neither null nor empty gets a refresher. */
  predicate Dispatchable(record: RouterState) {
    record.adminAddress.Some? && |record.adminAddress.value| > 0
  }

  /** The admin addresses `refresh` builds refreshers for, in record order. */
  function Dispatched(records: seq<RouterState>): (addresses: seq<string>)
    ensures |addresses| <= |records|
    ensures forall i :: 0 <= i < |addresses| ==> |addresses[i]| > 0
  {
    if records == [] then []
    else
      var last := records[|records| - 1];
      Dispatched(records[..|records| - 1]) + (if Dispatchable(last) then [last.adminAddress.value] else [])
  }

  /** The manager a refresher for `adminAddress` is built with. */
  function ManagerFor(adminAddress: string): MountTableManager {
    if IsLocalAdmin(adminAddress) then MountTableManager("local") else MountTableManager(adminAddress)
  }

  /** Filtering distributes over concatenation: each record contributes on its own, in order. */
  lemma {:induction false} DispatchedAppend(a: seq<RouterState>, b: seq<RouterState>)
    ensures Dispatched(a + b) == Dispatched(a) + Dispatched(b)
    decreases |b|
  {
    if b == [] {
      assert a + b == a;
    } else {
      var last := b[|b| - 1];
      assert (a + b)[..|a + b| - 1] == a + b[..|b| - 1];
      DispatchedAppend(a, b[..|b| - 1]);
    }
  }

  /** A single record yields one refresher exactly when its admin address is neither null nor empty. */
  lemma DispatchedSingle(record: RouterState)
    ensures Dispatched([record]) == if Dispatchable(record) then [record.adminAddress.value] else []
  {
    assert [record][..0] == [];
  }

  /** Going one record further along a list adds that record's refresher, if it gets one. */
  lemma DispatchedStep(records: seq<RouterState>, i: nat)
    requires i < |records|
    ensures Dispatched(records[..i + 1]) ==
            Dispatched(records[..i]) + if Dispatchable(records[i]) then [records[i].adminAddress.value] else []
  {
    assert records[..i + 1][..i] == records[..i];
  }

  /** A record with admin address `a` is among the records before the last one, or is the last one. */
  lemma AddressedSplit(records: seq<RouterState>, a: string)
    requires records != []
    ensures (exists i :: 0 <= i < |records| && records[i].adminAddress == Some(a)) <==>
            (exists i :: 0 <= i < |records| - 1 && records[i].adminAddress == Some(a))
            || records[|records| - 1].adminAddress == Some(a)
  {
  }

  /** An address gets a refresher exactly when it is the non-empty admin address of some record. */
  lemma {:induction false} DispatchedMembers(records: seq<RouterState>, a: string)
    ensures a in Dispatched(records) <==>
            a != "" && exists i :: 0 <= i < |records| && records[i].adminAddress == Some(a)
    decreases |records|
  {
    if records != [] {
      var init := records[..|records| - 1];
      DispatchedMembers(init, a);
      AddressedSplit(records, a);
      assert forall i :: 0 <= i < |init| ==> init[i] == records[i];
    }
  }

  /** When every record has a non-empty admin address (as every constructed `RouterState` does), each one gets a refresher, in order. */
  lemma {:induction false} AllAddressedAllDispatched(records: seq<RouterState>)
    requires forall i :: 0 <= i < |records| ==> Dispatchable(records[i])
    ensures |Dispatched(records)| == |records|
    ensures forall i :: 0 <= i < |records| ==> records[i].adminAddress == Some(Dispatched(records)[i])
    decreases |records|
  {
    if records != [] {
      AllAddressedAllDispatched(records[..|records| - 1]);
    }
  }

  /** A refresher's manager address is "local" exactly for a local admin address; a remote one gets its own address. */
  lemma LocalManagerIff(adminAddress: string)
    ensures ManagerFor(adminAddress).GetAddress() == "local" <==> IsLocalAdmin(adminAddress)
    ensures !IsLocalAdmin(adminAddress) ==> ManagerFor(adminAddress).GetAddress() == adminAddress
  {
    assert OccursAt("local", "local", 0);
  }

  // ---------------------------------------------------------------------------
  // Outcomes and their summary

  /** Whether a refresher ran before the wait ended, and if so what its manager did. */
  datatype Completion = Completed(attempt: RefreshAttempt) | Pending

  /** The `success` flag of a refresher at the end of the wait, given its value when it was started. */
  function SuccessAfterCycle(before: bool, completion: Completion): bool {
    match completion
    case Completed(attempt) => SuccessAfterRun(before, attempt)
    case Pending => before
  }

  /** What `logResult` reads from one refresher. */
  datatype Outcome = Outcome(adminAddress: string, success: bool)

  /** The outcomes of a cycle whose refreshers were all started with `success` false. */
  function CycleOutcomes(addresses: seq<string>, completions: seq<Completion>): (os: seq<Outcome>)
    requires |addresses| == |completions|
    ensures |os| == |addresses|
    ensures forall i :: 0 <= i < |os| ==> os[i].adminAddress == addresses[i]
    ensures forall i :: 0 <= i < |os| ==> (os[i].success <==> completions[i] == Completed(Returned(true)))
  {
    seq(|addresses|, i requires 0 <= i < |addresses| => Outcome(addresses[i], SuccessAfterCycle(false, completions[i])))
  }

  function SuccessCount(os: seq<Outcome>): nat {
    if os == [] then 0 else SuccessCount(os[..|os| - 1]) + (if os[|os| - 1].success then 1 else 0)
  }

  function FailureCount(os: seq<Outcome>): nat {
    if os == [] then 0 else FailureCount(os[..|os| - 1]) + (if os[|os| - 1].success then 0 else 1)
  }

  /** The addresses whose cached client `logResult` invalidates. */
  function FailedAddresses(os: seq<Outcome>): set<string> {
    if os == [] then {}
    else FailedAddresses(os[..|os| - 1]) + (if os[|os| - 1].success then {} else {os[|os| - 1].adminAddress})
  }

  /** One more outcome adds to exactly one of the two counts, and a failure adds its address. */
  lemma OutcomeStep(os: seq<Outcome>, i: nat)
    requires i < |os|
    ensures SuccessCount(os[..i + 1]) == SuccessCount(os[..i]) + if os[i].success then 1 else 0
    ensures FailureCount(os[..i + 1]) == FailureCount(os[..i]) + if os[i].success then 0 else 1
    ensures FailedAddresses(os[..i + 1]) == FailedAddresses(os[..i]) + if os[i].success then {} else {os[i].adminAddress}
  {
    assert os[..i + 1][..i] == os[..i];
  }

  /** Removing one more key after a set of keys is removing both at once. */
  lemma MinusOneMore<V>(m: map<string, V>, keys: set<string>, k: string)
    ensures m - keys - {k} == m - (keys + {k})
  {
  }

  /** Every refresher is counted once, as a success or as a failure. */
  lemma {:induction false} CountsConserve(os: seq<Outcome>)
    ensures SuccessCount(os) + FailureCount(os) == |os|
  {
    if os != [] {
      CountsConserve(os[..|os| - 1]);
    }
  }

  /** An address is invalidated exactly when some refresher for it did not succeed. */
  lemma {:induction false} FailedAddressesExactly(os: seq<Outcome>, a: string)
    ensures a in FailedAddresses(os) <==> exists i :: 0 <= i < |os| && os[i] == Outcome(a, false)
  {
    if os != [] {
      var init := os[..|os| - 1];
      FailedAddressesExactly(init, a);
      if exists i :: 0 <= i < |init| && init[i] == Outcome(a, false) {
        var i :| 0 <= i < |init| && init[i] == Outcome(a, false);
        assert os[i] == init[i];
      }
      if exists i :: 0 <= i < |os| && os[i] == Outcome(a, false) {
        var i :| 0 <= i < |os| && os[i] == Outcome(a, false);
        if i < |init| {
          assert init[i] == os[i];
        }
      }
    }
  }

  /**
   * The cache after a cycle: the address of every failed refresher is gone
   * (a local one included), and every other key keeps its client.
   */
  lemma CacheAfterCycle<V>(cache: map<string, V>, os: seq<Outcome>, k: string)
    ensures k in cache - FailedAddresses(os) <==>
            k in cache && forall i :: 0 <= i < |os| ==> os[i] != Outcome(k, false)
    ensures k in cache - FailedAddresses(os) ==> (cache - FailedAddresses(os))[k] == cache[k]
  {
    FailedAddressesExactly(os, k);
  }

  function CompletedCount(cs: seq<Completion>): (n: nat)
    ensures n <= |cs|
  {
    if cs == [] then 0 else CompletedCount(cs[..|cs| - 1]) + (if cs[|cs| - 1].Completed? then 1 else 0)
  }

  /** One more completion counts once more exactly when it completed; the count never exceeds the refreshers seen. */
  lemma CompletedCountStep(cs: seq<Completion>, i: nat)
    requires i < |cs|
    ensures CompletedCount(cs[..i + 1]) == CompletedCount(cs[..i]) + if cs[i].Completed? then 1 else 0
    ensures CompletedCount(cs[..i]) <= i
  {
    assert cs[..i + 1][..i] == cs[..i];
  }

  predicate AllCompleted(cs: seq<Completion>) {
    forall i :: 0 <= i < |cs| ==> cs[i].Completed?
  }

  /** The latch reaches zero exactly when every refresher ran. */
  lemma {:induction false} AllCompletedIff(cs: seq<Completion>)
    ensures CompletedCount(cs) == |cs| <==> AllCompleted(cs)
  {
    if cs != [] {
      var init := cs[..|cs| - 1];
      AllCompletedIff(init);
      if AllCompleted(cs) {
        assert forall i :: 0 <= i < |init| ==> init[i] == cs[i];
      }
    }
  }

  const NOT_ALL_UPDATED: string := "Not all router admins updated their cache"
  const INTERRUPTED: string := "Mount table cache refresher was interrupted."
  const SUMMARY_PREFIX: string := "Mount table entries cache refresh successCount="
  const SUMMARY_MIDDLE: string := ",failureCount="

  /** The summary line `logResult` prints. */
  function SummaryLine(successCount: nat, failureCount: nat): string {
    SUMMARY_PREFIX + NatToDecimal(successCount) + SUMMARY_MIDDLE + NatToDecimal(failureCount)
  }

  /** The line logged when the wait ends: on interruption, or when not every refresher counted down. */
  function WaitLog(allCompleted: bool, interrupted: bool): seq<string> {
    if interrupted then [INTERRUPTED] else if allCompleted then [] else [NOT_ALL_UPDATED]
  }

  /** Everything one call of `refresh` logs. */
  function CycleLog(os: seq<Outcome>, allCompleted: bool, interrupted: bool): (lines: seq<string>)
    ensures lines == [] <==> os == []
    ensures os != [] ==> lines[|lines| - 1] == SummaryLine(SuccessCount(os), FailureCount(os))
    ensures NOT_ALL_UPDATED in lines <==> os != [] && !interrupted && !allCompleted
    ensures INTERRUPTED in lines <==> os != [] && interrupted
  {
    if os == [] then [] else WaitLog(allCompleted, interrupted) + [SummaryLine(SuccessCount(os), FailureCount(os))]
  }

  /** A cycle with refreshers logs the wait's lines and then the summary, after whatever was logged before. */
  lemma CycleLogAppended(before: seq<string>, os: seq<Outcome>, allCompleted: bool, interrupted: bool)
    requires os != []
    ensures before + WaitLog(allCompleted, interrupted) + [SummaryLine(SuccessCount(os), FailureCount(os))]
            == before + CycleLog(os, allCompleted, interrupted)
  {
  }

  /** The length of the longest prefix of `s` made of digits. */
  function DigitPrefixLength(s: string): (n: nat)
    ensures n <= |s| && AllDigits(s[..n])
    ensures n < |s| ==> !IsDigit(s[n])
  {
    if s == [] || !IsDigit(s[0]) then 0
    else
      var n := 1 + DigitPrefixLength(s[1..]);
      assert s[..n] == [s[0]] + s[1..][..n - 1];
      n
  }

  lemma DigitPrefixOfDecimal(digits: string, rest: string)
    requires AllDigits(digits)
    requires rest == [] || !IsDigit(rest[0])
    ensures DigitPrefixLength(digits + rest) == |digits|
  {
    var text := digits + rest;
    assert forall j :: 0 <= j < |digits| ==> text[j] == digits[j];
    if |digits| < |text| {
      assert text[|digits|] == rest[0];
    }
  }

  /** Reads a summary line back into its two counts. */
  function ParseSummary(line: string): Option<(nat, nat)> {
    if |SUMMARY_PREFIX| <= |line| && line[..|SUMMARY_PREFIX|] == SUMMARY_PREFIX then
      var rest := line[|SUMMARY_PREFIX|..];
      var n := DigitPrefixLength(rest);
      var tail := rest[n..];
      if 0 < n && |SUMMARY_MIDDLE| < |tail| && tail[..|SUMMARY_MIDDLE|] == SUMMARY_MIDDLE
         && AllDigits(tail[|SUMMARY_MIDDLE|..]) then
        Some((DecimalValue(rest[..n]), DecimalValue(tail[|SUMMARY_MIDDLE|..])))
      else None
    else None
  }

  /** The summary line loses nothing: both counts can be read back from it. */
  lemma SummaryRoundTrip(successCount: nat, failureCount: nat)
    ensures ParseSummary(SummaryLine(successCount, failureCount)) == Some((successCount, failureCount))
  {
    var s, f := NatToDecimal(successCount), NatToDecimal(failureCount);
    var tail := SUMMARY_MIDDLE + f;
    var rest := s + tail;
    ConcatAssoc(SUMMARY_PREFIX, s, SUMMARY_MIDDLE);
    ConcatAssoc(SUMMARY_PREFIX, s + SUMMARY_MIDDLE, f);
    ConcatAssoc(s, SUMMARY_MIDDLE, f);
    assert SummaryLine(successCount, failureCount) == SUMMARY_PREFIX + rest;
    ConcatSplit(SUMMARY_PREFIX, rest);
    DigitPrefixOfDecimal(s, tail);
    ConcatSplit(s, tail);
    ConcatSplit(SUMMARY_MIDDLE, f);
    DecimalRoundTrip(successCount);
    DecimalRoundTrip(failureCount);
  }

  /** What `logResult` reads from each refresher object. */
  ghost function OutcomesOf(threads: seq<MountTableRefresherThread>): (os: seq<Outcome>)
    reads threads
    ensures |os| == |threads|
  {
    seq(|threads|, i requires 0 <= i < |threads| reads threads => Outcome(threads[i].adminAddress, threads[i].success))
  }

  /** The outcomes of refreshers built for `addresses` that have not run yet. */
  function Unrun(addresses: seq<string>): (os: seq<Outcome>)
    ensures |os| == |addresses|
  {
    seq(|addresses|, i requires 0 <= i < |addresses| => Outcome(addresses[i], false))
  }

  /** The outcomes after a cycle: each refresher's `success` moved on by its completion. */
  function AfterCycle(os: seq<Outcome>, completions: seq<Completion>): (r: seq<Outcome>)
    requires |os| == |completions|
    ensures |r| == |os|
  {
    seq(|os|, i requires 0 <= i < |os| => Outcome(os[i].adminAddress, SuccessAfterCycle(os[i].success, completions[i])))
  }

  /** A cycle over refreshers that have not run yet reports exactly `CycleOutcomes`. */
  lemma UnrunCycle(addresses: seq<string>, completions: seq<Completion>)
    requires |addresses| == |completions|
    ensures AfterCycle(Unrun(addresses), completions) == CycleOutcomes(addresses, completions)
  {
  }

  /**
   * `threads` are the refreshers `refresh` builds for `addresses`: one per
   * address, in order, with the manager and thread name for it, not yet
   * run and without a latch.
   */
  ghost predicate Prepared(threads: seq<MountTableRefresherThread>, addresses: seq<string>)
    reads threads
  {
    |threads| == |addresses| &&
    forall i :: 0 <= i < |threads| ==>
      threads[i].adminAddress == addresses[i] && threads[i].manager == ManagerFor(addresses[i])
      && threads[i].name == ThreadName(addresses[i]) && !threads[i].success && threads[i].countDownLatch == null
  }

  /** One more refresher, built for one more address. */
  lemma PreparedSnoc(threads: seq<MountTableRefresherThread>, addresses: seq<string>, t: MountTableRefresherThread, a: string)
    requires Prepared(threads, addresses)
    requires t.adminAddress == a && t.manager == ManagerFor(a) && t.name == ThreadName(a)
    requires !t.success && t.countDownLatch == null
    ensures Prepared(threads + [t], addresses + [a])
  {
    assert forall i :: 0 <= i < |threads| ==> (threads + [t])[i] == threads[i];
  }

  /** Prepared refreshers report their addresses, none of them successful yet. */
  lemma PreparedOutcomes(threads: seq<MountTableRefresherThread>, addresses: seq<string>)
    requires Prepared(threads, addresses)
    ensures OutcomesOf(threads) == Unrun(addresses)
  {
  }

  predicate Distinct(threads: seq<MountTableRefresherThread>) {
    forall i, j :: 0 <= i < j < |threads| ==> threads[i] != threads[j]
  }

  /** A refresher that is not among distinct ones can join them. */
  lemma DistinctSnoc(threads: seq<MountTableRefresherThread>, t: MountTableRefresherThread)
    requires Distinct(threads) && t !in threads
    ensures Distinct(threads + [t])
  {
    assert forall i :: 0 <= i < |threads| ==> (threads + [t])[i] == threads[i];
  }

  /** One refresher of the loop: it gets the latch, and if it completes it runs and counts the latch down. */
  method StartOne(t: MountTableRefresherThread, latch: CountDownLatch, completion: Completion)
    modifies t`countDownLatch, t`success, latch
    ensures t.countDownLatch == latch
    ensures t.success == SuccessAfterCycle(old(t.success), completion)
    ensures latch.count == if completion.Completed? && old(latch.count) > 0 then old(latch.count) - 1 else old(latch.count)
  {
    t.SetCountDownLatch(latch);
    if completion.Completed? {
      t.Run(completion.attempt);
    }
  }

  /**
   * The loop at the head of `invokeRefresh`: every refresher gets one fresh
   * latch counting all of them and is started; those that complete
   * (`completions`) run and count the latch down.
   */
  method StartRefreshers(threads: seq<MountTableRefresherThread>, completions: seq<Completion>) returns (latch: CountDownLatch)
    requires |threads| == |completions| && Distinct(threads)
    modifies threads
    ensures fresh(latch) && latch.count == |threads| - CompletedCount(completions)
    ensures forall j :: 0 <= j < |threads| ==>
              threads[j].countDownLatch == latch
              && threads[j].manager == old(threads[j].manager) && threads[j].name == old(threads[j].name)
    ensures OutcomesOf(threads) == AfterCycle(old(OutcomesOf(threads)), completions)
  {
    ghost var before := OutcomesOf(threads);
    ghost var after := AfterCycle(before, completions);
    latch := new CountDownLatch(|threads|);
    var i := 0;
    while i < |threads|
      invariant 0 <= i <= |threads|
      invariant latch.count == |threads| - CompletedCount(completions[..i])
      invariant forall j :: 0 <= j < |threads| ==>
                  Outcome(threads[j].adminAddress, threads[j].success) == (if j < i then after[j] else before[j])
                  && (j < i ==> threads[j].countDownLatch == latch)
                  && threads[j].manager == old(threads[j].manager) && threads[j].name == old(threads[j].name)
      modifies latch, threads
    {
      CompletedCountStep(completions, i);
      var t := threads[i];
      StartOne(t, latch, completions[i]);
      assert forall j :: 0 <= j < |threads| && j != i ==> threads[j] != t;
      i := i + 1;
    }
    assert completions[..i] == completions;
  }

  // ---------------------------------------------------------------------------
  // The service

  /** The cache-cleaner executor: not yet created, scheduled with a fixed delay between runs, or shut down. */
  datatype CleanerState = NotScheduled | Scheduled(delayMillis: int) | ShutDown

  /** The keys `serviceInit` manages to add: the addresses before the first null one. */
  function PrewarmedCount(records: seq<RouterState>): (n: nat)
    ensures n <= |records|
    ensures forall i :: 0 <= i < n ==> records[i].adminAddress.Some?
    ensures n < |records| ==> records[n].adminAddress.None?
  {
    if records == [] || records[0].adminAddress.None? then 0 else 1 + PrewarmedCount(records[1..])
  }

  function PrewarmedKeys(records: seq<RouterState>): set<string> {
    set i | 0 <= i < PrewarmedCount(records) :: records[i].adminAddress.value
  }

  class MountTableRefresherService {
    var routerStore: RouterStore
    var cacheUpdateTimeout: int
    var routerClientsCache: LoadingCache?<RouterClient>
    var cleaner: CleanerState
    /** What `log` has printed, oldest first. */
    var logLines: seq<string>

    constructor ()
      ensures fresh(routerStore) && fresh(routerStore.states) && routerStore.states.items == []
      ensures cacheUpdateTimeout == 0 && routerClientsCache == null
      ensures cleaner == NotScheduled && logLines == []
    {
      routerStore := new RouterStore();
      cacheUpdateTimeout := 0;
      routerClientsCache := null;
      cleaner := NotScheduled;
      logLines := [];
    }

    /**
     * `serviceInit`: timeout 10, a fresh cache holding a new client for the
     * admin address of every record (distinct addresses, distinct clients), and the cleaner scheduled with a fixed delay of 15 ms.
     * A record with a null admin address makes `ConcurrentHashMap.put` throw:
     * then `ok` is false, the cache holds the addresses before it, and the
     * cleaner is not scheduled.
     */
    method ServiceInit() returns (ok: bool)
      modifies this`cacheUpdateTimeout, this`routerClientsCache, this`cleaner
      ensures cacheUpdateTimeout == 10
      ensures routerClientsCache != null && fresh(routerClientsCache)
      ensures ok <==> forall i :: 0 <= i < |routerStore.states.items| ==> routerStore.states.items[i].adminAddress.Some?
      ensures routerClientsCache.entries.Keys == PrewarmedKeys(routerStore.states.items)
      ensures forall k :: k in routerClientsCache.entries ==> fresh(routerClientsCache.entries[k])
      ensures forall k, k' :: k in routerClientsCache.entries && k' in routerClientsCache.entries && k != k' ==> routerClientsCache.entries[k] != routerClientsCache.entries[k']
      ensures cleaner == if ok then Scheduled(15) else old(cleaner)
    {
      var routerClientMaxLiveTime := 15;
      cacheUpdateTimeout := 10;
      var cache := new LoadingCache<RouterClient>();
      routerClientsCache := cache;
      var records := routerStore.states.items;
      var i := 0;
      ok := true;
      while i < |records|
        invariant 0 <= i <= |records|
        invariant forall j :: 0 <= j < i ==> records[j].adminAddress.Some?
        invariant cache.entries.Keys == set j | 0 <= j < i :: records[j].adminAddress.value
        invariant forall k :: k in cache.entries ==> fresh(cache.entries[k])
        invariant forall k, k' :: k in cache.entries && k' in cache.entries && k != k' ==> cache.entries[k] != cache.entries[k']
        invariant ok
        modifies cache
      {
        if records[i].adminAddress.None? {
          ok := false;
          break;
        }
        var client := new RouterClient();
        cache.Add(records[i].adminAddress.value, client);
        i := i + 1;
      }
      assert PrewarmedCount(records) == i;
      assert cache.entries.Keys == PrewarmedKeys(records);
      assert ok <==> forall j :: 0 <= j < |records| ==> records[j].adminAddress.Some?;
      assert records == routerStore.states.items;
      if ok {
        cleaner := Scheduled(routerClientMaxLiveTime);
      }
    }

    /** `serviceStop`: the cleaner is shut down and the cache left empty. Before `serviceInit` both are null dereferences. */
    method ServiceStop()
      requires routerClientsCache != null && cleaner != NotScheduled
      modifies this`cleaner, routerClientsCache
      ensures cleaner == ShutDown
      ensures routerClientsCache.entries == map[]
    {
      cleaner := ShutDown;
      routerClientsCache.CleanUp();
    }

    /** `getLocalRefresher`: the manager is the in-process one, the refresher keeps the admin address. */
    method GetLocalRefresher(adminAddress: string) returns (t: MountTableRefresherThread)
      ensures fresh(t)
      ensures t.manager == MountTableManager("local") && t.adminAddress == adminAddress
      ensures !t.success && t.countDownLatch == null && t.name == ThreadName(adminAddress)
    {
      t := new MountTableRefresherThread(MountTableManager("local"), adminAddress);
    }

    /** The body of the loop in `refresh` for one record with an admin address. */
    method NewRefresher(adminAddress: string) returns (t: MountTableRefresherThread)
      ensures fresh(t)
      ensures t.adminAddress == adminAddress && t.manager == ManagerFor(adminAddress) && t.name == ThreadName(adminAddress)
      ensures !t.success && t.countDownLatch == null
    {
      if IsLocalAdmin(adminAddress) {
        t := GetLocalRefresher(adminAddress);
      } else {
        t := new MountTableRefresherThread(MountTableManager(adminAddress), adminAddress);
      }
    }

    /**
     * The loop at the head of `refresh`: one new refresher per record whose
     * admin address is neither null nor empty, in record order, local ones
     * with the "local" manager and remote ones with a manager for their own
     * address.
     */
    method CollectRefreshers(records: seq<RouterState>) returns (threads: seq<MountTableRefresherThread>)
      ensures Prepared(threads, Dispatched(records)) && Distinct(threads)
      ensures forall i :: 0 <= i < |threads| ==> fresh(threads[i])
    {
      threads := [];
      ghost var addresses := [];
      var i := 0;
      while i < |records|
        invariant 0 <= i <= |records|
        invariant addresses == Dispatched(records[..i])
        invariant Prepared(threads, addresses) && Distinct(threads)
        invariant forall t | t in threads :: fresh(t)
        modifies {}
      {
        DispatchedStep(records, i);
        var adminAddress := records[i].adminAddress;
        if adminAddress.Some? && |adminAddress.value| > 0 {
          var t := NewRefresher(adminAddress.value);
          PreparedSnoc(threads, addresses, t, adminAddress.value);
          DistinctSnoc(threads, t);
          threads := threads + [t];
          addresses := addresses + [adminAddress.value];
        }
        i := i + 1;
      }
      assert records[..i] == records;
      assert forall j :: 0 <= j < |threads| ==> threads[j] in threads;
    }

    method Log(message: string)
      modifies this`logLines
      ensures logLines == old(logLines) + [message]
    {
      logLines := logLines + [message];
    }

    method RemoveFromCache(adminAddress: string)
      requires routerClientsCache != null
      modifies routerClientsCache
      ensures routerClientsCache.entries == old(routerClientsCache.entries) - {adminAddress}
    {
      routerClientsCache.Invalidate(adminAddress);
    }

    /**
     * `logResult`: counts the refreshers that report success and those that
     * do not, invalidates the cached client of each of the latter, and logs
     * the two counts.
     */
    method LogResult(threads: seq<MountTableRefresherThread>)
      requires routerClientsCache != null
      modifies this`logLines, routerClientsCache
      ensures routerClientsCache.entries == old(routerClientsCache.entries) - FailedAddresses(OutcomesOf(threads))
      ensures logLines == old(logLines) + [SummaryLine(SuccessCount(OutcomesOf(threads)), FailureCount(OutcomesOf(threads)))]
    {
      ghost var os := OutcomesOf(threads);
      var successCount, failureCount := 0, 0;
      for i := 0 to |threads|
        invariant successCount == SuccessCount(os[..i]) && failureCount == FailureCount(os[..i])
        invariant routerClientsCache.entries == old(routerClientsCache.entries) - FailedAddresses(os[..i])
        modifies routerClientsCache
      {
        OutcomeStep(os, i);
        MinusOneMore(old(routerClientsCache.entries), FailedAddresses(os[..i]), os[i].adminAddress);
        var ok := threads[i].IsSuccess();
        if ok {
          successCount := successCount + 1;
        } else {
          failureCount := failureCount + 1;
          var adminAddress := threads[i].GetAdminAddress();
          RemoveFromCache(adminAddress);
        }
      }
      assert os[..|threads|] == os;
      Log(SummaryLine(successCount, failureCount));
    }

    /**
     * `invokeRefresh`: gives every refresher the latch and starts it; the
     * refreshers that complete before the wait ends run (`completions`).
     * An interrupted wait logs so; otherwise a wait that ends with the latch
     * above zero logs that not every router updated. `logResult` follows in
     * every case.
     */
    method InvokeRefresh(threads: seq<MountTableRefresherThread>, completions: seq<Completion>, interrupted: bool)
      requires routerClientsCache != null
      requires |threads| == |completions| && Distinct(threads)
      modifies this`logLines, routerClientsCache, threads
      ensures |threads| > 0 ==>
                threads[0].countDownLatch != null && fresh(threads[0].countDownLatch)
                && threads[0].countDownLatch.count == |threads| - CompletedCount(completions)
      ensures forall j :: 0 <= j < |threads| ==>
                threads[j].countDownLatch == threads[0].countDownLatch
                && threads[j].manager == old(threads[j].manager) && threads[j].name == old(threads[j].name)
      ensures OutcomesOf(threads) == AfterCycle(old(OutcomesOf(threads)), completions)
      ensures routerClientsCache.entries == old(routerClientsCache.entries) - FailedAddresses(OutcomesOf(threads))
      ensures logLines == old(logLines) + WaitLog(AllCompleted(completions), interrupted)
                          + [SummaryLine(SuccessCount(OutcomesOf(threads)), FailureCount(OutcomesOf(threads)))]
    {
      var latch := StartRefreshers(threads, completions);
      AwaitAndLog(latch, completions, interrupted);
      LogResult(threads);
    }

    /**
     * The wait in `invokeRefresh`: an interrupted wait logs so; otherwise the
     * wait succeeds exactly when the latch is at zero, and a wait that does
     * not logs that not every router updated.
     */
    method AwaitAndLog(latch: CountDownLatch, completions: seq<Completion>, interrupted: bool)
      requires latch.count == |completions| - CompletedCount(completions)
      modifies this`logLines
      ensures logLines == old(logLines) + WaitLog(AllCompleted(completions), interrupted)
    {
      if interrupted {
        Log(INTERRUPTED);
      } else {
        var allReqCompleted := latch.count == 0;
        AllCompletedIff(completions);
        if !allReqCompleted {
          Log(NOT_ALL_UPDATED);
        }
      }
    }

    /**
     * `refresh`: builds the refreshers for the current records, and when
     * there is at least one, runs the cycle. The cache loses exactly the
     * addresses of the refreshers that did not succeed, and the log gains
     * `CycleLog` of the cycle's outcomes. Nothing is thrown.
     */
    method Refresh(completions: seq<Completion>, interrupted: bool)
      requires routerClientsCache != null
      requires |completions| == |Dispatched(routerStore.states.items)|
      modifies this`logLines, routerClientsCache
      ensures routerClientsCache.entries ==
              old(routerClientsCache.entries) - FailedAddresses(CycleOutcomes(Dispatched(old(routerStore.states.items)), completions))
      ensures logLines == old(logLines) +
              CycleLog(CycleOutcomes(Dispatched(old(routerStore.states.items)), completions), AllCompleted(completions), interrupted)
    {
      var cachedRecords := routerStore.GetCachedRecords();
      ghost var addresses := Dispatched(cachedRecords.items);
      ghost var os := CycleOutcomes(addresses, completions);
      ghost var lines := CycleLog(os, AllCompleted(completions), interrupted);
      var refreshThreads := CollectRefreshers(cachedRecords.items);
      PreparedOutcomes(refreshThreads, addresses);
      if |refreshThreads| > 0 {
        ghost var before := OutcomesOf(refreshThreads);
        InvokeRefresh(refreshThreads, completions, interrupted);
        UnrunCycle(addresses, completions);
        assert OutcomesOf(refreshThreads) == AfterCycle(before, completions) == os;
        CycleLogAppended(old(logLines), os, AllCompleted(completions), interrupted);
      } else {
        assert os == [] && lines == [];
      }
    }

    method SetCacheUpdateTimeout(timeout: int)
      modifies this`cacheUpdateTimeout
      ensures cacheUpdateTimeout == timeout
    {
      cacheUpdateTimeout := timeout;
    }

    method SetRouterClientsCache(cache: LoadingCache?<RouterClient>)
      modifies this`routerClientsCache
      ensures routerClientsCache == cache
    {
      routerClientsCache := cache;
    }

    method SetRouterStore(store: RouterStore)
      modifies this`routerStore
      ensures routerStore == store
    {
      routerStore := store;
    }
  }
}
