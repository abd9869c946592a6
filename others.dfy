/**
 * The collaborators of the mount-table refresher that live in `Others.java`:
 * the client cache, the router records and their store, and the mount-table
 * manager each refresher talks to.
 */
module Others {
  import opened JavaStrings

  /**
   * `Others.LoadingCache`: a plain key/value map that is changed in place.
   * There is no age per entry and nothing is created on a miss.
   */
  class LoadingCache<V> {
    var entries: map<string, V>

    constructor ()
      ensures entries == map[]
    {
      entries := map[];
    }

    /** `add`: `key` now maps to `value`; every other key keeps its value. */
    method Add(key: string, value: V)
      modifies this
      ensures entries == old(entries)[key := value]
    {
      entries := entries[key := value];
    }

    /** `invalidate`: removes `address` and nothing else; an absent key is a no-op. */
    method Invalidate(address: string)
      modifies this
      ensures entries == old(entries) - {address}
    {
      entries := entries - {address};
    }

    /** `cleanUp`: removes every entry. */
    method CleanUp()
      modifies this
      ensures entries == map[]
    {
      entries := map[];
    }
  }

  /** `Others.RouterClient`: a client object with no state of its own; only its identity matters. */
  class RouterClient {
    constructor ()
    {
    }
  }

  /**
   * `Others.RouterState`: a router record. Its admin address is `None` where
   * the Java reference is `null` (a record whose router has admin disabled).
   */
  datatype RouterState = RouterState(adminAddress: Option<string>)

  const INT_MIN: int := -0x8000_0000
  const INT_MAX: int := 0x7fff_ffff

  /** `AtomicInteger.incrementAndGet` on a 32-bit counter, which wraps past `INT_MAX`. */
  function Int32Increment(c: int): (r: int)
    requires INT_MIN <= c <= INT_MAX
    ensures INT_MIN <= r <= INT_MAX
    ensures c < INT_MAX ==> r == c + 1
  {
    if c == INT_MAX then INT_MIN else c + 1
  }

  /** The address suffixes that `k` constructions hand out when the counter starts at `c`. */
  function Suffixes(c: int, k: nat): seq<int>
    requires INT_MIN <= c <= INT_MAX
    decreases k
  {
    if k == 0 then [] else [Int32Increment(c)] + Suffixes(Int32Increment(c), k - 1)
  }

  /**
   * `RouterState`'s static counter. Dafny has no mutable static fields, so the
   * counter is an object that every construction goes through.
   */
  class RouterStateCounter {
    var counter: int

    ghost predicate Valid()
      reads this
    {
      INT_MIN <= counter <= INT_MAX
    }

    /** The counter as the JVM initialises it. */
    constructor ()
      ensures Valid() && counter == 0
    {
      counter := 0;
    }

    /**
     * `new RouterState(address)`: the admin address is `address` followed by
     * the next counter value; a null `address` contributes the text "null".
     */
    method NewRouterState(address: Option<string>) returns (state: RouterState)
      requires Valid()
      modifies this
      ensures Valid()
      ensures counter == Int32Increment(old(counter))
      ensures state.adminAddress == Some(StringText(address) + IntToString(counter))
    {
      counter := Int32Increment(counter);
      state := RouterState(Some(StringText(address) + IntToString(counter)));
    }
  }

  /** Until the counter wraps, the suffixes start at one more than the counter and go up by one. */
  lemma {:induction false} SuffixesCount(c: int, k: nat)
    requires INT_MIN <= c && c + k <= INT_MAX
    ensures |Suffixes(c, k)| == k
    ensures forall i :: 0 <= i < k ==> Suffixes(c, k)[i] == c + 1 + i
    decreases k
  {
    if k > 0 {
      SuffixesCount(c + 1, k - 1);
    }
  }

  /** From the JVM's initial counter, the first `k` records get suffixes 1, 2, ..., k, strictly increasing. */
  lemma FirstSuffixes(k: nat)
    requires k <= INT_MAX
    ensures |Suffixes(0, k)| == k
    ensures forall i :: 0 <= i < k ==> Suffixes(0, k)[i] == i + 1
    ensures forall i, j :: 0 <= i < j < k ==> Suffixes(0, k)[i] < Suffixes(0, k)[j]
  {
    SuffixesCount(0, k);
  }

  /** Two records built from the same prefix with different counter values have different admin addresses. */
  lemma DistinctSuffixesDistinctAddresses(prefix: string, i: int, j: int)
    requires i != j
    ensures prefix + IntToString(i) != prefix + IntToString(j)
  {
    if prefix + IntToString(i) == prefix + IntToString(j) {
      assert (prefix + IntToString(i))[|prefix|..] == IntToString(i);
      assert (prefix + IntToString(j))[|prefix|..] == IntToString(j);
      IntToStringInjective(i, j);
    }
  }

  /** The `ArrayList` of records that a `RouterStore` owns. */
  class RecordList {
    var items: seq<RouterState>

    constructor ()
      ensures items == []
    {
      items := [];
    }
  }

  /** `Others.RouterStore`. */
  class RouterStore {
    var states: RecordList

    constructor ()
      ensures fresh(states) && states.items == []
    {
      states := new RecordList();
    }

    /**
     * `getCachedRecords`: the store's own list object, not a copy, so a
     * change made through the result is a change to the store.
     */
    method GetCachedRecords() returns (records: RecordList)
      ensures records == states
    {
      records := states;
    }
  }

  /**
   * `Others.MountTableManager`: remembers the address it was built for. Its
   * `refresh` answers a random boolean; the model takes that answer as an input.
   */
  datatype MountTableManager = MountTableManager(address: string) {
    /** `getAddress`: the address the manager was built with. */
    function GetAddress(): (r: string)
      ensures r == address
    {
      address
    }
  }
}
