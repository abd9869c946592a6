/**
 * `MountTableRefresherThread`: one refresher per router admin address. The
 * thread itself is not modelled; `Run` is what the thread's body does once
 * it has been scheduled, with the manager's answer given as an input.
 */
module RefresherThread {
  import opened JavaStrings
  import opened Others

  /** The part of `java.util.concurrent.CountDownLatch` the refresher uses. */
  class CountDownLatch {
    var count: nat

    constructor (count: nat)
      ensures this.count == count
    {
      this.count := count;
    }

    /** `countDown`: one less, never below zero. */
    method CountDown()
      modifies this
      ensures count == if old(count) > 0 then old(count) - 1 else 0
    {
      if count > 0 {
        count := count - 1;
      }
    }
  }

  /** What `manager.refresh()` did when the thread ran it: answered a boolean, or threw. */
  datatype RefreshAttempt = Returned(refreshed: bool) | Threw

  /** The value of `success` after `run`, given its value before. */
  function SuccessAfterRun(before: bool, attempt: RefreshAttempt): bool {
    match attempt
    case Returned(b) => b
    case Threw => before
  }

  const NAME_PREFIX: string := "MountTableRefresh_"

  /** The thread name the constructor sets. */
  function ThreadName(adminAddress: string): string {
    NAME_PREFIX + adminAddress
  }

  const DESCRIPTION_PREFIX: string := "MountTableRefreshThread [success="
  const DESCRIPTION_MIDDLE: string := ", adminAddress="

  /** The text `toString` builds. */
  function Describe(success: bool, adminAddress: string): string {
    DESCRIPTION_PREFIX + BoolToString(success) + DESCRIPTION_MIDDLE + adminAddress + "]"
  }

  /** Reads a thread name back into the admin address it was built from. */
  function AddressOfName(name: string): Option<string> {
    if |NAME_PREFIX| <= |name| && name[..|NAME_PREFIX|] == NAME_PREFIX then Some(name[|NAME_PREFIX|..]) else None
  }

  /** Reads a `toString` text back into the success flag and the admin address. */
  function ParseDescription(text: string): Option<(bool, string)> {
    var t := "true" + DESCRIPTION_MIDDLE;
    var f := "false" + DESCRIPTION_MIDDLE;
    if |DESCRIPTION_PREFIX| <= |text| && text[..|DESCRIPTION_PREFIX|] == DESCRIPTION_PREFIX then
      var rest := text[|DESCRIPTION_PREFIX|..];
      if |rest| > |t| && rest[..|t|] == t && rest[|rest| - 1] == ']' then
        Some((true, rest[|t|..|rest| - 1]))
      else if |rest| > |f| && rest[..|f|] == f && rest[|rest| - 1] == ']' then
        Some((false, rest[|f|..|rest| - 1]))
      else None
    else None
  }

  /** The thread name gives back the admin address. */
  lemma ThreadNameRoundTrip(adminAddress: string)
    ensures AddressOfName(ThreadName(adminAddress)) == Some(adminAddress)
  {
    assert ThreadName(adminAddress)[..|NAME_PREFIX|] == NAME_PREFIX;
  }

  /** The description is the fixed prefix, then the flag and separator, then the address and a bracket. */
  lemma DescriptionParts(success: bool, adminAddress: string)
    ensures Describe(success, adminAddress) ==
            DESCRIPTION_PREFIX + ((BoolToString(success) + DESCRIPTION_MIDDLE) + (adminAddress + "]"))
  {
    var head := BoolToString(success) + DESCRIPTION_MIDDLE;
    ConcatAssoc(DESCRIPTION_PREFIX, BoolToString(success), DESCRIPTION_MIDDLE);
    ConcatAssoc(DESCRIPTION_PREFIX + head, adminAddress, "]");
    ConcatAssoc(DESCRIPTION_PREFIX, head, adminAddress + "]");
  }

  /** `toString` loses nothing: the flag and the address can be read back from it. */
  lemma DescribeRoundTrip(success: bool, adminAddress: string)
    ensures ParseDescription(Describe(success, adminAddress)) == Some((success, adminAddress))
  {
    var head := BoolToString(success) + DESCRIPTION_MIDDLE;
    var body := head + (adminAddress + "]");
    DescriptionParts(success, adminAddress);
    ConcatSplit(DESCRIPTION_PREFIX, body);
    ConcatSplit(head, adminAddress + "]");
    assert body[|head|..|body| - 1] == adminAddress;
    if !success {
      assert body[..|"true" + DESCRIPTION_MIDDLE|] != "true" + DESCRIPTION_MIDDLE by {
        assert body[1] == 'a';
      }
    }
  }

  class MountTableRefresherThread {
    var success: bool
    var adminAddress: string
    var countDownLatch: CountDownLatch?
    var manager: MountTableManager
    var name: string
    var daemon: bool

    /** A new refresher: not yet successful, no latch, named after its address, a daemon thread. */
    constructor (manager: MountTableManager, adminAddress: string)
      ensures this.manager == manager && this.adminAddress == adminAddress
      ensures !success && countDownLatch == null
      ensures name == ThreadName(adminAddress) && daemon
    {
      this.manager := manager;
      this.adminAddress := adminAddress;
      this.success := false;
      this.countDownLatch := null;
      this.name := ThreadName(adminAddress);
      this.daemon := true;
    }

    /**
     * `run`: `success` takes the manager's answer (and keeps its old value
     * when the manager throws), and the latch is counted down exactly once
     * either way. A latch that was never set would be a null dereference.
     */
    method Run(attempt: RefreshAttempt)
      requires countDownLatch != null
      modifies this`success, countDownLatch
      ensures success == SuccessAfterRun(old(success), attempt)
      ensures countDownLatch.count == if old(countDownLatch.count) > 0 then old(countDownLatch.count) - 1 else 0
    {
      success := SuccessAfterRun(success, attempt);
      countDownLatch.CountDown();
    }

    /** `isSuccess`: whether the last completed refresh succeeded. */
    method IsSuccess() returns (r: bool)
      ensures r == success
    {
      r := success;
    }

    method SetCountDownLatch(latch: CountDownLatch)
      modifies this`countDownLatch
      ensures countDownLatch == latch
    {
      countDownLatch := latch;
    }

    /** `toString`: a text from which the success flag and the admin address can both be read back. */
    function ToString(): (text: string)
      reads this
      ensures ParseDescription(text) == Some((success, adminAddress))
    {
      DescribeRoundTrip(success, adminAddress);
      Describe(success, adminAddress)
    }

    method GetAdminAddress() returns (r: string)
      ensures r == adminAddress
    {
      r := adminAddress;
    }
  }
}
