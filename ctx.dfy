/** The global storage-tracking switch of `ctx.rs`, kept identically in the
    `art-spot` crate and in the `as-sdk` crate. The two process-wide
    globals (`STORAGE_TRACKING`, `INITIAL_STORAGE_USED` behind a mutex) are
    the fields of one object; execution is single-threaded, so the lock
    is not modelled. The host's storage-usage counter is a parameter. */
module Ctx {
  import opened Wrappers

  /** Bytes added and released over one or more measured spans. */
  datatype StorageHistory = StorageHistory(bytesAdded: nat, bytesReleased: nat)

  /** `StorageHistory::new` stores its arguments. */
  function NewHistory(bytesAdded: nat, bytesReleased: nat): (h: StorageHistory)
    ensures h.bytesAdded == bytesAdded && h.bytesReleased == bytesReleased
  {
    StorageHistory(bytesAdded, bytesReleased)
  }

  /** `StorageHistory::default` is all zeros. */
  function DefaultHistory(): (h: StorageHistory)
    ensures h.bytesAdded == 0 && h.bytesReleased == 0
  {
    StorageHistory(0, 0)
  }

  /** Folds the span from `initial` to `usage` bytes into `h`: a growth
      goes to the added counter, a shrink to the released counter, and
      the other counter is left alone. */
  function Record(h: StorageHistory, initial: nat, usage: nat): (r: StorageHistory)
    ensures r.bytesAdded - r.bytesReleased == h.bytesAdded - h.bytesReleased + (usage - initial)
    ensures usage >= initial ==> r.bytesReleased == h.bytesReleased
    ensures usage < initial ==> r.bytesAdded == h.bytesAdded
    ensures r.bytesAdded >= h.bytesAdded && r.bytesReleased >= h.bytesReleased
  {
    if usage >= initial then h.(bytesAdded := h.bytesAdded + (usage - initial))
    else h.(bytesReleased := h.bytesReleased + (initial - usage))
  }

  /** Writing `x` fresh bytes in a span counts exactly `x` added bytes, and
      deleting them again in a later span counts exactly `x` released bytes. */
  lemma RecordWriteThenDelete(before: nat, x: nat)
    ensures Record(DefaultHistory(), before, before + x) == StorageHistory(x, 0)
    ensures Record(DefaultHistory(), before + x, before) == StorageHistory(0, x)
  {
  }

  class StorageContext {
    /** `STORAGE_TRACKING` */
    var tracking: bool
    /** `INITIAL_STORAGE_USED` */
    var initialStorageUsed: nat

    /** The initial values of the two statics (ctx.rs:8-9). */
    constructor ()
      ensures !tracking && initialStorageUsed == 0
    {
      tracking := false;
      initialStorageUsed := 0;
    }

    /** `is_storage_tracking` (ctx.rs:35-37). */
    function IsStorageTracking(): (b: bool)
      reads this
      ensures b <==> tracking
    {
      tracking
    }

    /** `start_storage_tracking` (ctx.rs:39-46): refused while tracking is
        on; otherwise switches it on and records the current usage. */
    method StartStorageTracking(storageUsage: nat) returns (r: Outcome)
      modifies this
      ensures r.Pass? <==> !old(tracking)
      ensures r.Fail? ==> r.msg == "Storage tracking is already started"
                          && tracking == old(tracking) && initialStorageUsed == old(initialStorageUsed)
      ensures r.Pass? ==> tracking && initialStorageUsed == storageUsage
    {
      if tracking {
        return Fail("Storage tracking is already started");
      }
      tracking := true;
      initialStorageUsed := storageUsage;
      r := Pass;
    }

    /** `stop_storage_tracking` (ctx.rs:48-65): switches tracking off without
        checking that it was on, folds the span since the recorded usage
        into the previous history (none counts as zeros) and resets the
        recorded usage to 0, so a stop with no start counts the whole
        current usage as added. */
    method StopStorageTracking(previousHistory: Option<StorageHistory>, storageUsage: nat)
      returns (h: StorageHistory)
      modifies this
      ensures !tracking && initialStorageUsed == 0
      ensures var prev := if previousHistory.Some? then previousHistory.value else DefaultHistory();
              h == Record(prev, old(initialStorageUsed), storageUsage)
    {
      tracking := false;
      var storageHistory := if previousHistory.Some? then previousHistory.value else DefaultHistory();
      h := Record(storageHistory, initialStorageUsed, storageUsage);
      initialStorageUsed := 0;
    }
  }

  /** A stop that was not preceded by a start measures from 0. */
  method UnpairedStopCountsEverything(usage: nat)
  {
    var c := new StorageContext();
    var h := c.StopStorageTracking(None, usage);
    assert h == StorageHistory(usage, 0);
    var ok := c.StartStorageTracking(usage);
    assert ok.Pass?;
    ok := c.StartStorageTracking(usage);
    assert ok.Fail?;
  }
}
