/** `StorageTracker` of `art-spot`: a start/stop meter over the host's
    storage-usage counter (a parameter here), accumulating bytes added and
    bytes released, with a guard that refuses to drop unaccounted bytes. */
module StorageTracking {
  import opened Wrappers
  import opened Ctx

  class StorageTracker {
    var bytesAdded: nat
    var bytesReleased: nat
    var initialStorageUsage: Option<nat>

    /** `new` and `Default` (storage_tracker.rs:5-10, 20-26): zero and inactive. */
    constructor ()
      ensures bytesAdded == 0 && bytesReleased == 0 && initialStorageUsage.None?
      ensures IsEmpty()
    {
      bytesAdded, bytesReleased, initialStorageUsage := 0, 0, None;
    }

    /** `is_active`: a span has been started and not stopped. */
    predicate IsActive()
      reads this
    {
      initialStorageUsage.Some?
    }

    /** `is_empty` (storage_tracker.rs:77-79). */
    function IsEmpty(): (b: bool)
      reads this
      ensures b <==> bytesAdded == 0 && bytesReleased == 0 && !IsActive()
    {
      bytesAdded == 0 && bytesReleased == 0 && initialStorageUsage.None?
    }

    /** The `Drop` guard (storage_tracker.rs:13-17): dropping a tracker
        that still holds counts or an open span aborts. */
    function Drop(): (r: Outcome)
      reads this
      ensures r.Pass? <==> IsEmpty()
      ensures r.Fail? ==> r.msg == "Bug, non-tracked storage change"
    {
      if IsEmpty() then Pass else Fail("Bug, non-tracked storage change")
    }

    /** The derived `Clone` (storage_tracker.rs:5): a new tracker in the
        same state, an open span included. */
    method Clone() returns (t: StorageTracker)
      ensures fresh(t)
      ensures t.bytesAdded == bytesAdded && t.bytesReleased == bytesReleased
              && t.initialStorageUsage == initialStorageUsage
    {
      t := new StorageTracker();
      t.bytesAdded, t.bytesReleased, t.initialStorageUsage := bytesAdded, bytesReleased, initialStorageUsage;
    }

    /** `start` (storage_tracker.rs:29-36). */
    method Start(storageUsage: nat) returns (r: Outcome)
      modifies this`initialStorageUsage
      ensures r.Pass? <==> !old(IsActive())
      ensures r.Fail? ==> r.msg == "The storage tracker is already tracking"
                          && initialStorageUsage == old(initialStorageUsage)
      ensures r.Pass? ==> initialStorageUsage == Some(storageUsage)
    {
      if initialStorageUsage.Some? {
        return Fail("The storage tracker is already tracking");
      }
      initialStorageUsage := Some(storageUsage);
      r := Pass;
    }

    /** `stop` (storage_tracker.rs:39-52): closes the span and folds its
        growth or shrink into the counters. */
    method Stop(storageUsage: nat) returns (r: Outcome)
      modifies this
      ensures r.Pass? <==> old(IsActive())
      ensures r.Fail? ==> r.msg == "The storage tracker wasn't tracking"
                          && bytesAdded == old(bytesAdded) && bytesReleased == old(bytesReleased)
                          && initialStorageUsage == old(initialStorageUsage)
      ensures r.Pass? ==>
                !IsActive()
                && StorageHistory(bytesAdded, bytesReleased)
                   == Record(StorageHistory(old(bytesAdded), old(bytesReleased)),
                             old(initialStorageUsage.value), storageUsage)
    {
      if initialStorageUsage.None? {
        return Fail("The storage tracker wasn't tracking");
      }
      var initial := initialStorageUsage.value;
      initialStorageUsage := None;
      var h := Record(StorageHistory(bytesAdded, bytesReleased), initial, storageUsage);
      bytesAdded, bytesReleased := h.bytesAdded, h.bytesReleased;
      r := Pass;
    }

    /** `consume` (storage_tracker.rs:55-64) as written: the added bytes of
        `other` are accumulated, but its released bytes overwrite this
        tracker's instead of being added to them. */
    method Consume(other: StorageTracker) returns (r: Outcome)
      requires other != this
      modifies this, other
      ensures r.Pass? <==> !old(other.IsActive())
      ensures r.Fail? ==> r.msg == "Can't merge storage tracker that is tracking storage"
                          && bytesAdded == old(bytesAdded) && bytesReleased == old(bytesReleased)
                          && other.bytesAdded == old(other.bytesAdded)
                          && other.bytesReleased == old(other.bytesReleased)
      ensures initialStorageUsage == old(initialStorageUsage)
              && other.initialStorageUsage == old(other.initialStorageUsage)
      ensures r.Pass? ==>
                bytesAdded == old(bytesAdded) + old(other.bytesAdded)
                && bytesReleased == old(other.bytesReleased)
                && other.bytesAdded == 0 && other.bytesReleased == 0
    {
      if other.initialStorageUsage.Some? {
        // the require comes last in the source; its panic reverts the writes
        return Fail("Can't merge storage tracker that is tracking storage");
      }
      bytesAdded := bytesAdded + other.bytesAdded;
      other.bytesAdded := 0;
      bytesReleased := other.bytesReleased;
      other.bytesReleased := 0;
      r := Pass;
    }

    /** `consume` as evidently intended: both counters of `other` are
        added, so no measured byte is lost in the merge. */
    method ConsumeMerging(other: StorageTracker) returns (r: Outcome)
      requires other != this
      modifies this, other
      ensures r.Pass? <==> !old(other.IsActive())
      ensures r.Fail? ==> bytesAdded == old(bytesAdded) && bytesReleased == old(bytesReleased)
                          && other.bytesAdded == old(other.bytesAdded)
                          && other.bytesReleased == old(other.bytesReleased)
      ensures initialStorageUsage == old(initialStorageUsage)
              && other.initialStorageUsage == old(other.initialStorageUsage)
      ensures r.Pass? ==>
                bytesAdded + other.bytesAdded == old(bytesAdded) + old(other.bytesAdded)
                && bytesReleased + other.bytesReleased == old(bytesReleased) + old(other.bytesReleased)
                && other.bytesAdded == 0 && other.bytesReleased == 0
    {
      if other.initialStorageUsage.Some? {
        return Fail("Can't merge storage tracker that is tracking storage");
      }
      bytesAdded := bytesAdded + other.bytesAdded;
      other.bytesAdded := 0;
      bytesReleased := bytesReleased + other.bytesReleased;
      other.bytesReleased := 0;
      r := Pass;
    }

    /** `clear` (storage_tracker.rs:66-74): refused while a span is open. */
    method Clear() returns (r: Outcome)
      modifies this`bytesAdded, this`bytesReleased
      ensures r.Pass? <==> !IsActive()
      ensures r.Fail? ==> r.msg == "Can't clear storage tracker that is active"
                          && bytesAdded == old(bytesAdded) && bytesReleased == old(bytesReleased)
      ensures r.Pass? ==> IsEmpty()
    {
      if initialStorageUsage.Some? {
        return Fail("Can't clear storage tracker that is active");
      }
      bytesAdded, bytesReleased := 0, 0;
      r := Pass;
    }
  }

  /** Counterexample for `Consume`: a tracker that has released 7 bytes
      consumes one that released none, and the 7 bytes are gone; the
      intended merge keeps them. */
  method ConsumeLosesReleasedBytes()
  {
    var a := new StorageTracker();
    var ok := a.Start(100);
    ok := a.Stop(93);
    assert a.bytesReleased == 7;
    var b := new StorageTracker();
    ok := a.Consume(b);
    assert ok.Pass? && a.bytesReleased == 0;

    var c := new StorageTracker();
    ok := c.Start(100);
    ok := c.Stop(93);
    var d := new StorageTracker();
    ok := c.ConsumeMerging(d);
    assert ok.Pass? && c.bytesReleased == 7;
  }

  /** A measured span must be consumed before the tracker may be dropped. */
  method DropGuardScenario(before: nat, after: nat)
    requires before != after
  {
    var t := new StorageTracker();
    var ok := t.Start(before);
    assert t.Drop().Fail?;
    ok := t.Stop(after);
    assert ok.Pass? && t.Drop().Fail?;
    ok := t.Clear();
    assert ok.Pass? && t.Drop().Pass?;
  }
}
