/**
 * The PIROccupiedToUnoccupiedDelay attribute of the OccupancySensing cluster:
 * the accessor the occupancy engine calls on every motion edge
 * (`get_pir_unoccupied_delay_seconds`) and the block of `app_main` that gives
 * the attribute its 900-second default at startup.
 */
module DelayConfig {
  import opened Common

  /** The fallback delay, in seconds (15 minutes). */
  const DefaultDelaySeconds: uint16 := 900

  /**
   * What the attribute store holds for the occupancy-sensor endpoint: whether
   * the OccupancySensing cluster exists on it, and the delay attribute's value
   * if the attribute exists.
   */
  datatype DelayStore = DelayStore(hasCluster: bool, delay: Option<uint16>)

  /**
   * The value `attribute::get_val` delivers: the stored delay when the cluster
   * and the attribute exist and the read succeeds (`readOk`), otherwise none.
   */
  function ReadDelay(store: DelayStore, readOk: bool): (v: Option<uint16>)
    ensures v.Some? <==> store.hasCluster && store.delay.Some? && readOk
    ensures v.Some? ==> v == store.delay
  {
    if store.hasCluster && readOk then store.delay else None
  }

  /** The stored delay is usable: it was read and is not zero. */
  predicate UsableDelay(store: DelayStore, readOk: bool)
  {
    var v := ReadDelay(store, readOk);
    v.Some? && v.value > 0
  }

  /**
   * `get_pir_unoccupied_delay_seconds`: the stored delay when it can be read
   * and is positive, the 900-second default in every other case. Its result
   * is never zero, so the engine never arms a zero-length timer.
   */
  function GetDelaySeconds(store: DelayStore, readOk: bool): (r: uint16)
    ensures r != 0
    ensures UsableDelay(store, readOk) ==> r == store.delay.value
    ensures !UsableDelay(store, readOk) ==> r == DefaultDelaySeconds
  {
    match ReadDelay(store, readOk)
    case Some(v) => if v > 0 then v else DefaultDelaySeconds
    case None => DefaultDelaySeconds
  }

  /**
   * The store after the startup block of `app_main`: a missing attribute is
   * created with the default, a stored zero is overwritten with the default,
   * and anything else (no cluster, a failed read, a non-zero value) is left
   * as it was.
   */
  function WithDefaultDelay(store: DelayStore, readOk: bool): (r: DelayStore)
    ensures r.hasCluster == store.hasCluster
    ensures !store.hasCluster ==> r == store
    ensures store.hasCluster && store.delay.None? ==> r.delay == Some(DefaultDelaySeconds)
    ensures store.hasCluster && store.delay == Some(0) && readOk ==> r.delay == Some(DefaultDelaySeconds)
    ensures store.delay.Some? && (store.delay.value != 0 || !readOk) ==> r == store
  {
    if !store.hasCluster then store
    else match store.delay
      case None => store.(delay := Some(DefaultDelaySeconds))
      case Some(v) => if readOk && v == 0 then store.(delay := Some(DefaultDelaySeconds)) else store
  }

  /**
   * Once the startup block has run with a successful read, a later successful
   * read by the accessor returns exactly what the store holds: the fallback is
   * never needed, and the value is the default unless someone stored a
   * non-zero delay before.
   */
  lemma StartupMakesStoredDelayEffective(store: DelayStore)
    requires store.hasCluster
    ensures var after := WithDefaultDelay(store, true);
      && after.delay.Some?
      && GetDelaySeconds(after, true) == after.delay.value
      && (after.delay.value == DefaultDelaySeconds || after.delay == store.delay)
  {
  }

  /** Running the startup block a second time changes nothing. */
  lemma StartupDefaultIsIdempotent(store: DelayStore, readOk: bool)
    ensures WithDefaultDelay(WithDefaultDelay(store, readOk), readOk) == WithDefaultDelay(store, readOk)
  {
  }

  /**
   * The one-slot attribute store that the startup block updates in place: the
   * OccupancySensing cluster of the occupancy endpoint and its delay attribute.
   */
  class AttributeStore {
    var hasCluster: bool
    var delay: Option<uint16>

    /** The store's contents as a value. */
    function Snapshot(): DelayStore
      reads this
    {
      DelayStore(hasCluster, delay)
    }

    constructor (hasCluster: bool, delay: Option<uint16>)
      ensures Snapshot() == DelayStore(hasCluster, delay)
    {
      this.hasCluster := hasCluster;
      this.delay := delay;
    }

    /**
     * The PIROccupiedToUnoccupiedDelay block of `app_main`; `readOk` is the
     * outcome of its `attribute::get_val` call.
     */
    method EnsureDefaultDelay(readOk: bool)
      modifies this
      ensures Snapshot() == WithDefaultDelay(old(Snapshot()), readOk)
    {
      if hasCluster {
        if delay.None? {
          delay := Some(DefaultDelaySeconds);
        } else if readOk {
          if delay.value == 0 {
            delay := Some(DefaultDelaySeconds);
          }
        }
      }
    }
  }
}
