/**
 * The occupancy engine of the PIR sensor driver: a retriggerable monostable.
 * Each edge record taken from the queue is judged by the pin level re-read at
 * that moment; a high level makes the sensor occupied (reporting `true` once)
 * and re-arms a one-shot "unoccupied" timer for the configured delay; a low
 * level does nothing; the timer's expiry makes the sensor unoccupied and
 * reports `false`.
 *
 * The first half states the engine as functions over an abstract state and
 * proves its properties over whole event sequences; the class at the end is
 * the driver's mutable state, each entry point proved against those functions.
 */
module Occupancy {
  import opened Common
  import DelayConfig
  import EdgeQueue

  const MicrosPerSecond: nat := 1000000

  /**
   * The timeout handed to `esp_timer_start_once`: the delay in seconds times
   * 1,000,000, computed in `uint64` (the result type shows it cannot overflow).
   * It converts back to exactly the seconds it came from.
   */
  function TimeoutMicros(delaySec: uint16): (us: uint64)
    ensures us / MicrosPerSecond == delaySec && us % MicrosPerSecond == 0
    ensures delaySec != 0 ==> us >= MicrosPerSecond
  {
    delaySec * MicrosPerSecond
  }

  /**
   * The engine's state: `g_occupancy_state`, and the one-shot timer, either
   * idle or armed with the time (in microseconds) at which it will expire.
   */
  datatype EngineState = EngineState(occupied: bool, deadline: Option<nat>)

  /** Power-on state: unoccupied, timer idle. */
  const Initial := EngineState(false, None)

  /** The timer is armed only while the sensor is occupied. */
  predicate Inv(s: EngineState)
  {
    s.deadline.Some? ==> s.occupied
  }

  /** The state after one event, and the value passed to the callback, if any. */
  datatype Step = Step(state: EngineState, publish: Option<bool>)

  /** The callback invocations of one step, as a sequence of zero or one values. */
  function Emitted(p: Option<bool>): (out: seq<bool>)
    ensures |out| <= 1
    ensures p.Some? ==> out == [p.value]
    ensures p.None? ==> out == []
  {
    if p.Some? then [p.value] else []
  }

  /**
   * One edge record, handled by the sensor task: `levelHigh` is the pin level
   * read when the record is dequeued (the edge's direction plays no part),
   * `delaySec` what the delay accessor returned at that moment.
   */
  function OnEdge(s: EngineState, levelHigh: bool, now: nat, delaySec: uint16): (t: Step)
    ensures t.publish == (if t.state.occupied != s.occupied then Some(t.state.occupied) else None)
    ensures levelHigh ==> t.state.occupied && t.state.deadline == Some(now + TimeoutMicros(delaySec))
    ensures !levelHigh ==> t == Step(s, None)
  {
    if levelHigh then
      // Stop any pending expiry and arm a single new one.
      Step(EngineState(true, Some(now + TimeoutMicros(delaySec))), if s.occupied then None else Some(true))
    else
      Step(s, None)
  }

  /**
   * `unoccupied_timer_callback`: the state becomes unoccupied and `false` is
   * reported, whatever the state was; the one-shot timer is idle afterwards.
   */
  function OnTimerExpired(s: EngineState): (t: Step)
    ensures t.state == Initial && t.publish == Some(t.state.occupied)
  {
    Step(EngineState(false, None), Some(false))
  }

  /** The events the engine serialises: an edge record handled by the task, or the timer's expiry. */
  datatype Event =
    | Edge(levelHigh: bool, at: nat, delaySec: uint16)
    | Expiry

  /**
   * One event. The one-shot timer fires only while it is armed, so an
   * `Expiry` with no pending deadline is not something the timer produces;
   * it leaves the engine as it is.
   */
  function Apply(s: EngineState, e: Event): Step
  {
    match e
    case Edge(levelHigh, at, delaySec) => OnEdge(s, levelHigh, at, delaySec)
    case Expiry => if s.deadline.Some? then OnTimerExpired(s) else Step(s, None)
  }

  /** The final state after a sequence of events, and every value reported on the way. */
  datatype Trace = Trace(state: EngineState, published: seq<bool>)

  function Run(s: EngineState, events: seq<Event>): Trace
    decreases |events|
  {
    if events == [] then Trace(s, [])
    else
      var t := Apply(s, events[0]);
      var rest := Run(t.state, events[1..]);
      Trace(rest.state, Emitted(t.publish) + rest.published)
  }

  /** Reported values strictly alternate `true`, `false`, `true`, ..., starting with `true`. */
  ghost predicate Alternating(p: seq<bool>)
  {
    forall i :: 0 <= i < |p| ==> p[i] == (i % 2 == 0)
  }

  /** What has been reported agrees with the state: occupied exactly when an odd number of values went out. */
  ghost predicate Agrees(s: EngineState, p: seq<bool>)
  {
    Inv(s) && Alternating(p) && s.occupied == (|p| % 2 == 1)
  }

  /**
   * Every event keeps the timer armed only while occupied, and reports a
   * value exactly when the occupancy changes, the value being the new state:
   * one report per state change, never one per edge.
   */
  lemma StepReportsExactlyTheChanges(s: EngineState, e: Event)
    requires Inv(s)
    ensures var t := Apply(s, e);
      && Inv(t.state)
      && t.publish == (if t.state.occupied != s.occupied then Some(t.state.occupied) else None)
  {
  }

  /** One event keeps the reports in agreement with the state. */
  lemma StepKeepsAgreement(s: EngineState, p: seq<bool>, e: Event)
    requires Agrees(s, p)
    ensures var t := Apply(s, e); Agrees(t.state, p + Emitted(t.publish))
  {
    var t := Apply(s, e);
    StepReportsExactlyTheChanges(s, e);
    if t.publish.Some? {
      var q := p + Emitted(t.publish);
      assert q == p + [t.state.occupied];
      forall i | 0 <= i < |q|
        ensures q[i] == (i % 2 == 0)
      {
        if i < |p| {
          assert q[i] == p[i];
        }
      }
    } else {
      assert p + Emitted(t.publish) == p;
    }
  }

  /** Any sequence of events keeps the reports in agreement with the state. */
  lemma {:induction false} RunKeepsAgreement(s: EngineState, p: seq<bool>, events: seq<Event>)
    requires Agrees(s, p)
    ensures var r := Run(s, events); Agrees(r.state, p + r.published)
    decreases |events|
  {
    if events != [] {
      var t := Apply(s, events[0]);
      var q := p + Emitted(t.publish);
      StepKeepsAgreement(s, p, events[0]);
      RunKeepsAgreement(t.state, q, events[1..]);
      var rest := Run(t.state, events[1..]);
      var r := Run(s, events);
      assert r == Trace(rest.state, Emitted(t.publish) + rest.published);
      assert q + rest.published == p + r.published;
    }
  }

  /**
   * From power-on, whatever edges and expiries happen: the timer is armed
   * only while occupied, the reported values strictly alternate starting
   * with `true`, and the last value reported is the current state.
   */
  lemma ReportsAlternateFromPowerOn(events: seq<Event>)
    ensures var r := Run(Initial, events);
      && Inv(r.state)
      && Alternating(r.published)
      && (r.published == [] ==> !r.state.occupied)
      && (r.published != [] ==> r.published[|r.published| - 1] == r.state.occupied)
  {
    var r := Run(Initial, events);
    RunKeepsAgreement(Initial, [], events);
    assert [] + r.published == r.published;
    assert Agrees(r.state, r.published);
    if r.published != [] {
      var n := |r.published| - 1;
      assert r.published[n] == (n % 2 == 0);
    }
  }

  /** Running two sequences one after the other is running their concatenation. */
  lemma {:induction false} RunAppend(s: EngineState, a: seq<Event>, b: seq<Event>)
    ensures var ra := Run(s, a); var rb := Run(ra.state, b);
      Run(s, a + b) == Trace(rb.state, ra.published + rb.published)
    decreases |a|
  {
    if a == [] {
      assert a + b == b;
    } else {
      assert (a + b)[0] == a[0];
      assert (a + b)[1..] == a[1..] + b;
      RunAppend(Apply(s, a[0]).state, a[1..], b);
    }
  }

  /** The events with every low-level edge taken out. */
  function WithoutLowEdges(events: seq<Event>): (r: seq<Event>)
    ensures |r| <= |events|
    ensures forall e :: e in r ==> e in events && !(e.Edge? && !e.levelHigh)
  {
    if events == [] then []
    else if events[0].Edge? && !events[0].levelHigh then WithoutLowEdges(events[1..])
    else [events[0]] + WithoutLowEdges(events[1..])
  }

  /**
   * Low-level edges carry no weight: taking all of them out yields the same
   * final state and the same reports, because the decision rests on the level
   * re-read, not on counting edges, and a low edge does not touch a timer that
   * is already armed. High-level edges do matter: a lost one that would have
   * read high can leave an earlier deadline in place.
   */
  lemma {:induction false} LowEdgesAreIgnored(s: EngineState, events: seq<Event>)
    ensures Run(s, WithoutLowEdges(events)) == Run(s, events)
    decreases |events|
  {
    if events != [] {
      LowEdgesAreIgnored(Apply(s, events[0]).state, events[1..]);
      if !(events[0].Edge? && !events[0].levelHigh) {
        var w := [events[0]] + WithoutLowEdges(events[1..]);
        assert w[0] == events[0] && w[1..] == WithoutLowEdges(events[1..]);
      }
    }
  }

  /**
   * A low-level record can be lost anywhere in the sequence: removing one
   * leaves the final state and the reports as they were. (A record lost
   * before it is dequeued has no level yet; one that would have read high
   * matters only when it is the last of its burst, see BurstKeepsOccupied.)
   */
  lemma OneLowEdgeIgnored(s: EngineState, a: seq<Event>, at: nat, delaySec: uint16, b: seq<Event>)
    ensures Run(s, a + [Edge(false, at, delaySec)] + b) == Run(s, a + b)
  {
    var ra := Run(s, a);
    RunAppend(s, a + [Edge(false, at, delaySec)], b);
    RunAppend(s, a, [Edge(false, at, delaySec)]);
    RunAppend(s, a, b);
    assert Run(ra.state, [Edge(false, at, delaySec)]) == Trace(ra.state, []);
    assert ra.published + [] == ra.published;
  }

  /**
   * Unlike a low-level record, a lost record that would have read high can
   * matter: dropping the later of two high edges leaves the earlier deadline
   * armed whenever the two deadlines differ.
   */
  lemma LostHighEdgeKeepsEarlierDeadline(s: EngineState, at: nat, delaySec: uint16, later: nat, laterDelay: uint16)
    requires at + TimeoutMicros(delaySec) != later + TimeoutMicros(laterDelay)
    ensures Run(s, [Edge(true, at, delaySec)]).state.deadline == Some(at + TimeoutMicros(delaySec))
    ensures Run(s, [Edge(true, at, delaySec), Edge(true, later, laterDelay)]).state.deadline == Some(later + TimeoutMicros(laterDelay))
    ensures Run(s, [Edge(true, at, delaySec), Edge(true, later, laterDelay)]) != Run(s, [Edge(true, at, delaySec)])
  {
    var first := [Edge(true, at, delaySec)];
    RunAppend(s, first, [Edge(true, later, laterDelay)]);
    assert first + [Edge(true, later, laterDelay)] == [Edge(true, at, delaySec), Edge(true, later, laterDelay)];
  }

  /** Every event is a high-level edge. */
  predicate AllHigh(events: seq<Event>)
  {
    forall i :: 0 <= i < |events| ==> events[i].Edge? && events[i].levelHigh
  }

  /**
   * Retriggering: after a burst of high-level edges the sensor is occupied
   * and the timer is armed once, for the last edge's time plus the delay read
   * at that edge; `true` is reported once if the sensor was unoccupied and
   * nothing is reported if it was already occupied.
   */
  lemma {:induction false} BurstKeepsOccupied(s: EngineState, burst: seq<Event>)
    requires burst != [] && AllHigh(burst)
    ensures var last := burst[|burst| - 1]; var r := Run(s, burst);
      && r.state == EngineState(true, Some(last.at + TimeoutMicros(last.delaySec)))
      && r.published == (if s.occupied then [] else [true])
    decreases |burst|
  {
    var t := Apply(s, burst[0]);
    if |burst| > 1 {
      BurstKeepsOccupied(t.state, burst[1..]);
      assert burst[1..][|burst| - 2] == burst[|burst| - 1];
    }
  }

  /**
   * The monostable completes: a burst of high-level edges followed by the
   * timer's expiry ends unoccupied with the timer idle, having reported
   * `true` (if the sensor was unoccupied before) and then `false` exactly once.
   */
  lemma BurstThenQuietPeriod(s: EngineState, burst: seq<Event>)
    requires burst != [] && AllHigh(burst)
    ensures var r := Run(s, burst + [Expiry]);
      && r.state == Initial
      && r.published == (if s.occupied then [] else [true]) + [false]
  {
    BurstKeepsOccupied(s, burst);
    RunAppend(s, burst, [Expiry]);
  }

  /** The deadline pending after the first `i` edges of a burst is set by edge `i - 1`. */
  lemma BurstPrefixDeadline(s: EngineState, burst: seq<Event>, i: nat)
    requires AllHigh(burst) && 0 < i <= |burst|
    ensures Run(s, burst[..i]).state.deadline == Some(burst[i - 1].at + TimeoutMicros(burst[i - 1].delaySec))
  {
    var prefix := burst[..i];
    assert AllHigh(prefix) by {
      forall k | 0 <= k < |prefix| ensures prefix[k].Edge? && prefix[k].levelHigh {
        assert prefix[k] == burst[k];
      }
    }
    BurstKeepsOccupied(s, prefix);
  }

  /**
   * Timing of a burst: when each high edge follows the previous one by less
   * than the delay that previous edge read, the deadline pending when edge
   * `i` arrives lies after it. Read against real time, the timer cannot
   * lapse inside the burst; it lapses only the delay after the last edge.
   */
  lemma BurstNeverLapses(s: EngineState, burst: seq<Event>, i: nat)
    requires AllHigh(burst) && 0 < i < |burst|
    requires forall k :: 0 < k < |burst| ==>
      burst[k - 1].at <= burst[k].at < burst[k - 1].at + TimeoutMicros(burst[k - 1].delaySec)
    ensures Run(s, burst[..i]).state.deadline.Some?
    ensures Run(s, burst[..i]).state.deadline.value > burst[i].at
  {
    BurstPrefixDeadline(s, burst, i);
  }

  /** A timer armed by the engine always lies at least one second in the future. */
  lemma ArmedTimerIsNeverZeroLength(s: EngineState, now: nat, store: DelayConfig.DelayStore, readOk: bool)
    ensures var t := OnEdge(s, true, now, DelayConfig.GetDelaySeconds(store, readOk));
      t.state.deadline.Some? && t.state.deadline.value >= now + MicrosPerSecond
  {
  }

  /**
   * `pir_sensor_config_t`: whether the callback pointer is set, and the
   * endpoint whose delay attribute is read. The callback's user data is
   * opaque to the driver.
   */
  datatype SensorConfig = SensorConfig(hasCallback: bool, endpointId: uint16)

  /**
   * The driver's module state: `g_occupancy_state`, `g_pir_config` once
   * stored, and the one-shot `g_unoccupied_timer` as its pending deadline.
   * `published` records, in order, every value passed to the callback.
   */
  class OccupancyEngine {
    var occupied: bool
    var deadline: Option<nat>
    var config: Option<SensorConfig>
    ghost var published: seq<bool>

    function State(): EngineState
      reads this
    {
      EngineState(occupied, deadline)
    }

    ghost predicate Valid()
      reads this
    {
      && Agrees(State(), published)
      && (config.Some? ==> config.value.hasCallback)
    }

    /** The statics before `pir_sensor_init`: unoccupied, no configuration, no timer. */
    constructor ()
      ensures Valid()
      ensures State() == Initial && config == None && published == []
    {
      occupied, deadline, config := false, None, None;
      published := [];
    }

    /**
     * `pir_sensor_init`: a missing configuration or callback is rejected
     * with ESP_ERR_INVALID_ARG and nothing is stored; otherwise the
     * configuration is stored (the GPIO, queue, task, timer and interrupt
     * set-up that follows is taken to succeed).
     */
    method Init(cfg: Option<SensorConfig>) returns (err: EspErr)
      requires Valid()
      modifies this
      ensures Valid()
      ensures cfg.None? || !cfg.value.hasCallback ==> err == ErrInvalidArg && config == old(config)
      ensures cfg.Some? && cfg.value.hasCallback ==> err == EspOk && config == cfg
      ensures State() == old(State()) && published == old(published)
    {
      if cfg.None? || !cfg.value.hasCallback {
        return ErrInvalidArg;
      }
      config := cfg;
      err := EspOk;
    }

    /**
     * The body of the `pir_sensor_task` loop for one dequeued record:
     * `levelHigh` is the level `gpio_get_level` returns then, `now` the time,
     * and the delay is read from `store` through the accessor.
     */
    method HandleEdge(levelHigh: bool, now: nat, store: DelayConfig.DelayStore, readOk: bool)
      requires Valid() && config.Some?
      modifies this
      ensures Valid() && config == old(config)
      ensures var t := OnEdge(old(State()), levelHigh, now, DelayConfig.GetDelaySeconds(store, readOk));
        State() == t.state && published == old(published) + Emitted(t.publish)
    {
      ghost var before := State();
      ghost var t := OnEdge(before, levelHigh, now, DelayConfig.GetDelaySeconds(store, readOk));
      StepKeepsAgreement(before, published, Edge(levelHigh, now, DelayConfig.GetDelaySeconds(store, readOk)));
      if levelHigh {
        if !occupied {
          occupied := true;
          // the callback is set: a stored configuration always has one
          published := published + [true];
        }
        var delaySec := DelayConfig.GetDelaySeconds(store, readOk);
        // esp_timer_stop, then esp_timer_start_once: one pending expiry, never two
        deadline := Some(now + TimeoutMicros(delaySec));
      }
      // A low level only reads the delay for the log line and changes nothing.
    }

    /** `unoccupied_timer_callback`, run when the armed one-shot timer expires. */
    method TimerExpired()
      requires Valid() && config.Some? && deadline.Some?
      modifies this
      ensures Valid() && config == old(config)
      ensures var t := OnTimerExpired(old(State()));
        State() == t.state && published == old(published) + Emitted(t.publish)
    {
      StepKeepsAgreement(State(), published, Expiry);
      occupied := false;
      published := published + [false];
      // a one-shot timer is idle once it has fired
      deadline := None;
    }

    /**
     * One turn of the `pir_sensor_task` loop: take the oldest record from the
     * queue and handle it with the level read at that moment; with an empty
     * queue the task stays blocked and nothing changes.
     */
    method ServeNextEdge(q: EdgeQueue.EdgeFifo, levelHigh: bool, now: nat, store: DelayConfig.DelayStore, readOk: bool)
      returns (handled: bool)
      requires Valid() && config.Some? && q.Valid()
      modifies this, q
      ensures Valid() && q.Valid() && config == old(config)
      ensures handled <==> old(q.Contents()) != []
      ensures handled ==> q.Contents() == old(q.Contents())[1..]
      ensures !handled ==> q.Contents() == old(q.Contents()) && State() == old(State()) && published == old(published)
      ensures handled ==> var t := OnEdge(old(State()), levelHigh, now, DelayConfig.GetDelaySeconds(store, readOk));
        State() == t.state && published == old(published) + Emitted(t.publish)
    {
      var record := q.Receive();
      handled := record.Some?;
      if handled {
        HandleEdge(levelHigh, now, store, readOk);
      }
    }
  }
}
