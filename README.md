# PIR occupancy sensor and LED indicator: a Dafny model

This project models the sequential core of the firmware of a Matter
occupancy sensor built on ESP-IDF:

- **The occupancy engine** (`firmware/main/drivers/pir_sensor.c`). This is a
  retriggerable monostable. The interrupt handler pushes the PIR pin number
  onto a ten-slot FreeRTOS queue and never blocks; a full queue drops the record.
  The sensor task takes records off the queue and judges each by the pin level
  it reads at that moment. A high level makes the sensor occupied, reporting
  `true` to the callback once, and re-arms the one-shot "unoccupied" timer for
  the delay read fresh from the attribute store. A low level does nothing. The
  timer's expiry makes the sensor unoccupied and reports `false`.
- **The LED indicator** (`firmware/main/drivers/led_indicator.c`). The LED is
  dim (duty 102), bright (duty 1023) or blinking, on a 10-bit PWM duty. A blink
  sequence alternates off and full brightness on a 150 ms periodic timer. It
  settles to steady bright after three completed cycles. The callback's static
  `led_state` is never reset, so a later sequence may begin on an "on" tick.
  Such a sequence shows two off-flashes instead of three. The model claims
  only that each sequence ends, and bounds how many ticks that takes.
- **The unoccupied-delay attribute** (`firmware/main/app_main.cpp`). The
  accessor `get_pir_unoccupied_delay_seconds` returns the stored value when it
  can be read and is positive. In every other case it returns 900 seconds. At
  startup, when the cluster exists, the attribute is created with 900 if it is
  missing, and a stored 0 is overwritten with 900 if the read succeeds. A
  stored 0 that could not be read stays, and the accessor then falls back to
  900.

Files:

- `common.dfy`: `Option`, the ESP-IDF error codes, and C integer types.
- `delay_config.dfy`: module `DelayConfig`.
- `edge_queue.dfy`: module `EdgeQueue`, the ten-slot ring over an array.
- `occupancy.dfy`: module `Occupancy`.
- `led_indicator.dfy`: module `LedIndicator`.

The occupancy and LED modules have the same two parts. First come functions
over a state value (`EngineState`, `LedState`), with lemmas about single
steps and about whole sequences of events. Then comes a class holding the
driver's statics (`OccupancyEngine`, `Indicator`). Each of its methods updates
the fields in place and is proved to leave exactly the state those functions
give.

Inputs the firmware gets from hardware or the framework are parameters of the
model. These are the pin level returned by `gpio_get_level`, the current time,
the contents of the attribute store, and whether an `attribute::get_val` call
succeeds. Each edge handled and each timer expiry is one atomic event.

Three facts about the code shape the model:

- When the queue is full, `xQueueSendFromISR` fails and the new record is dropped; the records already queued stay.
- Nothing in these files calls the LED driver from the occupancy path.
- The results of `esp_timer_stop` and `esp_timer_start_once` are not checked.

## Model

| member | source | states |
|---|---|---|
| `DelayConfig.ReadDelay` | firmware/main/app_main.cpp:234-240 | a value is read exactly when the cluster and the attribute exist and `get_val` succeeds, and it is the stored value |
| `DelayConfig.GetDelaySeconds` | firmware/main/app_main.cpp:232-249 | the result is never 0; it is the stored value when that is readable and positive, and 900 when the cluster or attribute is missing, the read fails or the value is 0 |
| `DelayConfig.WithDefaultDelay` | firmware/main/app_main.cpp:170-201 | startup creates a missing attribute with 900 and overwrites a stored 0 with 900; a missing cluster, a failed read or a non-zero value leave the store unchanged |
| `DelayConfig.StartupMakesStoredDelayEffective` | firmware/main/app_main.cpp:177-191 | when the cluster exists and the startup read succeeds, the attribute exists afterwards, and a successful accessor read returns exactly the stored value, which is 900 or the earlier non-zero value |
| `DelayConfig.StartupDefaultIsIdempotent` | firmware/main/app_main.cpp:185-191 | running the startup block again changes nothing |
| `DelayConfig.AttributeStore.EnsureDefaultDelay` | firmware/main/app_main.cpp:170-201 | updates the store in place to exactly `WithDefaultDelay` of the old store |
| `EdgeQueue.EdgeFifo.constructor` | firmware/main/drivers/pir_sensor.c:110-111 | an empty queue over an array of ten slots |
| `EdgeQueue.EdgeFifo.SendFromIsr` | firmware/main/drivers/pir_sensor.c:33-40 | the send never blocks: with fewer than ten records it appends the pin (FIFO); on a full queue it drops the record and leaves the queued records unchanged |
| `EdgeQueue.EdgeFifo.Receive` | firmware/main/drivers/pir_sensor.c:55 | returns and removes the oldest record; on an empty queue it returns nothing (the task stays blocked) and changes nothing |
| `Occupancy.TimeoutMicros` | firmware/main/drivers/pir_sensor.c:73 | the uint64 product of the delay and 1,000,000 cannot overflow, converts back to exactly the delay, and is at least one second for a non-zero delay |
| `Occupancy.OnEdge` | firmware/main/drivers/pir_sensor.c:56-83 | a report happens exactly when the occupancy changes, and it carries the new state; a high level leaves the sensor occupied with one deadline at now + delay·10^6 µs; a low level changes nothing and reports nothing |
| `Occupancy.OnTimerExpired` | firmware/main/drivers/pir_sensor.c:42-49 | expiry returns the engine to unoccupied with the timer idle, and reports the new state `false` |
| `Occupancy.StepReportsExactlyTheChanges` | firmware/main/drivers/pir_sensor.c:42-75 | for any edge or expiry, the timer stays armed only while occupied, and a value is reported exactly when the state changes |
| `Occupancy.StepKeepsAgreement` | firmware/main/drivers/pir_sensor.c:42-75 | one event keeps the reports alternating, with the state occupied exactly when an odd number of values has gone out |
| `Occupancy.RunKeepsAgreement` | firmware/main/drivers/pir_sensor.c:42-85 | the same agreement holds after any sequence of edges and expiries |
| `Occupancy.ReportsAlternateFromPowerOn` | firmware/main/drivers/pir_sensor.c:22-24 | from power-on, armed implies occupied; the reports strictly alternate true, false, true, … starting with `true`; the last report is the current state |
| `Occupancy.LowEdgesAreIgnored` | firmware/main/drivers/pir_sensor.c:76-83 | removing every low-level edge from a sequence changes neither the final state nor the reports |
| `Occupancy.OneLowEdgeIgnored` | firmware/main/drivers/pir_sensor.c:76-83 | losing a single low-level edge anywhere in a sequence changes neither the final state nor the reports; high-level edges are not covered (`LostHighEdgeKeepsEarlierDeadline`) |
| `Occupancy.LostHighEdgeKeepsEarlierDeadline` | firmware/main/drivers/pir_sensor.c:68-74 | a lost record that would have read high is not harmless: without the later of two high edges the earlier deadline stays armed, so the final state differs whenever the two deadlines differ |
| `Occupancy.BurstKeepsOccupied` | firmware/main/drivers/pir_sensor.c:60-75 | after a burst of high edges the sensor is occupied, with a single deadline at the last edge's time plus the delay read at that edge; `true` is reported once if it was unoccupied, and nothing if it was already occupied |
| `Occupancy.BurstThenQuietPeriod` | firmware/main/drivers/pir_sensor.c:42-75 | a burst followed by the expiry ends unoccupied and idle; the reports are `true` (if it was unoccupied) and then exactly one `false` |
| `Occupancy.BurstNeverLapses` | firmware/main/drivers/pir_sensor.c:68-75 | when each edge follows the previous one by less than the delay that edge read, the deadline pending at each edge lies after that edge, so in real time the timer cannot lapse inside the burst |
| `Occupancy.ArmedTimerIsNeverZeroLength` | firmware/main/drivers/pir_sensor.c:69-73 | with the delay taken from the accessor, an armed deadline is at least one second after the edge |
| `Occupancy.OccupancyEngine.constructor` | firmware/main/drivers/pir_sensor.c:22-24 | the statics start unoccupied, with no configuration and no timer pending |
| `Occupancy.OccupancyEngine.Init` | firmware/main/drivers/pir_sensor.c:88-94 | a null configuration or callback returns ESP_ERR_INVALID_ARG and stores nothing; otherwise the configuration is stored and ESP_OK returned |
| `Occupancy.OccupancyEngine.HandleEdge` | firmware/main/drivers/pir_sensor.c:56-83 | updates state and reports in place to exactly `OnEdge`, with the delay read fresh through the accessor, and keeps the alternation invariant |
| `Occupancy.OccupancyEngine.TimerExpired` | firmware/main/drivers/pir_sensor.c:42-49 | updates state and reports in place to exactly `OnTimerExpired` and keeps the invariant |
| `Occupancy.OccupancyEngine.ServeNextEdge` | firmware/main/drivers/pir_sensor.c:51-86 | one loop turn: with a record queued, it removes the oldest and handles it as `OnEdge`; with an empty queue nothing changes |
| `LedIndicator.StopBlinking` | firmware/main/drivers/led_indicator.c:79-83 | a running sequence is stopped, its timer stopped and the flag cleared; otherwise nothing changes |
| `LedIndicator.AfterSetDim` | firmware/main/drivers/led_indicator.c:74-91 | before init it returns ESP_ERR_INVALID_STATE and changes nothing; otherwise ESP_OK, duty 102, not blinking |
| `LedIndicator.AfterSetBright` | firmware/main/drivers/led_indicator.c:93-110 | before init it returns ESP_ERR_INVALID_STATE and changes nothing; otherwise ESP_OK, duty 1023, not blinking |
| `LedIndicator.AfterSetBlink` | firmware/main/drivers/led_indicator.c:112-134 | before init it returns ESP_ERR_INVALID_STATE and changes nothing; otherwise ESP_OK, duty 1023, counter 0, blinking, a 150 ms periodic timer running, and `led_state` untouched |
| `LedIndicator.AfterDeinit` | firmware/main/drivers/led_indicator.c:136-160 | before init it returns ESP_ERR_INVALID_STATE and changes nothing; otherwise ESP_OK, not blinking, timer deleted, duty 0, uninitialised |
| `LedIndicator.AfterInit` | firmware/main/drivers/led_indicator.c:31-72 | an initialised indicator is rejected with ESP_ERR_INVALID_STATE and nothing changes; otherwise the pin is recorded, the timer created, and the LED is left dim and not blinking |
| `LedIndicator.AfterTick` | firmware/main/drivers/led_indicator.c:162-190 | the duty goes to 0 on an off tick and to 1023 on an on tick; the counter grows only on the on tick; the final tick stops the timer, ends blinking and does not toggle `led_state` |
| `LedIndicator.CallKeepsInv` | firmware/main/drivers/led_indicator.c:74-160 | every entry point keeps the invariant: the timer runs exactly while blinking, the counter stays at most 3 (below 3 while blinking), and the duty stays in {0, 102, 1023} ⊆ [0, 1023] |
| `LedIndicator.CallsRespectInitialisation` | firmware/main/drivers/led_indicator.c:31-37 | before init every call but init returns ESP_ERR_INVALID_STATE and changes nothing; after init, init is the call rejected; after deinit, init on any pin succeeds again |
| `LedIndicator.InitLeavesDim` | firmware/main/drivers/led_indicator.c:31-72 | a successful init gives exactly the old state with the pin recorded, the timer created but stopped, and duty 102 |
| `LedIndicator.TickKeepsInv` | firmware/main/drivers/led_indicator.c:162-190 | a tick of the running timer keeps the invariant |
| `LedIndicator.TickMakesProgress` | firmware/main/drivers/led_indicator.c:162-190 | every tick of a running sequence lowers the remaining tick count by exactly one |
| `LedIndicator.SequenceSettles` | firmware/main/drivers/led_indicator.c:173-185 | a sequence keeps blinking for exactly its remaining ticks (at most 6); after that, the timer is stopped, the duty is 1023 and the counter is 3 |
| `LedIndicator.BlinkThenHold` | firmware/main/drivers/led_indicator.c:112-134 | `set_blink` starts a sequence that runs 5 or 6 ticks (at most 2·BLINK_COUNT), then is steady bright with no further ticks |
| `LedIndicator.RestartCollapses` | firmware/main/drivers/led_indicator.c:117-130 | `set_blink` after any number of ticks of a sequence restarts from a zero count; the state equals a single `set_blink` except for `led_state`, so sequences never stack |
| `LedIndicator.Indicator.constructor` | firmware/main/drivers/led_indicator.c:23-26 | the statics start uninitialised (pin -1), not blinking, counter 0, `led_state` true, no timer |
| `LedIndicator.Indicator.StopIfBlinking` | firmware/main/drivers/led_indicator.c:79-83 | updates the fields in place to exactly `StopBlinking` |
| `LedIndicator.Indicator.SetDim` | firmware/main/drivers/led_indicator.c:74-91 | status and new fields are exactly `AfterSetDim` of the old fields |
| `LedIndicator.Indicator.SetBright` | firmware/main/drivers/led_indicator.c:93-110 | status and new fields are exactly `AfterSetBright` of the old fields |
| `LedIndicator.Indicator.SetBlink` | firmware/main/drivers/led_indicator.c:112-134 | status and new fields are exactly `AfterSetBlink`; the periodic timer is never started while already running, so its ESP_ERROR_CHECK cannot abort |
| `LedIndicator.Indicator.Deinit` | firmware/main/drivers/led_indicator.c:136-160 | status and new fields are exactly `AfterDeinit` of the old fields |
| `LedIndicator.Indicator.Init` | firmware/main/drivers/led_indicator.c:31-72 | status and new fields are exactly `AfterInit`; the inner `set_dim` returns ESP_OK, so its ESP_ERROR_CHECK cannot abort |
| `LedIndicator.Indicator.BlinkTick` | firmware/main/drivers/led_indicator.c:162-190 | the callback updates the fields in place to exactly `AfterTick`, calling `set_bright` on the final tick |

## Left out

- Concurrency is not modelled. The interrupt handler, the sensor task and the esp_timer callback really race on `g_occupancy_state`. Here each edge handled and each timer expiry is one atomic event. Nothing is claimed about thread safety, or about an expiry already dispatched when `esp_timer_stop` runs.
- Hardware and framework calls are not modelled: GPIO, LEDC and esp_timer configuration, task creation, and the ESP-IDF logging. They are taken to succeed. This covers `esp_timer_stop` and `esp_timer_start_once` on an edge (pir_sensor.c:72-73), whose results the code ignores, and `attribute::create` and `attribute::update` in the startup block (app_main.cpp:179, :188), which are treated as always succeeding.
- The failure and cleanup paths of `pir_sensor_init` after argument validation (pir_sensor.c:98-157) are not modelled.
- The `ESP_ERROR_CHECK` aborts in the LED driver are not modelled; the two that the driver's own logic could trigger are proved unreachable.
- Occupancy.OccupancyEngine.HandleEdge: requires a successful `pir_sensor_init`. The task, the queue and the timer exist only after it has stored a configuration with a callback. So the callback guard (pir_sensor.c:46, :64) and the timer-handle guard (pir_sensor.c:69) always hold here.
- Occupancy.OccupancyEngine.TimerExpired: requires an initialised engine with a pending deadline, because esp_timer calls back only for an armed timer. `Occupancy.Apply` likewise treats an expiry with no pending deadline as no event.
- Occupancy.OccupancyEngine.Init: the model keeps one queue, one task and one timer. A second successful call in the source would create another of each.
- LedIndicator.AfterInit: requires a non-negative pin. A negative pin makes the LEDC channel configuration (or, for -1, the inner `set_dim`) fail and `ESP_ERROR_CHECK` abort.
- The delay is read through `get_pir_unoccupied_delay_seconds` for the configured endpoint. The model's store holds that endpoint's cluster only.
- Time is not compared with the deadline in a trace: an `Expiry` event may come at any point while the timer is armed, which over-approximates esp_timer, so the safety results hold for every timing. The "cannot lapse" of `Occupancy.BurstNeverLapses` is an argument about real time (the pending deadline lies after the next edge), not a fact that `Occupancy.Run` enforces.
- The low-level branch also reads the delay, for a log line only. Reading it has no effect, so the model does not repeat the read.
- The model does not wire occupancy to the LED. No code in these files calls the LED driver from the occupancy path.
- `firmware/main/drivers/shtc3.cpp` is not modelled: I2C transfers, delays and floating-point conversion.
- The rest of `app_main.cpp` is not modelled: Matter node and endpoint creation, event and attribute callbacks, commissioning, OpenThread set-up, and `occupancy_sensor_notification`. It only forwards to the framework.
