/**
 * The LED indicator driver: a PWM-driven LED that is dim, bright, or running
 * a blink sequence (alternately off and full brightness on a 150 ms periodic
 * timer) that settles to steady bright after three completed cycles.
 *
 * The driver's statics are `s_led_gpio` (-1 until initialised),
 * `s_is_blinking`, `s_blink_counter`, the blink timer handle, and the
 * function-static `led_state` of the timer callback, which is never reset:
 * a later sequence may start on an "on" tick, so the number of visible
 * off-flashes per sequence is two or three. What is proved is that every
 * sequence ends, steady bright, within 2 * BlinkCount ticks.
 *
 * As in the occupancy module, functions over a state value come first, then
 * the class that holds the statics, each entry point proved against them.
 */
module LedIndicator {
  import opened Common

  /** 10-bit LEDC duty resolution: duties run from 0 to 1023. */
  const DutyMax: nat := 1023
  /** About 10% brightness. */
  const DutyDim: nat := 102
  /** Full brightness. */
  const DutyBright: nat := 1023
  /** Off. */
  const DutyOff: nat := 0
  /** The blink timer's period, 150 ms, in microseconds as `esp_timer_start_periodic` takes it. */
  const BlinkPeriodUs: nat := 150 * 1000
  /** Completed off/on cycles after which a blink sequence settles. */
  const BlinkCount: nat := 3
  /** The value of `s_led_gpio` before initialisation and after `deinit`. */
  const NoGpio: int := -1

  /** The blink `esp_timer`: not created (or deleted), created and stopped, or running periodically. */
  datatype BlinkTimer = Absent | Stopped | Running(periodUs: nat)

  /**
   * The driver's state: the LED pin (`NoGpio` when uninitialised), whether a
   * blink sequence runs, the completed-cycle counter, the callback's
   * `led_state` (true: the next tick turns the LED off), the duty applied to
   * the LEDC channel, and the blink timer.
   */
  datatype LedState = LedState(
    gpio: int,
    blinking: bool,
    counter: int,
    ledOn: bool,
    duty: int,
    timer: BlinkTimer)

  /** The statics at power-on. */
  const PowerOn := LedState(NoGpio, false, 0, true, DutyOff, Absent)

  /** What an entry point returns, and the state it leaves. */
  datatype Outcome = Outcome(status: EspErr, after: LedState)

  /** The three duty levels the driver ever applies. */
  predicate KnownDuty(duty: int)
  {
    duty == DutyOff || duty == DutyDim || duty == DutyBright
  }

  /**
   * What every entry point and every tick preserve: the timer exists exactly
   * while the driver is initialised; it runs exactly while a sequence is
   * blinking, and then with the 150 ms period; the counter stays within
   * 0..BlinkCount and below BlinkCount while blinking; the duty is one of
   * the three levels.
   */
  ghost predicate Inv(s: LedState)
  {
    && (s.gpio == NoGpio <==> s.timer == Absent)
    && (s.blinking <==> s.timer.Running?)
    && (s.timer.Running? ==> s.timer.periodUs == BlinkPeriodUs)
    && 0 <= s.counter <= BlinkCount
    && (s.blinking ==> s.counter < BlinkCount)
    && KnownDuty(s.duty)
  }

  /** `esp_timer_stop` when `s_is_blinking` is set, which clears the flag. */
  function StopBlinking(s: LedState): (r: LedState)
    ensures !r.blinking
    ensures s.blinking ==> r == s.(blinking := false, timer := if s.timer.Absent? then Absent else Stopped)
    ensures !s.blinking ==> r == s
  {
    if s.blinking then
      s.(blinking := false, timer := if s.timer.Absent? then Absent else Stopped)
    else
      s
  }

  /**
   * `pir_led_indicator_set_dim`: rejected with ESP_ERR_INVALID_STATE before
   * initialisation, changing nothing; otherwise any blink sequence is
   * stopped and the LED is left dim.
   */
  function AfterSetDim(s: LedState): (o: Outcome)
    ensures s.gpio == NoGpio ==> o == Outcome(ErrInvalidState, s)
    ensures s.gpio != NoGpio ==> o.status == EspOk && o.after.duty == DutyDim && !o.after.blinking
  {
    if s.gpio == NoGpio then Outcome(ErrInvalidState, s)
    else Outcome(EspOk, StopBlinking(s).(duty := DutyDim))
  }

  /**
   * `pir_led_indicator_set_bright`: rejected before initialisation, changing
   * nothing; otherwise any blink sequence is stopped and the LED is left at
   * full brightness.
   */
  function AfterSetBright(s: LedState): (o: Outcome)
    ensures s.gpio == NoGpio ==> o == Outcome(ErrInvalidState, s)
    ensures s.gpio != NoGpio ==> o.status == EspOk && o.after.duty == DutyBright && !o.after.blinking
  {
    if s.gpio == NoGpio then Outcome(ErrInvalidState, s)
    else Outcome(EspOk, StopBlinking(s).(duty := DutyBright))
  }

  /**
   * `pir_led_indicator_set_blink`: rejected before initialisation, changing
   * nothing; otherwise a running sequence is stopped, and a new one starts
   * at full brightness with the counter at zero and the timer running every
   * 150 ms. `led_state` is left as it is.
   */
  function AfterSetBlink(s: LedState): (o: Outcome)
    ensures s.gpio == NoGpio ==> o == Outcome(ErrInvalidState, s)
    ensures s.gpio != NoGpio ==>
      && o.status == EspOk
      && o.after == s.(blinking := true, counter := 0, duty := DutyBright, timer := Running(BlinkPeriodUs))
  {
    if s.gpio == NoGpio then Outcome(ErrInvalidState, s)
    else
      var restarted := if s.blinking then s.(timer := Stopped, counter := 0) else s;
      Outcome(EspOk, restarted.(duty := DutyBright, counter := 0, timer := Running(BlinkPeriodUs), blinking := true))
  }

  /**
   * `pir_led_indicator_deinit`: rejected before initialisation, changing
   * nothing; otherwise blinking stops, the timer is deleted, the LED is
   * turned off and the driver is uninitialised again.
   */
  function AfterDeinit(s: LedState): (o: Outcome)
    ensures s.gpio == NoGpio ==> o == Outcome(ErrInvalidState, s)
    ensures s.gpio != NoGpio ==>
      && o.status == EspOk
      && o.after.gpio == NoGpio && o.after.timer == Absent && !o.after.blinking && o.after.duty == DutyOff
  {
    if s.gpio == NoGpio then Outcome(ErrInvalidState, s)
    else
      var stopped := StopBlinking(s);
      var deleted := if !stopped.timer.Absent? then stopped.(timer := Absent) else stopped;
      Outcome(EspOk, deleted.(duty := DutyOff, gpio := NoGpio))
  }

  /**
   * `pir_led_indicator_init` with a non-negative pin: rejected with
   * ESP_ERR_INVALID_STATE when already initialised, changing nothing;
   * otherwise the pin is recorded, the timer created (stopped), and the LED
   * set dim through `set_dim`.
   */
  function AfterInit(s: LedState, pin: int): (o: Outcome)
    requires pin >= 0
    ensures s.gpio != NoGpio ==> o == Outcome(ErrInvalidState, s)
    ensures s.gpio == NoGpio ==>
      && o.status == EspOk && o.after.gpio == pin && !o.after.timer.Absent?
      && o.after.duty == DutyDim && !o.after.blinking
  {
    if s.gpio != NoGpio then Outcome(ErrInvalidState, s)
    else
      var created := s.(gpio := pin, timer := if s.timer.Absent? then Stopped else s.timer);
      Outcome(EspOk, AfterSetDim(created).after)
  }

  /**
   * `blink_timer_callback`: an "off" tick turns the LED off; an "on" tick
   * turns it to full brightness and counts a completed cycle; the on tick
   * that completes the BlinkCount-th cycle stops the timer and leaves the
   * LED steady bright through `set_bright`, returning before `led_state` is
   * toggled.
   */
  function AfterTick(s: LedState): (r: LedState)
    ensures r.gpio == s.gpio
    ensures r.duty == (if s.ledOn then DutyOff else DutyBright)
    ensures r.counter == (if s.ledOn then s.counter else s.counter + 1)
    ensures s.gpio != NoGpio && !s.ledOn && r.counter >= BlinkCount ==> !r.blinking && !r.timer.Running? && !r.ledOn
    ensures s.ledOn || r.counter < BlinkCount ==> r.ledOn == !s.ledOn && r.timer == s.timer && r.blinking == s.blinking
  {
    if s.ledOn then
      s.(duty := DutyOff, ledOn := false)
    else
      var counted := s.(counter := s.counter + 1);
      if counted.counter >= BlinkCount then
        var stopped := counted.(timer := if counted.timer.Absent? then Absent else Stopped, blinking := false);
        AfterSetBright(stopped.(duty := DutyBright)).after
      else
        counted.(duty := DutyBright, ledOn := true)
  }

  /** The driver's calls, for stating what all of them have in common. */
  datatype Call = InitCall(pin: nat) | SetDimCall | SetBrightCall | SetBlinkCall | DeinitCall

  function Perform(s: LedState, c: Call): Outcome
  {
    match c
    case InitCall(pin) => AfterInit(s, pin)
    case SetDimCall => AfterSetDim(s)
    case SetBrightCall => AfterSetBright(s)
    case SetBlinkCall => AfterSetBlink(s)
    case DeinitCall => AfterDeinit(s)
  }

  /** Every entry point keeps the invariant, so the duty is always 0, 102 or 1023 and the counter at most 3. */
  lemma CallKeepsInv(s: LedState, c: Call)
    requires Inv(s)
    ensures Inv(Perform(s, c).after)
    ensures 0 <= Perform(s, c).after.duty <= DutyMax && Perform(s, c).after.counter <= BlinkCount
  {
  }

  /**
   * Before initialisation every call but `init` is rejected with
   * ESP_ERR_INVALID_STATE and changes nothing; after it, `init` is the one
   * rejected. A successful `deinit` makes the next `init` succeed.
   */
  lemma CallsRespectInitialisation(s: LedState, c: Call, pin: nat)
    requires Inv(s)
    ensures s.gpio == NoGpio && !c.InitCall? ==> Perform(s, c) == Outcome(ErrInvalidState, s)
    ensures s.gpio != NoGpio && c.InitCall? ==> Perform(s, c) == Outcome(ErrInvalidState, s)
    ensures s.gpio != NoGpio ==> AfterInit(AfterDeinit(s).after, pin).status == EspOk
  {
  }

  /**
   * A successful init leaves the LED dim and not blinking, with the blink
   * timer created but stopped.
   */
  lemma InitLeavesDim(s: LedState, pin: nat)
    requires Inv(s) && s.gpio == NoGpio
    ensures AfterInit(s, pin) == Outcome(EspOk, s.(gpio := pin, timer := Stopped, duty := DutyDim))
  {
  }

  /** A tick, which the timer delivers only while running, keeps the invariant. */
  lemma TickKeepsInv(s: LedState)
    requires Inv(s) && s.timer.Running?
    ensures Inv(AfterTick(s))
  {
  }

  /**
   * The ticks left before a running sequence settles: two per cycle still
   * to complete, one fewer when the next tick is an "on" tick.
   */
  function TicksLeft(s: LedState): (n: nat)
    requires Inv(s)
    ensures n <= 2 * BlinkCount
    ensures s.blinking <==> n > 0
  {
    if !s.blinking then 0
    else if s.ledOn then 2 * (BlinkCount - s.counter)
    else 2 * (BlinkCount - s.counter) - 1
  }

  /** Every tick brings a running sequence one tick closer to its end. */
  lemma TickMakesProgress(s: LedState)
    requires Inv(s) && s.blinking
    ensures Inv(AfterTick(s)) && TicksLeft(AfterTick(s)) == TicksLeft(s) - 1
    ensures AfterTick(s).gpio == s.gpio
  {
  }

  /** The state after `n` timer ticks; once the timer is stopped no tick comes. */
  function Ticks(s: LedState, n: nat): LedState
    decreases n
  {
    if n == 0 || !s.timer.Running? then s else Ticks(AfterTick(s), n - 1)
  }

  /**
   * Termination of a blink sequence: it keeps blinking for exactly
   * `TicksLeft(s)` ticks, at most 2 * BlinkCount, and then the timer is
   * stopped and the LED is steady bright, with no further ticks.
   */
  lemma {:induction false} SequenceSettles(s: LedState, k: nat)
    requires Inv(s) && s.blinking
    ensures Inv(Ticks(s, k))
    ensures k < TicksLeft(s) ==> Ticks(s, k).blinking
    ensures k >= TicksLeft(s) ==>
      && Ticks(s, k).timer == Stopped && !Ticks(s, k).blinking && Ticks(s, k).duty == DutyBright
      && Ticks(s, k).counter == BlinkCount
    decreases k
  {
    TickMakesProgress(s);
    if k > 0 {
      var t := AfterTick(s);
      if t.blinking {
        SequenceSettles(t, k - 1);
      } else {
        assert Ticks(s, k) == t;
      }
    }
  }

  /**
   * `set_blink` starts a sequence that settles to steady bright after at
   * most 2 * BlinkCount and at least 2 * BlinkCount - 1 ticks (the latter
   * when `led_state` was left "off" by an earlier sequence).
   */
  lemma BlinkThenHold(s: LedState)
    requires Inv(s) && s.gpio != NoGpio
    ensures var b := AfterSetBlink(s).after;
      && Inv(b) && b.blinking && b.counter == 0 && b.duty == DutyBright
      && 2 * BlinkCount - 1 <= TicksLeft(b) <= 2 * BlinkCount
      && Ticks(b, TicksLeft(b)).duty == DutyBright && Ticks(b, TicksLeft(b)).timer == Stopped
  {
    SequenceSettles(AfterSetBlink(s).after, TicksLeft(AfterSetBlink(s).after));
  }

  /** Ticks never change the pin. */
  lemma {:induction false} TicksKeepGpio(s: LedState, k: nat)
    ensures Ticks(s, k).gpio == s.gpio
    decreases k
  {
    if k > 0 && s.timer.Running? {
      TicksKeepGpio(AfterTick(s), k - 1);
    }
  }

  /**
   * Restarting mid-sequence collapses: calling `set_blink` again after any
   * number of ticks of a sequence starts one fresh sequence from a zero
   * count, the same state as a single `set_blink` apart from `led_state`;
   * sequences never stack.
   */
  lemma RestartCollapses(s: LedState, k: nat)
    requires Inv(s) && s.gpio != NoGpio
    ensures var first := AfterSetBlink(s).after;
      AfterSetBlink(Ticks(first, k)).after == first.(ledOn := Ticks(first, k).ledOn)
  {
    TicksKeepGpio(AfterSetBlink(s).after, k);
  }

  /** The driver's statics, updated in place by its entry points and its timer callback. */
  class Indicator {
    var gpio: int
    var blinking: bool
    var counter: int
    var ledOn: bool
    var duty: int
    var timer: BlinkTimer

    function View(): LedState
      reads this
    {
      LedState(gpio, blinking, counter, ledOn, duty, timer)
    }

    ghost predicate Valid()
      reads this
    {
      Inv(View())
    }

    /** The statics' initial values. */
    constructor ()
      ensures Valid() && View() == PowerOn
    {
      gpio, blinking, counter, ledOn, duty, timer := NoGpio, false, 0, true, DutyOff, Absent;
    }

    /** Stops the running blink timer and clears `s_is_blinking` (the `if (s_is_blinking)` blocks). */
    method StopIfBlinking()
      requires Valid()
      modifies this
      ensures Valid() && View() == StopBlinking(old(View()))
    {
      if blinking {
        if timer.Running? {
          timer := Stopped;
        }
        blinking := false;
      }
    }

    method SetDim() returns (err: EspErr)
      requires Valid()
      modifies this
      ensures Valid() && Outcome(err, View()) == AfterSetDim(old(View()))
    {
      if gpio == NoGpio {
        return ErrInvalidState;
      }
      StopIfBlinking();
      duty := DutyDim;
      err := EspOk;
    }

    method SetBright() returns (err: EspErr)
      requires Valid()
      modifies this
      ensures Valid() && Outcome(err, View()) == AfterSetBright(old(View()))
    {
      if gpio == NoGpio {
        return ErrInvalidState;
      }
      StopIfBlinking();
      duty := DutyBright;
      err := EspOk;
    }

    method SetBlink() returns (err: EspErr)
      requires Valid()
      modifies this
      ensures Valid() && Outcome(err, View()) == AfterSetBlink(old(View()))
    {
      if gpio == NoGpio {
        return ErrInvalidState;
      }
      if blinking {
        timer := Stopped;
        counter := 0;
      }
      duty := DutyBright;
      counter := 0;
      // ESP_ERROR_CHECK(esp_timer_start_periodic(...)) succeeds: the timer exists and is not running
      assert timer == Stopped;
      timer := Running(BlinkPeriodUs);
      blinking := true;
      err := EspOk;
    }

    method Deinit() returns (err: EspErr)
      requires Valid()
      modifies this
      ensures Valid() && Outcome(err, View()) == AfterDeinit(old(View()))
    {
      if gpio == NoGpio {
        return ErrInvalidState;
      }
      StopIfBlinking();
      if !timer.Absent? {
        timer := Absent;
      }
      duty := DutyOff;
      gpio := NoGpio;
      err := EspOk;
    }

    method Init(pin: int) returns (err: EspErr)
      requires Valid() && pin >= 0
      modifies this
      ensures Valid() && Outcome(err, View()) == AfterInit(old(View()), pin)
    {
      if gpio != NoGpio {
        return ErrInvalidState;
      }
      gpio := pin;
      // the LEDC timer and channel are configured; the blink timer is created, not started
      timer := Stopped;
      err := SetDim();
      // ESP_ERROR_CHECK(pir_led_indicator_set_dim()) succeeds: the pin is set
      assert err == EspOk;
    }

    /** `blink_timer_callback`, delivered by the periodic timer while it runs. */
    method BlinkTick()
      requires Valid() && timer.Running?
      modifies this
      ensures Valid() && View() == AfterTick(old(View()))
    {
      TickKeepsInv(View());
      if ledOn {
        duty := DutyOff;
      } else {
        duty := DutyBright;
        counter := counter + 1;
        if counter >= BlinkCount {
          timer := Stopped;
          blinking := false;
          var _ := SetBright();
          return;
        }
      }
      ledOn := !ledOn;
    }
  }
}
