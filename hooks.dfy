/** `useDefaultedDebounce(value, delay, defaultValue)` of www/hooks/index.ts as an
    event-driven state machine: a change of any of its inputs cancels the pending timer,
    resets the output to the default and schedules a fresh timer; a timer that fires while
    still pending publishes the value it was scheduled with. */
module Hooks {
  import opened Wrappers

  /** A scheduled `setTimeout` callback: its handle and the value it will publish. */
  datatype Timer<T> = Timer(id: nat, value: T)

  class Debouncer<T(==)> {
    // the hook's inputs at the latest render
    var value: T
    var delay: int
    var defaultValue: T
    // the `debouncedValue` state the hook returns
    var output: T
    // the single timer not yet cleared or fired, and the next handle to hand out
    var pending: Option<Timer<T>>
    var nextId: nat

    /** The pending timer is the latest one scheduled and carries the current input; with no
        timer pending, the output has settled on the current input. */
    ghost predicate Valid()
      reads this
    {
      && (pending.Some? ==> pending.value.id + 1 == nextId && pending.value.value == value)
      && (pending.None? ==> output == value)
    }

    /** Mounting: the state starts at the initial input (not the default), and the effect
        schedules the first timer. */
    constructor (value: T, delay: int, defaultValue: T)
      ensures Valid()
      ensures this.value == value && this.delay == delay && this.defaultValue == defaultValue
      ensures output == value
      ensures pending == Some(Timer(0, value)) && nextId == 1
    {
      this.value := value;
      this.delay := delay;
      this.defaultValue := defaultValue;
      output := value;
      pending := Some(Timer(0, value));
      nextId := 1;
    }

    /** A render with new inputs. When none of them changed the effect does not re-run and
        nothing happens. Otherwise the previous effect's cleanup clears its timer and resets
        the output to the default it captured (the previous `defaultValue`), and the new
        effect schedules one fresh timer for the new value. */
    method Change(newValue: T, newDelay: int, newDefault: T)
      requires Valid()
      modifies this
      ensures Valid()
      ensures value == newValue && delay == newDelay && defaultValue == newDefault
      ensures old(value) == newValue && old(delay) == newDelay && old(defaultValue) == newDefault ==>
        output == old(output) && pending == old(pending) && nextId == old(nextId)
      ensures !(old(value) == newValue && old(delay) == newDelay && old(defaultValue) == newDefault) ==>
        && output == old(defaultValue)
        && pending == Some(Timer(old(nextId), newValue))
        && nextId == old(nextId) + 1
    {
      if value == newValue && delay == newDelay && defaultValue == newDefault {
        return;
      }
      // cleanup of the previous effect
      pending := None;
      output := defaultValue;
      // the new effect
      value, delay, defaultValue := newValue, newDelay, newDefault;
      pending := Some(Timer(nextId, newValue));
      nextId := nextId + 1;
    }

    /** The callback of timer `id` runs. A cleared timer's callback never runs, so only the
        pending timer has an effect: the output becomes the value it was scheduled with,
        which is the current input, and no timer is left pending. */
    method Fire(id: nat)
      requires Valid()
      modifies this
      ensures Valid()
      ensures value == old(value) && delay == old(delay) && defaultValue == old(defaultValue)
      ensures nextId == old(nextId)
      ensures old(pending) == Some(Timer(id, old(value))) ==> output == old(value) && pending == None
      ensures old(pending).None? || old(pending).value.id != id ==>
        output == old(output) && pending == old(pending)
    {
      if pending.Some? && pending.value.id == id {
        output := pending.value.value;
        pending := None;
      }
    }
  }

  /** Typing `a` and then `b` within the delay: the first timer is cleared, so `a` never
      becomes the output, while the timer scheduled for `b` publishes `b`. */
  method TypeTwice<T(==)>(initial: T, a: T, b: T, delay: int, default: T)
    returns (afterA: T, afterB: T, afterStaleFire: T, afterFire: T)
    requires initial != a && a != b
    ensures afterA == default && afterB == default && afterStaleFire == default
    ensures afterFire == b
  {
    var d := new Debouncer(initial, delay, default);
    d.Change(a, delay, default);
    afterA := d.output;
    var timerForA := d.nextId - 1;
    d.Change(b, delay, default);
    afterB := d.output;
    d.Fire(timerForA);
    afterStaleFire := d.output;
    d.Fire(d.nextId - 1);
    afterFire := d.output;
  }
}
