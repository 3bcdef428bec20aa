/**
 * The event detail page: it selects the routed event in the store, follows
 * the store's selected event, and runs a once-a-second countdown to the
 * event's start.
 *
 * Timers are logical. `live` is the set of intervals registered with the
 * timer service on this component's behalf; `setInterval` hands out a fresh
 * handle, `clearInterval` takes it out of `live`, and the interval's
 * callback is the `Tick` step, given the current time `now`. The store's
 * `selectedEvent$` stream is delivered through `OnSelectedEvent` and
 * `OnSelectedEventError`; calls into the store are appended to `calls`.
 */
module EventDetail {
  import opened Wrappers
  import opened EventModel
  import opened Countdown

  class EventDetailComponent {
    var event: Option<CulturalEvent>
    var error: Option<string>
    var countdown: Option<Remaining>
    var countdownInterval: Option<nat>
    var live: set<nat>
    var nextHandle: nat
    var subscribed: bool
    var calls: seq<StoreCall>

    /** At most one interval is registered, and it is the one the component holds. */
    ghost predicate Valid()
      reads this
    {
      forall h :: h in live ==> countdownInterval == Some(h) && h < nextHandle
    }

    constructor ()
      ensures Valid()
      ensures event == None && error == None && countdown == None
      ensures countdownInterval == None && live == {} && !subscribed && calls == []
    {
      event, error, countdown := None, None, None;
      countdownInterval, live, nextHandle := None, {}, 1;
      subscribed, calls := false, [];
    }

    /**
     * Reads the route's `id`; with none (or an empty one) nothing happens.
     * Otherwise the event is selected in the store and the component starts
     * following the store's selected event.
     */
    method NgOnInit(routeId: Option<string>)
      requires Valid()
      modifies this
      ensures Valid()
      ensures routeId == None || routeId == Some("") ==> calls == old(calls) && subscribed == old(subscribed)
      ensures routeId != None && routeId != Some("") ==> calls == old(calls) + [SelectEvent(routeId)] && subscribed
      ensures event == old(event) && error == old(error) && countdown == old(countdown)
      ensures countdownInterval == old(countdownInterval) && live == old(live) && nextHandle == old(nextHandle)
    {
      if routeId.None? || routeId.value == "" {
        return;
      }
      calls := calls + [SelectEvent(routeId)];
      subscribed := true;
    }

    /**
     * One emission of the selected event: it becomes the shown event, and a
     * countdown is (re)started when there is one. Emissions arriving when the
     * component does not follow the stream are not delivered.
     */
    method OnSelectedEvent(e: Option<CulturalEvent>, now: int)
      requires Valid()
      modifies this
      ensures Valid() && calls == old(calls) && subscribed == old(subscribed) && error == old(error)
      ensures !old(subscribed) ==> event == old(event) && countdown == old(countdown)
                                   && countdownInterval == old(countdownInterval) && live == old(live)
                                   && nextHandle == old(nextHandle)
      ensures old(subscribed) ==> event == e
      ensures old(subscribed) && e.None? ==> countdown == old(countdown) && nextHandle == old(nextHandle)
                                             && countdownInterval == old(countdownInterval) && live == old(live)
      ensures old(subscribed) && e.Some? ==> nextHandle == old(nextHandle) + 1
      ensures old(subscribed) && e.Some? ==> countdown == CountdownAt(e.value.date, now)
      ensures old(subscribed) && e.Some? ==>
        if countdown.None? then countdownInterval == None && live == {}
        else countdownInterval.Some? && countdownInterval.value !in old(live) && live == {countdownInterval.value}
    {
      if !subscribed {
        return;
      }
      event := e;
      if event.Some? {
        StartCountdown(now);
      }
    }

    /** The stream failed: its message is shown and no further emission is delivered. */
    method OnSelectedEventError(message: string)
      requires Valid()
      modifies this
      ensures Valid() && !subscribed
      ensures error == if old(subscribed) then Some(message) else old(error)
      ensures event == old(event) && countdown == old(countdown)
      ensures countdownInterval == old(countdownInterval) && live == old(live) && calls == old(calls)
      ensures nextHandle == old(nextHandle)
    {
      if !subscribed {
        return;
      }
      error := Some(message);
      subscribed := false;
    }

    /**
     * Releases any running interval first, registers a fresh one, then
     * computes the countdown at once. Does nothing without an event.
     */
    method StartCountdown(now: int)
      requires Valid()
      modifies this
      ensures Valid()
      ensures event == old(event) && error == old(error) && subscribed == old(subscribed) && calls == old(calls)
      ensures event.None? ==> countdown == old(countdown) && nextHandle == old(nextHandle)
                              && countdownInterval == old(countdownInterval) && live == old(live)
      ensures event.Some? ==> countdown == CountdownAt(event.value.date, now) && nextHandle == old(nextHandle) + 1
      ensures event.Some? ==>
        if countdown.None? then countdownInterval == None && live == {}
        else countdownInterval == Some(old(nextHandle)) && live == {old(nextHandle)}
    {
      if event.None? {
        return;
      }
      if countdownInterval.Some? {
        live := live - {countdownInterval.value};
        countdownInterval := None;
      }
      assert live == {};
      var handle := nextHandle;
      nextHandle := nextHandle + 1;
      countdownInterval := Some(handle);
      live := live + {handle};
      UpdateCountdown(now);
    }

    /**
     * Recomputes the countdown at `now`. When the event has started the
     * countdown disappears and the interval is released, for good.
     */
    method UpdateCountdown(now: int)
      requires Valid()
      modifies this
      ensures Valid()
      ensures event == old(event) && error == old(error) && subscribed == old(subscribed) && calls == old(calls)
      ensures event.None? ==> countdown == old(countdown)
                              && countdownInterval == old(countdownInterval) && live == old(live)
      ensures event.Some? ==> countdown == CountdownAt(event.value.date, now)
      ensures event.Some? && countdown.None? ==> countdownInterval == None && live == {}
      ensures event.Some? && countdown.Some? ==> countdownInterval == old(countdownInterval) && live == old(live)
      ensures nextHandle == old(nextHandle)
    {
      if event.None? {
        return;
      }
      var diff := event.value.date - now;
      if diff <= 0 {
        countdown := None;
        ClearCountdown();
        return;
      }
      countdown := Some(Split(diff));
    }

    /** Releases the held interval, if any, and forgets its handle. */
    method ClearCountdown()
      requires Valid()
      modifies this
      ensures Valid() && countdownInterval == None && live == {}
      ensures event == old(event) && error == old(error) && countdown == old(countdown)
      ensures subscribed == old(subscribed) && calls == old(calls) && nextHandle == old(nextHandle)
    {
      if countdownInterval.Some? {
        live := live - {countdownInterval.value};
        countdownInterval := None;
      }
    }

    /** The callback of interval `handle` fires at `now`; a released interval never fires. */
    method Tick(handle: nat, now: int)
      requires Valid()
      modifies this
      ensures Valid()
      ensures event == old(event) && error == old(error) && subscribed == old(subscribed) && calls == old(calls)
      ensures handle !in old(live) ==> countdown == old(countdown)
                                       && countdownInterval == old(countdownInterval) && live == old(live)
      ensures handle in old(live) && event.None? ==> countdown == old(countdown)
                                                     && countdownInterval == old(countdownInterval) && live == old(live)
      ensures handle in old(live) && event.Some? ==> countdown == CountdownAt(event.value.date, now)
      ensures handle in old(live) && event.Some? && countdown.Some? ==>
        countdownInterval == old(countdownInterval) && live == old(live)
      ensures handle in old(live) && event.Some? && countdown.None? ==> countdownInterval == None && live == {}
      ensures nextHandle == old(nextHandle)
    {
      if handle in live {
        UpdateCountdown(now);
      }
    }

    /**
     * Teardown: releases a running interval (the stale handle is kept, as
     * nothing reads it again), stops following the stream and clears the
     * store's selection.
     */
    method NgOnDestroy()
      requires Valid()
      modifies this
      ensures Valid() && live == {} && !subscribed
      ensures calls == old(calls) + [SelectEvent(None)]
      ensures countdownInterval == old(countdownInterval)
      ensures event == old(event) && error == old(error) && countdown == old(countdown)
      ensures nextHandle == old(nextHandle)
    {
      if countdownInterval.Some? {
        live := live - {countdownInterval.value};
      }
      calls := calls + [SelectEvent(None)];
      subscribed := false;
    }

    /** Deletes the shown event once the user has confirmed. */
    method DeleteEvent(confirmed: bool)
      requires Valid()
      modifies this
      ensures Valid()
      ensures calls == if event.Some? && confirmed then old(calls) + [StoreCall.DeleteEvent(event.value.id)] else old(calls)
      ensures event == old(event) && countdown == old(countdown)
      ensures countdownInterval == old(countdownInterval) && live == old(live) && subscribed == old(subscribed)
      ensures error == old(error) && nextHandle == old(nextHandle)
    {
      if event.Some? && confirmed {
        calls := calls + [StoreCall.DeleteEvent(event.value.id)];
      }
    }
  }

  /**
   * The countdown runs out during an interval callback: 2.5 seconds before
   * the start the page opens, ticks follow each second, and the tick after
   * the start releases the interval for good, so later ticks change nothing.
   */
  method CountdownRunsOut(e: CulturalEvent) returns (c: EventDetailComponent)
    requires e.id != ""
    ensures c.Valid() && c.event == Some(e) && c.error == None
    ensures c.countdown == None && c.countdownInterval == None && c.live == {}
  {
    c := new EventDetailComponent();
    c.NgOnInit(Some(e.id));
    c.OnSelectedEvent(Some(e), e.date - 2500);
    assert c.countdown.Some? && c.live == {c.countdownInterval.value};
    var h := c.countdownInterval.value;
    c.Tick(h, e.date - 1500);
    assert c.countdown.Some? && c.live == {h};
    c.Tick(h, e.date - 500);
    assert c.countdown.Some? && c.live == {h};
    c.Tick(h, e.date + 500);
    c.Tick(h, e.date + 1500);
  }
}