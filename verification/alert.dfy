/** The alert lifecycle of `useAlert`: one visible message and one auto-clear
    timer slot. Timers are abstract ids; `live` holds the timers that are
    scheduled and neither fired nor cancelled, with the duration each was
    scheduled for. A timer fires only through the explicit `FireEv` event, and
    firing an id that is not live does nothing, as a cancelled `setTimeout`
    never runs its callback. */
module Alert {
  import opened Options

  type TimerId = nat

  /** Duration of an alert when the caller gives none, in milliseconds. */
  const DefaultDuration: int := 3000

  /** `timer` is the hook's `timer` state: the handle of the most recently
      scheduled timer. Like the hook, nothing resets it when that timer fires
      or is cancelled. `nextId` is the id the next `setTimeout` hands out. */
  datatype AlertState = AlertState(
    message: string,
    timer: Option<TimerId>,
    live: map<TimerId, int>,
    nextId: TimerId)

  /** The events the hook reacts to, each run to completion before the next. */
  datatype Event =
    | TriggerEv(msg: string, duration: int)
    | ClearEv
    | FireEv(id: TimerId)
    | TeardownEv

  /** Reachable states: only the timer in the `timer` slot can be live, and
      every handed-out id is below `nextId`. */
  ghost predicate Inv(s: AlertState) {
    && (forall id :: id in s.live ==> s.timer == Some(id))
    && (s.timer.Some? ==> s.timer.value < s.nextId)
  }

  /** `clearTimeout` on the handle in the slot, if there is one. */
  function CancelSlot(s: AlertState): (live: map<TimerId, int>)
    ensures s.timer.Some? ==> s.timer.value !in live
    ensures forall id :: id in live <==> id in s.live && s.timer != Some(id)
    ensures Inv(s) ==> live == map[]
  {
    if s.timer.Some? then s.live - {s.timer.value} else s.live
  }

  /** The hook's initial state: the given message, no timer. */
  function Init(initialMessage: string): (s: AlertState)
    ensures s.message == initialMessage
    ensures s.timer == None && s.live == map[]
    ensures Inv(s)
  {
    AlertState(initialMessage, None, map[], 1)
  }

  /** The hook called without an argument starts with no message. */
  function InitDefault(): (s: AlertState)
    ensures s.message == "" && s.live == map[]
  {
    Init("")
  }

  /** `triggerAlert(message, duration)`: cancel the pending timer, show the
      message, schedule a fresh timer and keep its handle. */
  function Trigger(s: AlertState, message: string, duration: int): (r: AlertState)
    ensures r.message == message
    ensures r.timer == Some(s.nextId) && r.nextId > s.nextId
    ensures s.nextId in r.live && r.live[s.nextId] == duration
    ensures s.timer.Some? && s.timer.value != s.nextId ==> s.timer.value !in r.live
    ensures Inv(s) ==> r.live == map[s.nextId := duration]
    ensures Inv(s) ==> Inv(r)
  {
    AlertState(message, Some(s.nextId), CancelSlot(s)[s.nextId := duration], s.nextId + 1)
  }

  /** `triggerAlert(message)` with the default duration. */
  function TriggerDefault(s: AlertState, message: string): (r: AlertState)
    ensures r.message == message
    ensures Inv(s) ==> r.live == map[s.nextId := DefaultDuration]
  {
    Trigger(s, message, DefaultDuration)
  }

  /** `clearAlert()`: cancel the pending timer and empty the message at once.
      The handle stays in the slot, as in the hook. */
  function Clear(s: AlertState): (r: AlertState)
    ensures r.message == ""
    ensures r.timer == s.timer && r.nextId == s.nextId
    ensures Inv(s) ==> r.live == map[] && Inv(r)
  {
    s.(message := "", live := CancelSlot(s))
  }

  /** A timer's callback runs: it empties the message. A timer that is not
      live (cancelled, already fired, never scheduled) has no callback left. */
  function Fire(s: AlertState, id: TimerId): (r: AlertState)
    ensures id in s.live ==> r.message == "" && r.live == s.live - {id}
    ensures id !in s.live ==> r == s
    ensures r.timer == s.timer && r.nextId == s.nextId
    ensures Inv(s) ==> Inv(r)
  {
    if id in s.live then s.(message := "", live := s.live - {id}) else s
  }

  /** The cleanup the hook's effect returns, run when its owner unmounts:
      cancel the timer in the slot; the message is left as it is. */
  function Teardown(s: AlertState): (r: AlertState)
    ensures r.message == s.message && r.timer == s.timer && r.nextId == s.nextId
    ensures Inv(s) ==> r.live == map[] && Inv(r)
  {
    s.(live := CancelSlot(s))
  }

  function Step(s: AlertState, e: Event): (r: AlertState)
    ensures r.nextId >= s.nextId
    ensures Inv(s) ==> Inv(r)
    ensures e.TriggerEv? ==> r.message == e.msg
    ensures !e.TriggerEv? ==> r.message == "" || r.message == s.message
  {
    match e
    case TriggerEv(m, d) => Trigger(s, m, d)
    case ClearEv => Clear(s)
    case FireEv(id) => Fire(s, id)
    case TeardownEv => Teardown(s)
  }

  /** The state after the events happen in order. */
  function Run(s: AlertState, evs: seq<Event>): AlertState
    decreases |evs|
  {
    if evs == [] then s else Run(Step(s, evs[0]), evs[1..])
  }

  /** The message the hook would show after `evs` if no timer ever cleared it:
      the last triggered one, or `current` when nothing is triggered. */
  function LatestMessage(current: string, evs: seq<Event>): string
    decreases |evs|
  {
    if evs == [] then current
    else if evs[0].TriggerEv? then LatestMessage(evs[0].msg, evs[1..])
    else LatestMessage(current, evs[1..])
  }

  // ---------------------------------------------------------------------
  // Properties

  /** Single flight: in a reachable state at most one timer is pending. */
  lemma AtMostOneLive(s: AlertState)
    requires Inv(s)
    ensures |s.live| <= 1
    ensures s.live != map[] ==> s.timer.Some? && s.live.Keys == {s.timer.value}
  {
    if s.live != map[] {
      assert s.live.Keys <= {s.timer.value};
      var id :| id in s.live;
      assert s.live.Keys == {s.timer.value};
    } else {
      assert s.live.Keys == {};
    }
  }

  /** Every sequence of events from a reachable state keeps the invariant and
      never reuses an id. */
  lemma {:induction false} RunPreservesInv(s: AlertState, evs: seq<Event>)
    requires Inv(s)
    ensures Inv(Run(s, evs))
    ensures Run(s, evs).nextId >= s.nextId
    decreases |evs|
  {
    if evs != [] {
      RunPreservesInv(Step(s, evs[0]), evs[1..]);
    }
  }

  /** Every state reachable from the hook's start satisfies the invariant, so
      at most one timer is ever pending. */
  lemma ReachableSingleFlight(initialMessage: string, evs: seq<Event>)
    ensures Inv(Run(Init(initialMessage), evs))
    ensures |Run(Init(initialMessage), evs).live| <= 1
  {
    RunPreservesInv(Init(initialMessage), evs);
    AtMostOneLive(Run(Init(initialMessage), evs));
  }

  /** A timer that is not live and whose id is already handed out never
      becomes live again, whatever happens next. */
  lemma {:induction false} DeadTimerStaysDead(s: AlertState, evs: seq<Event>, id: TimerId)
    requires id < s.nextId && id !in s.live
    ensures id !in Run(s, evs).live
    decreases |evs|
  {
    if evs != [] {
      var s1 := Step(s, evs[0]);
      assert id !in s1.live;
      DeadTimerStaysDead(s1, evs[1..], id);
    }
  }

  /** Once `triggerAlert` has replaced a timer, the replaced timer can never
      fire again: after any later events, firing it changes nothing. */
  lemma SupersededTimerNeverFires(s: AlertState, message: string, duration: int, evs: seq<Event>)
    requires Inv(s) && s.timer.Some?
    ensures s.timer.value !in Run(Trigger(s, message, duration), evs).live
    ensures var t := Run(Trigger(s, message, duration), evs);
            Step(t, FireEv(s.timer.value)) == t
  {
    DeadTimerStaysDead(Trigger(s, message, duration), evs, s.timer.value);
  }

  /** Firing the timer a trigger scheduled empties the message and leaves
      nothing pending. */
  lemma OwnTimerClears(s: AlertState, message: string, duration: int)
    requires Inv(s)
    ensures var r := Fire(Trigger(s, message, duration), s.nextId);
            r.message == "" && r.live == map[]
  {
  }

  /** A newer message is never cleared early: after `triggerAlert(m, d)`, as
      long as only other timers fire, the message stays `m`. */
  lemma {:induction false} NewerMessageSurvivesStaleTimers(s: AlertState, evs: seq<Event>)
    requires Inv(s) && s.timer.Some?
    requires forall i :: 0 <= i < |evs| ==> evs[i].FireEv? && evs[i].id != s.timer.value
    ensures Run(s, evs).message == s.message
    ensures Run(s, evs) == s
    decreases |evs|
  {
    if evs != [] {
      assert evs[0].id !in s.live;
      assert Step(s, evs[0]) == s;
      NewerMessageSurvivesStaleTimers(s, evs[1..]);
    }
  }

  /** An event that can leave the shown message in place: anything but a
      trigger, a clear, or the firing of the timer with id `own`. */
  predicate KeepsMessage(e: Event, own: TimerId) {
    !e.TriggerEv? && !e.ClearEv? && !(e.FireEv? && e.id == own)
  }

  /** The message in a reachable state survives every event sequence without
      a trigger, a clear or the firing of the slot's own timer: older timers
      firing and teardown both leave it in place. */
  lemma {:induction false} MessageSurvivesUntilOwnTimer(s: AlertState, evs: seq<Event>)
    requires Inv(s) && s.timer.Some?
    requires forall i :: 0 <= i < |evs| ==> KeepsMessage(evs[i], s.timer.value)
    ensures Run(s, evs).message == s.message
    decreases |evs|
  {
    if evs != [] {
      var s1 := Step(s, evs[0]);
      assert s1.message == s.message && s1.timer == s.timer;
      MessageSurvivesUntilOwnTimer(s1, evs[1..]);
    }
  }

  /** The same, stated from the trigger itself: after `triggerAlert(m, d)`
      the message stays `m` until its own timer fires or a newer trigger or
      a clear replaces it. */
  lemma TriggeredMessageSurvivesOtherTimers(s: AlertState, message: string, duration: int, evs: seq<Event>)
    requires Inv(s)
    requires forall i :: 0 <= i < |evs| ==> KeepsMessage(evs[i], s.nextId)
    ensures Run(Trigger(s, message, duration), evs).message == message
  {
    MessageSurvivesUntilOwnTimer(Trigger(s, message, duration), evs);
  }

  /** `clearAlert` applied twice is `clearAlert` applied once. */
  lemma ClearIdempotent(s: AlertState)
    ensures Clear(Clear(s)) == Clear(s)
  {
  }

  /** After teardown nothing is pending, so no timer fires afterwards. */
  lemma {:induction false} TeardownQuiesces(s: AlertState, evs: seq<Event>)
    requires Inv(s)
    requires forall i :: 0 <= i < |evs| ==> evs[i].FireEv?
    ensures Teardown(s).live == map[]
    ensures Run(Teardown(s), evs) == Teardown(s)
    decreases |evs|
  {
    if evs != [] {
      assert Step(Teardown(s), evs[0]) == Teardown(s);
      TeardownQuiesces(s, evs[1..]);
    }
  }

  /** Whatever the current message, the latest one after `evs` is either the
      same for every starting message (some trigger happened) or is the
      starting message itself (none did). */
  lemma {:induction false} LatestMessageShape(c: string, c': string, evs: seq<Event>)
    ensures LatestMessage(c, evs) == LatestMessage(c', evs)
            || (LatestMessage(c, evs) == c && LatestMessage(c', evs) == c')
    decreases |evs|
  {
    if evs != [] {
      if evs[0].TriggerEv? {
      } else {
        LatestMessageShape(c, c', evs[1..]);
      }
    }
  }

  /** The visible message is always empty or the most recently triggered one
      (the starting message when nothing was triggered). */
  lemma {:induction false} MessageIsEmptyOrLatest(s: AlertState, evs: seq<Event>)
    ensures Run(s, evs).message == "" || Run(s, evs).message == LatestMessage(s.message, evs)
    decreases |evs|
  {
    if evs != [] {
      var s1 := Step(s, evs[0]);
      MessageIsEmptyOrLatest(s1, evs[1..]);
      if !evs[0].TriggerEv? && s1.message == "" {
        LatestMessageShape("", s.message, evs[1..]);
      }
    }
  }
}
