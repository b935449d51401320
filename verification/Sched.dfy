/**
 The scheduled-access window of src/chainremote_sched.rs: one persisted marker that a customer's
 grant opens and that the end time, a 24 hour cap, 15 idle minutes or a command closes.
 `Step` says what each operation does to the marker and what it answers at clock reading `now`;
 class `MarkerFile` is the code that works on the marker in place.
 */
module Sched {
  import opened Options

  const MAX_WINDOW_SECS: int := 24 * 60 * 60
  const IDLE_CLOSE_SECS: int := 15 * 60

  datatype Window = Window(start: int, end: int, grantedAt: int, caption: string,
                           lastSessionEnd: Option<int>, inSession: bool)

  type Marker = Option<Window>

  /** The window a grant writes: HQ times moved to the local clock, then clipped on both sides. */
  function Granted(start: int, end: int, hqNow: int, caption: string, now: int): (w: Window)
    ensures now <= w.start && w.end <= now + MAX_WINDOW_SECS
    ensures w.grantedAt == now && w.caption == caption
    ensures w.lastSessionEnd.None? && !w.inSession
  {
    var skew := hqNow - now;
    var cap := now + MAX_WINDOW_SECS;
    Window(if start - skew < now then now else start - skew,
           if end - skew > cap then cap else end - skew,
           now, caption, None, false)
  }

  predicate CapReached(w: Window, t: int) {
    t - w.grantedAt >= MAX_WINDOW_SECS
  }

  /** Over for good: nothing but a new grant makes such a marker pass again. */
  predicate Ended(w: Window, t: int) {
    t >= w.end || CapReached(w, t)
  }

  predicate IdledOut(w: Window, t: int) {
    !w.inSession && w.lastSessionEnd.Some? && t - w.lastSessionEnd.value >= IDLE_CLOSE_SECS
  }

  /** The security decision: a connection at `t` gets in without a click. */
  predicate Passes(w: Window, t: int) {
    w.start <= t && !Ended(w, t) && !IdledOut(w, t)
  }

  /** The marker that is left after `is_open` looked at it. */
  function AfterIsOpen(m: Marker, t: int): Marker {
    if m.Some? && (t >= m.value.end || (t >= m.value.start && !Passes(m.value, t))) then None else m
  }

  /** What `status` shows, which is also the marker it leaves. */
  function Live(m: Marker, t: int): Marker {
    if m.Some? && Ended(m.value, t) then None else m
  }

  /** `IsActiveNow` reads the clock a second time after its `status` call; `again` is that reading. */
  datatype Event =
    | Grant(start: int, end: int, hqNow: int, caption: string)
    | IsOpen
    | Status
    | IsActiveNow(again: int)
    | SessionStart
    | SessionEnd
    | Clear

  datatype Answer = Done | Yes(b: bool) | Shown(w: Marker)

  function Step(m: Marker, t: int, e: Event): (Marker, Answer) {
    match e
    case Grant(start, end, hqNow, caption) => (Some(Granted(start, end, hqNow, caption, t)), Done)
    case IsOpen => (AfterIsOpen(m, t), Yes(m.Some? && Passes(m.value, t)))
    case Status => (Live(m, t), Shown(Live(m, t)))
    case IsActiveNow(again) => (Live(m, t), Yes(Live(m, t).Some? && again >= Live(m, t).value.start))
    case SessionStart => (if m.Some? then Some(m.value.(inSession := true)) else None, Done)
    case SessionEnd =>
      (if m.Some? then Some(m.value.(inSession := false, lastSessionEnd := Some(t))) else None, Done)
    case Clear => (None, Done)
  }

  /** One operation and the clock reading it got. */
  datatype Entry = At(t: int, e: Event)

  function Final(m: Marker, run: seq<Entry>): Marker
    decreases |run|
  {
    if run == [] then m else Final(Step(m, run[0].t, run[0].e).0, run[1..])
  }

  function Answers(m: Marker, run: seq<Entry>): (r: seq<Answer>)
    ensures |r| == |run|
    decreases |run|
  {
    if run == [] then [] else
      var (next, answer) := Step(m, run[0].t, run[0].e);
      [answer] + Answers(next, run[1..])
  }

  predicate Nondecreasing(run: seq<Entry>) {
    forall i, j :: 0 <= i < j < |run| ==> run[i].t <= run[j].t
  }

  /** The marker file and the operations on it. Every operation takes the clock reading it gets. */
  class MarkerFile {
    var marker: Marker

    constructor ()
      ensures marker == None
    {
      marker := None;
    }

    method Clear()
      modifies this
      ensures marker == None
    {
      marker := None;
    }

    method Grant(start: int, end: int, hqNow: int, caption: string, now: int)
      modifies this
      ensures marker == Step(old(marker), now, Event.Grant(start, end, hqNow, caption)).0
    {
      var skew := hqNow - now;
      var w := Window(start - skew, end - skew, now, caption, None, false);
      var cap := now + MAX_WINDOW_SECS;
      if w.end > cap {
        w := w.(end := cap);
      }
      if w.start < now {
        w := w.(start := now);
      }
      marker := Some(w);
    }

    method IsOpen(now: int) returns (open: bool)
      modifies this
      ensures (marker, Yes(open)) == Step(old(marker), now, Event.IsOpen)
    {
      if marker.None? {
        return false;
      }
      var w := marker.value;
      if now < w.start || now >= w.end {
        if now >= w.end {
          Clear();
        }
        return false;
      }
      if now - w.grantedAt >= MAX_WINDOW_SECS {
        Clear();
        return false;
      }
      if !w.inSession {
        if w.lastSessionEnd.Some? {
          if now - w.lastSessionEnd.value >= IDLE_CLOSE_SECS {
            Clear();
            return false;
          }
        }
      }
      return true;
    }

    method Status(now: int) returns (shown: Marker)
      modifies this
      ensures (marker, Shown(shown)) == Step(old(marker), now, Event.Status)
    {
      if marker.None? {
        return None;
      }
      var w := marker.value;
      if now >= w.end {
        Clear();
        return None;
      }
      if now - w.grantedAt >= MAX_WINDOW_SECS {
        Clear();
        return None;
      }
      return Some(w);
    }

    method IsActiveNow(now: int, again: int) returns (active: bool)
      modifies this
      ensures (marker, Yes(active)) == Step(old(marker), now, Event.IsActiveNow(again))
    {
      var shown := Status(now);
      if shown.Some? {
        active := again >= shown.value.start;
      } else {
        active := false;
      }
    }

    method NoteSessionStart(now: int)
      modifies this
      ensures marker == Step(old(marker), now, SessionStart).0
    {
      if marker.Some? {
        marker := Some(marker.value.(inSession := true));
      }
    }

    method NoteSessionEnd(now: int)
      modifies this
      ensures marker == Step(old(marker), now, SessionEnd).0
    {
      if marker.Some? {
        var w := marker.value.(inSession := false);
        marker := Some(w.(lastSessionEnd := Some(now)));
      }
    }
  }
}
