/** The three listeners of one publish and the `CompletableFuture<Integer>`
    they race to complete, replayed sequentially over the trace of what
    reaches the client from the publish until the channel is closed. The
    waiter stops at the first event that ends its wait; the listeners see
    the whole trace, including what arrives after the wait gave up. */
module Resolver {
  import opened Wrappers
  import opened Amqp
  import Confirms

  /** Something that happens after the publish: a confirm, a return, a
      channel shutdown carrying its close reason's reply code, an interrupt
      of the waiting thread, or the wait's bound elapsing. */
  datatype Event =
    | Ack(deliveryTag: int, multiple: bool)
    | Nack(deliveryTag: int, multiple: bool)
    | Return(replyCode: int, replyText: string)
    | Shutdown(replyCode: int)
    | Interrupt
    | Timeout

  /** The value the event's listener passes to `complete`: an ack completes
      with 200, a nack with 541, a returned message and a shutdown with the
      broker's reply code; an interrupt or a timeout reaches no listener. */
  function Completion(e: Event): (r: Option<int>)
    ensures r.None? <==> e.Interrupt? || e.Timeout?
    ensures e.Ack? ==> r == Some(REPLY_SUCCESS)
    ensures e.Nack? ==> r == Some(INTERNAL_ERROR)
    ensures e.Return? || e.Shutdown? ==> r == Some(e.replyCode)
  {
    match e
    case Ack(_, _) => Some(REPLY_SUCCESS)
    case Nack(_, _) => Some(INTERNAL_ERROR)
    case Return(code, _) => Some(code)
    case Shutdown(code) => Some(code)
    case Interrupt => None
    case Timeout => None
  }

  /** `future.complete(v)` on a single-assignment cell: the first call stores
      `v` and reports `true`; every later call is a no-op reporting `false`. */
  function Complete(cell: Option<int>, v: int): (r: (Option<int>, bool))
    ensures r.1 <==> cell.None?
    ensures r.1 ==> r.0 == Some(v)
    ensures !r.1 ==> r.0 == cell
  {
    if cell.None? then (Some(v), true) else (cell, false)
  }

  /** What the listeners share: the future and the outstanding-confirm table. */
  datatype Listeners = Listeners(cell: Option<int>, tracker: Confirms.Tracker)

  /** Whether the event settles the table entry `k`. */
  predicate Settles(e: Event, k: int) {
    match e
    case Ack(tag, multiple) => Confirms.Covers(tag, multiple, k)
    case Nack(tag, multiple) => Confirms.Covers(tag, multiple, k)
    case _ => false
  }

  /** One event through its listener: a confirm first removes the entries
      it settles, keeping every other entry with its body; then the listener
      completes the future, which only an empty future takes. */
  function Deliver(s: Listeners, e: Event): (r: Listeners)
    ensures forall k :: k in r.tracker <==> k in s.tracker && !Settles(e, k)
    ensures forall k :: k in r.tracker ==> r.tracker[k] == s.tracker[k]
    ensures r.cell == if s.cell.Some? then s.cell else Completion(e)
  {
    var tracker :=
      match e
      case Ack(tag, multiple) => Confirms.Cleanup(s.tracker, tag, multiple)
      case Nack(tag, multiple) => Confirms.Cleanup(s.tracker, tag, multiple)
      case _ => s.tracker;
    var cell :=
      match Completion(e)
      case Some(v) => Complete(s.cell, v).0
      case None => s.cell;
    Listeners(cell, tracker)
  }

  function Drain(s: Listeners, events: seq<Event>): Listeners
    decreases |events|
  {
    if events == [] then s else Drain(Deliver(s, events[0]), events[1..])
  }

  /** How `future.get(timeout)` ends. */
  datatype WaitResult = Value(code: int) | Interrupted | TimedOut

  /** The waiter returns at the first event: the value it completes the
      future with, the interrupt, or the bound elapsing; with no event at
      all the bound elapses too. */
  function Await(events: seq<Event>): (r: WaitResult)
    ensures r.TimedOut? <==> events == [] || events[0] == Timeout
    ensures r.Interrupted? <==> events != [] && events[0] == Interrupt
    ensures r.Value? ==> Completion(events[0]) == Some(r.code)
  {
    if events == [] then TimedOut
    else
      match events[0]
      case Interrupt => Interrupted
      case Timeout => TimedOut
      case _ => Value(Completion(events[0]).value)
  }

  /** Once completed, the future keeps its value whatever else arrives. */
  lemma {:induction false} CompletedCellIsStable(s: Listeners, events: seq<Event>)
    requires s.cell.Some?
    ensures Drain(s, events).cell == s.cell
    decreases |events|
  {
    if events != [] {
      CompletedCellIsStable(Deliver(s, events[0]), events[1..]);
    }
  }

  /** First writer wins: starting empty, the future ends up holding `v`
      exactly when some event completes with `v` and no earlier event
      completes at all; it stays empty only if no event completes. */
  lemma {:induction false} FirstCompletionWins(s: Listeners, events: seq<Event>, v: int)
    requires s.cell.None?
    ensures Drain(s, events).cell == Some(v)
            <==> exists i :: 0 <= i < |events| && Completion(events[i]) == Some(v)
                             && forall j :: 0 <= j < i ==> Completion(events[j]).None?
    ensures Drain(s, events).cell.None? <==> forall i :: 0 <= i < |events| ==> Completion(events[i]).None?
    decreases |events|
  {
    if events != [] {
      var next := Deliver(s, events[0]);
      var tail := events[1..];
      match Completion(events[0])
      case Some(w) =>
        CompletedCellIsStable(next, tail);
        if exists i :: 0 <= i < |events| && Completion(events[i]) == Some(v)
                       && forall j :: 0 <= j < i ==> Completion(events[j]).None? {
          var i :| 0 <= i < |events| && Completion(events[i]) == Some(v)
                   && forall j :: 0 <= j < i ==> Completion(events[j]).None?;
          assert i == 0;
        }
      case None =>
        FirstCompletionWins(next, tail, v);
        if exists i :: 0 <= i < |events| && Completion(events[i]) == Some(v)
                       && forall j :: 0 <= j < i ==> Completion(events[j]).None? {
          var i :| 0 <= i < |events| && Completion(events[i]) == Some(v)
                   && forall j :: 0 <= j < i ==> Completion(events[j]).None?;
          assert i > 0;
          assert tail[i - 1] == events[i];
          forall j | 0 <= j < i - 1
            ensures Completion(tail[j]).None?
          {
            assert tail[j] == events[j + 1];
          }
        }
        if exists i :: 0 <= i < |tail| && Completion(tail[i]) == Some(v)
                       && forall j :: 0 <= j < i ==> Completion(tail[j]).None? {
          var i :| 0 <= i < |tail| && Completion(tail[i]) == Some(v)
                   && forall j :: 0 <= j < i ==> Completion(tail[j]).None?;
          assert events[i + 1] == tail[i];
          forall j | 0 <= j < i + 1
            ensures Completion(events[j]).None?
          {
            if j > 0 {
              assert events[j] == tail[j - 1];
            }
          }
        }
        forall i | 0 <= i < |tail|
          ensures tail[i] == events[i + 1]
        {
        }
    }
  }

  /** The value the waiter returns is the one left in the future: when the
      wait ends with a value, the whole trace leaves exactly that value in
      the cell, later completions notwithstanding. */
  lemma AwaitReadsCell(t: Confirms.Tracker, events: seq<Event>)
    ensures Await(events).Value? ==> Drain(Listeners(None, t), events).cell == Some(Await(events).code)
    ensures Await(events).TimedOut? <==> events == [] || events[0] == Timeout
  {
    if events != [] && Await(events).Value? {
      var s := Listeners(None, t);
      assert Drain(s, events) == Drain(Deliver(s, events[0]), events[1..]);
      CompletedCellIsStable(Deliver(s, events[0]), events[1..]);
    }
  }

  /** The table entry `k` survives the trace, with its body, exactly when no
      acknowledgement in the trace settles it; nothing is ever added. */
  lemma {:induction false} EntrySurvivesUnlessSettled(s: Listeners, events: seq<Event>, k: int)
    ensures k in Drain(s, events).tracker
            <==> k in s.tracker && forall i :: 0 <= i < |events| ==> !Settles(events[i], k)
    ensures k in Drain(s, events).tracker ==> Drain(s, events).tracker[k] == s.tracker[k]
    decreases |events|
  {
    if events != [] {
      var next := Deliver(s, events[0]);
      var tail := events[1..];
      match events[0] {
        case Ack(tag, multiple) => Confirms.CleanupExactly(s.tracker, tag, multiple);
        case Nack(tag, multiple) => Confirms.CleanupExactly(s.tracker, tag, multiple);
        case _ =>
      }
      EntrySurvivesUnlessSettled(next, tail, k);
      assert forall i :: 0 <= i < |tail| ==> tail[i] == events[i + 1];
      if forall i :: 0 <= i < |tail| ==> !Settles(tail[i], k) {
        forall i | 0 <= i < |events| && i > 0
          ensures !Settles(events[i], k)
        {
          assert events[i] == tail[i - 1];
        }
      }
    }
  }
}
