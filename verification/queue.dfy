/** `QueueBehavior` (xdm.js:586-652): the stack element that buffers outgoing
    messages until the transport below reports that the channel is ready, then
    hands them down one at a time, and takes itself out of the stack once its
    buffer is empty. The transport below acknowledges each message as soon as
    it has posted it, so one dispatch drains the whole buffer. */
module Queue {
  import opened Wrappers

  /** A buffered message: its text, the target origin passed down with it,
      and the function (by identity) to call once it is sent. */
  datatype Entry = Entry(data: string, origin: Option<string>, callback: Option<nat>)

  /** The behaviour's private variables; `remove` is its constructor argument. */
  datatype QueueState = QueueState(items: seq<Entry>, waiting: bool, destroying: bool, remove: bool)

  /** A new queue: nothing buffered and waiting for the transport. */
  function Initial(remove: bool): (q: QueueState)
    ensures q.items == [] && q.waiting && !q.destroying && q.remove == remove
  {
    QueueState([], true, false, remove)
  }

  /** What one call of `dispatch` did: the state it left, the messages it handed
      down in order, the callbacks it scheduled with `setTimeout` in order, and
      whether it took the queue out of the stack. */
  datatype Step = Step(queue: QueueState, posted: seq<Entry>, deferred: seq<nat>, removeSelf: bool)

  /** The callbacks of some entries, in order, for those that have one. */
  function CallbacksOf(es: seq<Entry>): (cs: seq<nat>)
    ensures |cs| <= |es|
    ensures forall c :: c in cs <==> exists i :: 0 <= i < |es| && es[i].callback == Some(c)
  {
    if |es| == 0 then []
    else (if es[0].callback.Some? then [es[0].callback.value] else []) + CallbacksOf(es[1..])
  }

  /** `dispatch()`. An empty queue that is to remove itself does so first,
      whatever else holds; a waiting, empty or destroyed queue does nothing;
      otherwise the first message goes down, its acknowledgement schedules its
      callback and dispatches again. */
  function Dispatch(q: QueueState): (r: Step)
    ensures r.queue.waiting == q.waiting && r.queue.destroying == q.destroying && r.queue.remove == q.remove
    ensures q.waiting || q.destroying ==>
      r.posted == [] && r.deferred == [] && r.queue.items == q.items && r.removeSelf == (q.remove && q.items == [])
    ensures !q.waiting && !q.destroying ==>
      r.posted == q.items && r.deferred == CallbacksOf(q.items) && r.queue.items == [] && r.removeSelf == q.remove
    decreases |q.items|
  {
    if q.remove && |q.items| == 0 then Step(q, [], [], true)
    else if q.waiting || |q.items| == 0 || q.destroying then Step(q, [], [], false)
    else
      var m := q.items[0];
      var rest := Dispatch(q.(items := q.items[1..], waiting := false));
      assert q.items == [m] + q.items[1..];
      Step(rest.queue, [m] + rest.posted,
           (if m.callback.Some? then [m.callback.value] else []) + rest.deferred, rest.removeSelf)
  }

  /** `outgoing(message, origin, fn)`: buffer the message, then dispatch. */
  function Outgoing(q: QueueState, e: Entry): (r: Step)
    ensures r.queue.waiting == q.waiting && r.queue.destroying == q.destroying && r.queue.remove == q.remove
    ensures q.waiting || q.destroying ==>
      r.posted == [] && r.deferred == [] && r.queue.items == q.items + [e] && !r.removeSelf
    ensures !q.waiting && !q.destroying ==>
      && r.posted == q.items + [e] && r.queue.items == []
      && r.deferred == CallbacksOf(q.items + [e]) && r.removeSelf == q.remove
  {
    Dispatch(q.(items := q.items + [e]))
  }

  /** `callback(success)`: the transport is ready; stop waiting and dispatch.
      The call is then passed on to the element that was above the queue
      before the dispatch, which the connection takes care of. */
  function Callback(q: QueueState): (r: Step)
    ensures !r.queue.waiting && r.queue.destroying == q.destroying && r.queue.remove == q.remove
    ensures !q.destroying ==>
      && r.posted == q.items && r.queue.items == []
      && r.deferred == CallbacksOf(q.items) && r.removeSelf == q.remove
    ensures q.destroying ==>
      r.posted == [] && r.deferred == [] && r.queue.items == q.items && r.removeSelf == (q.remove && q.items == [])
  {
    Dispatch(q.(waiting := false))
  }

  /** `destroy()`: nothing is handed down any more; the call goes on down. */
  function Destroy(q: QueueState): (r: QueueState)
    ensures r.destroying && r.items == q.items && r.waiting == q.waiting && r.remove == q.remove
  {
    q.(destroying := true)
  }

  /** Several `outgoing` calls in a row: the final state and everything
      handed down on the way. */
  function OutgoingAll(q: QueueState, es: seq<Entry>): (r: (QueueState, seq<Entry>))
    ensures r.0.waiting == q.waiting && r.0.destroying == q.destroying && r.0.remove == q.remove
    decreases |es|
  {
    if |es| == 0 then (q, [])
    else
      var s := Outgoing(q, es[0]);
      var rest := OutgoingAll(s.queue, es[1..]);
      (rest.0, s.posted + rest.1)
  }

  /** Before the transport is ready nothing is handed down: every message is
      buffered, in the order of the calls. */
  lemma {:induction false} BufferedWhileWaiting(q: QueueState, es: seq<Entry>)
    requires q.waiting
    ensures OutgoingAll(q, es).1 == []
    ensures OutgoingAll(q, es).0.items == q.items + es
    decreases |es|
  {
    if |es| > 0 {
      var s := Outgoing(q, es[0]);
      assert s.posted == [] && s.queue.waiting;
      BufferedWhileWaiting(s.queue, es[1..]);
      var rest := OutgoingAll(s.queue, es[1..]);
      assert OutgoingAll(q, es) == (rest.0, s.posted + rest.1);
      assert q.items + [es[0]] + es[1..] == q.items + es;
    }
  }

  /** Messages sent before the channel is ready reach the transport in the
      order they were sent, all of them, once it is ready, and their callbacks
      are scheduled in that order; a queue built to remove itself then does. */
  lemma ReadyFlushesInOrder(remove: bool, es: seq<Entry>)
    ensures OutgoingAll(Initial(remove), es).1 == []
    ensures var r := Callback(OutgoingAll(Initial(remove), es).0);
      r.posted == es && r.deferred == CallbacksOf(es) && r.queue.items == [] && r.removeSelf == remove
  {
    BufferedWhileWaiting(Initial(remove), es);
  }

  /** Once ready and emptied, a queue that stays in the stack hands every
      message down at once. */
  lemma {:induction false} PassThroughWhenReady(q: QueueState, es: seq<Entry>)
    requires !q.waiting && !q.destroying && q.items == []
    ensures OutgoingAll(q, es).1 == es
    ensures OutgoingAll(q, es).0.items == []
    decreases |es|
  {
    if |es| > 0 {
      var s := Outgoing(q, es[0]);
      assert s.posted == [es[0]];
      PassThroughWhenReady(s.queue, es[1..]);
      assert [es[0]] + es[1..] == es;
    }
  }

  /** After `destroy` nothing more is handed down, and the buffer is kept. */
  lemma {:induction false} NothingAfterDestroy(q: QueueState, es: seq<Entry>)
    ensures OutgoingAll(Destroy(q), es).1 == []
    ensures Callback(Destroy(q)).posted == []
    decreases |es|
  {
    if |es| > 0 {
      var s := Outgoing(Destroy(q), es[0]);
      assert s.queue == Destroy(s.queue);
      NothingAfterDestroy(s.queue, es[1..]);
    }
  }
}
