/** `xdm.Rpc` (xdm.js:443-481): one end of a channel, built as the stack
    transport, queue, RPC behaviour and a last element that reports readiness
    (`prepareTransportStack` and `chainStack`). Calls go down the stack as
    text, messages come up from the transport, and the queue takes itself out
    of the stack once the channel is ready. Timers are events of their own:
    the ready callback the transport schedules runs when the environment
    fires it. `JSON.stringify` and `JSON.parse` are the `encode` and `decode`
    parameters. */
module Connection {
  import opened Wrappers
  import opened Values
  import opened Stack
  import Queue
  import Transport
  import Rpc
  import Setup
  import Location

  /** Positions of the elements in the list handed to `chainStack`. */
  const TransportAt: nat := 0
  const QueueAt: nat := 1
  const RpcAt: nat := 2
  const ReadyAt: nat := 3

  /** The elements' own members before chaining; function identities from 5
      up, the forwarding defaults having 0 to 4. */
  const Elements: seq<Value> := [
    Obj([("outgoing", Fn(5)), ("destroy", Fn(6)), ("init", Fn(7))], None),
    Obj([("init", Fn(8)), ("callback", Fn(9)), ("incoming", Fn(10)), ("outgoing", Fn(11)), ("destroy", Fn(12))], None),
    Obj([("incoming", Fn(13)), ("init", Fn(14)), ("destroy", Fn(15))], None),
    Obj([("callback", Fn(16))], None)
  ]

  /** The whole end: the linked elements and each element's private state,
      the proxy object, the remote interface (name to `namedParams`), whether
      the ready callback is scheduled, and how often `onReady` ran. */
  datatype Conn = Conn(
    stack: seq<Element>, transport: Transport.TransportState, queue: Queue.QueueState,
    rpc: Rpc.RpcState, proxy: map<string, Rpc.Member>, remote: map<string, bool>,
    readyPending: bool, readyCalls: nat)

  /** What one event did: the new end, the `postMessage` calls in order, the
      callbacks of earlier calls invoked with their argument, and the local
      implementations run with their arguments. */
  datatype Effects = Effects(conn: Conn, posts: seq<Transport.Post>, invoked: seq<(nat, Rpc.Json)>,
                             ran: seq<(string, seq<Rpc.Json>)>)

  /** The links are those `chainStack` made, possibly with the queue taken
      out. */
  predicate Valid(c: Conn) {
    |c.stack| == 4 && (IsChain(c.stack) || ChainWithout(c.stack, QueueAt))
  }

  /** The queue is still between the RPC behaviour and the transport. */
  predicate Queued(c: Conn)
    requires Valid(c)
  {
    IsChain(c.stack)
  }

  lemma ValidLinks(c: Conn)
    requires Valid(c)
    ensures Ordered(c.stack)
    ensures Queued(c) ==> c.stack[RpcAt].down == Some(QueueAt) && c.stack[TransportAt].up == Some(QueueAt)
    ensures !Queued(c) ==> c.stack[RpcAt].down == Some(TransportAt) && c.stack[TransportAt].up == Some(RpcAt)
  {
    if !IsChain(c.stack) {
      ChainWithoutWalks(c.stack, QueueAt);
    }
  }

  /** `removeFromStack(queue)`. */
  function Unlink(st: seq<Element>): (r: Result<seq<Element>>)
    requires |st| == 4 && (IsChain(st) || ChainWithout(st, QueueAt))
    ensures r.Ok? <==> IsChain(st)
    ensures r.Ok? ==> |r.value| == 4 && ChainWithout(r.value, QueueAt)
  {
    if IsChain(st) then
      RemoveFromChainLinks(st, QueueAt);
      Ok(RemoveFromStack(st, QueueAt).stack)
    else
      ChainWithoutWalks(st, QueueAt);
      assert st[QueueAt].up.None?;
      Err(RemoveFromStack(st, QueueAt).error)
  }

  /** The transport posts the entries the queue hands down, in order; with
      no window to post to, the first post throws. */
  function PostAll(t: Transport.TransportState, es: seq<Queue.Entry>): (r: Result<seq<Transport.Post>>)
    ensures r.Ok? <==> |es| == 0 || t.canPost
    ensures r.Ok? ==> |r.value| == |es| && forall i :: 0 <= i < |es| ==>
      r.value[i] == Transport.Outgoing(t, es[i].data, es[i].origin).value
  {
    if |es| == 0 then Ok([])
    else if !t.canPost then Err(Transport.NoWindow(t))
    else Ok(seq(|es|, i requires 0 <= i < |es| => Transport.Outgoing(t, es[i].data, es[i].origin).value))
  }

  /** The proxy object `this` once the end is built: `origin` and `destroy`
      are set before `stack.init()` installs the stubs, so a remote method of
      either name replaces them; `iframe` is set afterwards and replaces a
      stub of that name. */
  function Proxy(isHost: bool, origin: string, remote: map<string, bool>): (p: map<string, Rpc.Member>)
    ensures p.Keys == remote.Keys + {"origin", "destroy", "iframe"}
    ensures p["iframe"] == Rpc.Iframe(isHost)
    ensures forall n :: n in remote && n != "iframe" ==> p[n] == Rpc.Stub(n, remote[n])
    ensures "origin" !in remote ==> p["origin"] == Rpc.Origin(origin)
    ensures "destroy" !in remote ==> p["destroy"] == Rpc.Destroyer
  {
    var own := map["origin" := Rpc.Origin(origin), "destroy" := Rpc.Destroyer];
    Rpc.InstallStubs(own, remote)["iframe" := Rpc.Iframe(isHost)]
  }

  /** `new xdm.Rpc(config, jsonRpcConfig)` after the configuration is
      prepared: the stack is chained, the proxy gets `origin` and `destroy`,
      and `stack.init()` runs down it; the RPC behaviour installs the stubs
      on the proxy and the transport starts; last the proxy gets `iframe`. */
  function Open(config: Setup.TransportConfig, remote: map<string, bool>): (r: Result<Effects>)
    ensures r.Err? <==> Location.GetLocation(config.remote).Err?
    ensures r.Ok? ==> Valid(r.value.conn) && Queued(r.value.conn)
    ensures r.Ok? ==> var c := r.value.conn;
      && c.queue == Queue.Initial(true) && c.rpc == Rpc.RpcState(0, map[]) && c.readyCalls == 0
      && c.proxy == Proxy(config.isHost, c.transport.targetOrigin, remote) && c.remote == remote
      && c.transport.channel == config.channel
      && c.transport.targetOrigin == Location.GetLocation(config.remote).value
      && r.value.invoked == [] && r.value.ran == []
      && (config.isHost ==>
            && r.value.posts == [] && !c.readyPending
            && c.transport.phase == Transport.WaitingReady && c.transport.hasFrame)
      && (!config.isHost ==>
            && c.readyPending && c.transport.canPost
            && r.value.posts == [Transport.Post(Transport.ReadyText(config.channel), c.transport.targetOrigin)])
  {
    var stack := ChainStack(Elements).0;
    var started :- Transport.Init(Transport.New(config.isHost, config.channel, config.remote));
    var proxy := Proxy(config.isHost, started.state.targetOrigin, remote);
    Ok(Effects(Conn(stack, started.state, Queue.Initial(true), Rpc.RpcState(0, map[]),
                    proxy, remote, started.readyScheduled, 0),
               started.posts, [], []))
  }

  /** `pub.down.outgoing(text)` from the RPC behaviour: into the queue while it
      is in the stack (which may dispatch, and may take the queue out), or
      straight to the transport. */
  function SendDown(c: Conn, text: string): (r: Result<Effects>)
    requires Valid(c)
    ensures r.Ok? ==> Valid(r.value.conn) && r.value.invoked == []
    ensures r.Ok? ==>
      && r.value.conn.transport == c.transport && r.value.conn.rpc == c.rpc
      && r.value.conn.proxy == c.proxy && r.value.conn.remote == c.remote
      && r.value.conn.readyPending == c.readyPending && r.value.conn.readyCalls == c.readyCalls
    ensures !Queued(c) ==> r == (if c.transport.canPost
      then Ok(Effects(c, [Transport.Post(Transport.Frame(c.transport.channel, text), c.transport.targetOrigin)], [], []))
      else Err(Transport.NoWindow(c.transport)))
    ensures Queued(c) && (c.queue.waiting || c.queue.destroying) ==>
      r == Ok(Effects(c.(queue := c.queue.(items := c.queue.items + [Queue.Entry(text, None, None)])), [], [], []))
  {
    if Queued(c) then
      var step := Queue.Outgoing(c.queue, Queue.Entry(text, None, None));
      var posts :- PostAll(c.transport, step.posted);
      var stack := if step.removeSelf then Unlink(c.stack).value else c.stack;
      Ok(Effects(c.(queue := step.queue, stack := stack), posts, [], []))
    else
      var p :- Transport.Outgoing(c.transport, text, None);
      Ok(Effects(c, [p], [], []))
  }

  /** Several texts sent down in a row. */
  function SendAll(c: Conn, texts: seq<string>): (r: Result<Effects>)
    requires Valid(c)
    ensures r.Ok? ==> Valid(r.value.conn) && r.value.invoked == []
    ensures r.Ok? ==>
      && r.value.conn.transport == c.transport && r.value.conn.rpc == c.rpc
      && r.value.conn.proxy == c.proxy && r.value.conn.remote == c.remote
      && r.value.conn.readyPending == c.readyPending && r.value.conn.readyCalls == c.readyCalls
    decreases |texts|
  {
    if |texts| == 0 then Ok(Effects(c, [], [], []))
    else
      var first :- SendDown(c, texts[0]);
      var rest :- SendAll(first.conn, texts[1..]);
      Ok(Effects(rest.conn, first.posts + rest.posts, [], []))
  }

  /** The ready callback the transport scheduled runs: `callback(true)` goes
      up from the transport. The queue stops waiting and dispatches what it
      buffered, takes itself out of the stack, and passes the call on to the
      element that was above it; the RPC behaviour forwards it to the last
      element, which calls `onReady`. Without a scheduled callback nothing
      happens. */
  function FireReady(c: Conn): (r: Result<Effects>)
    requires Valid(c)
    ensures !c.readyPending ==> r == Ok(Effects(c, [], [], []))
    ensures r.Ok? ==> Valid(r.value.conn) && !r.value.conn.readyPending && r.value.invoked == []
    ensures r.Ok? && c.readyPending ==> r.value.conn.readyCalls == c.readyCalls + 1
    ensures c.readyPending && !Queued(c) ==> r == Ok(Effects(c.(readyPending := false, readyCalls := c.readyCalls + 1), [], [], []))
  {
    if !c.readyPending then Ok(Effects(c, [], [], []))
    else if Queued(c) then
      var step := Queue.Callback(c.queue);
      var posts :- PostAll(c.transport, step.posted);
      var stack := if step.removeSelf then Unlink(c.stack).value else c.stack;
      Ok(Effects(c.(queue := step.queue, stack := stack, readyPending := false, readyCalls := c.readyCalls + 1), posts, [], []))
    else
      Ok(Effects(c.(readyPending := false, readyCalls := c.readyCalls + 1), [], [], []))
  }

  /** The members the proxy inherits from `Object.prototype` whose call only
      computes a value: calling one changes nothing the model holds. */
  const QueryingNames: set<string> := {
    "hasOwnProperty", "isPrototypeOf", "propertyIsEnumerable", "toString", "valueOf",
    "__lookupGetter__", "__lookupSetter__"
  }

  /** A call of the proxy's member `name`: a stub encodes the request and
      sends it down, `destroy` destroys the end, an inherited member acts as
      `Object.prototype`'s does, and calling anything else throws. */
  function Call(c: Conn, name: string, args: seq<Rpc.Arg>, encode: Rpc.Message -> string): (r: Result<Effects>)
    requires Valid(c)
    ensures (name !in c.proxy && name !in ObjectPrototypeNames) || (name in c.proxy && (c.proxy[name].Origin? || c.proxy[name].Iframe?)) ==>
      r == Err(name + " is not a function")
    ensures name in c.proxy && c.proxy[name].Destroyer? ==> r == Ok(Effects(Close(c), [], [], []))
    ensures name in c.proxy && c.proxy[name].Stub? ==>
      var (s, m) := Rpc.CallStub(c.rpc, c.proxy[name].name, c.proxy[name].namedParams, args);
      && r == SendDown(c.(rpc := s), encode(m))
      && (r.Ok? ==> Valid(r.value.conn) && r.value.conn.rpc == s)
    ensures name !in c.proxy && name in QueryingNames ==> r == Ok(Effects(c, [], [], []))
    ensures name !in c.proxy && name == "toLocaleString" && "toString" !in c.proxy ==> r == Ok(Effects(c, [], [], []))
    ensures name !in c.proxy && name == "toLocaleString" && "toString" in c.proxy && c.proxy["toString"].Stub? ==>
      var (s, m) := Rpc.CallStub(c.rpc, c.proxy["toString"].name, c.proxy["toString"].namedParams, []);
      r == SendDown(c.(rpc := s), encode(m))
    ensures name !in c.proxy && name == ProtoName ==> r == Err(name + " is not a function")
    ensures name !in c.proxy && name == "constructor" && (|args| < 2 || args[1] == Rpc.Plain(Rpc.JUndefined)) ==>
      r == Err("Cannot read property 'local' of undefined")
    ensures name !in c.proxy && name == "constructor" && |args| >= 2 && args[1] == Rpc.Plain(Rpc.JNull) ==>
      r == Err("Cannot read property 'local' of null")
    ensures name !in c.proxy && (name == "__defineGetter__" || name == "__defineSetter__") && (|args| < 2 || !args[1].Func?) ==>
      r == Err("Object.prototype." + name + ": Expecting function")
    decreases if name == "toLocaleString" then 1 else 0
  {
    if name !in c.proxy then
      if name in QueryingNames then Ok(Effects(c, [], [], []))
      else if name == "toLocaleString" then
        // `toLocaleString` calls `this.toString()`, which may be a stub.
        if "toString" in c.proxy then Call(c, "toString", [], encode) else Ok(Effects(c, [], [], []))
      else if name == "constructor" then
        // `xdm.Rpc` run again on the proxy first reads `jsonRpcConfig.local`.
        if |args| < 2 || args[1] == Rpc.Plain(Rpc.JUndefined) then Err("Cannot read property 'local' of undefined")
        else if args[1] == Rpc.Plain(Rpc.JNull) then Err("Cannot read property 'local' of null")
        else Ok(Effects(c, [], [], []))
      else if name == "__defineGetter__" || name == "__defineSetter__" then
        if |args| < 2 || !args[1].Func? then Err("Object.prototype." + name + ": Expecting function")
        else Ok(Effects(c, [], [], []))
      else Err(name + " is not a function")
    else match c.proxy[name]
      case Stub(remoteName, namedParams) =>
        var (s, m) := Rpc.CallStub(c.rpc, remoteName, namedParams, args);
        SendDown(c.(rpc := s), encode(m))
      case Destroyer => Ok(Effects(Close(c), [], [], []))
      case _ => Err(name + " is not a function")
  }

  /** The proxy inherits `toString` and friends: with no remote method of
      that name, calling one does nothing, and `__proto__` is no function. */
  lemma InheritedProxyMembers(config: Setup.TransportConfig, args: seq<Rpc.Arg>, encode: Rpc.Message -> string)
    requires Open(config, map[]).Ok?
    ensures var c := Open(config, map[]).value.conn;
      && Call(c, "toString", args, encode) == Ok(Effects(c, [], [], []))
      && Call(c, "toLocaleString", args, encode) == Ok(Effects(c, [], [], []))
      && Call(c, ProtoName, args, encode) == Err(ProtoName + " is not a function")
  {
    var c := Open(config, map[]).value.conn;
    assert c.proxy.Keys == {"origin", "destroy", "iframe"};
    assert "toString" !in c.proxy && "toLocaleString" !in c.proxy && ProtoName !in c.proxy;
  }

  /** A `message` event reaches the transport. A ready announcement schedules
      the ready callback; a message handed up passes the queue (if any) to
      the RPC behaviour, which parses it (a parse failure throws) and handles
      it; the replies it sends go down in order. */
  function Deliver(c: Conn, eventOrigin: string, data: Transport.EventData,
                   decode: string -> Option<Rpc.Message>, encode: Rpc.Message -> string,
                   local: map<string, Rpc.Handler>): (r: Result<Effects>)
    requires Valid(c)
    ensures r.Ok? ==> Valid(r.value.conn)
    ensures Transport.Receive(c.transport, eventOrigin, data).Err? ==> r.Err?
    ensures (Transport.Receive(c.transport, eventOrigin, data).Ok?
             && Transport.Receive(c.transport, eventOrigin, data).value.delivered.None?) ==>
      var rcv := Transport.Receive(c.transport, eventOrigin, data).value;
      r == Ok(Effects(c.(transport := rcv.state, readyPending := c.readyPending || rcv.readyScheduled), [], [], []))
    ensures r.Ok? && |r.value.invoked| > 0 ==>
      var rcv := Transport.Receive(c.transport, eventOrigin, data).value;
      && rcv.delivered.Some? && decode(rcv.delivered.value.0).Some?
      && Rpc.Incoming(c.rpc, decode(rcv.delivered.value.0).value, local).Ok?
      && Rpc.Incoming(c.rpc, decode(rcv.delivered.value.0).value, local).value.invoked.Some?
      && r.value.invoked == [Rpc.Incoming(c.rpc, decode(rcv.delivered.value.0).value, local).value.invoked.value]
    ensures r.Ok? && |r.value.ran| > 0 ==>
      var rcv := Transport.Receive(c.transport, eventOrigin, data).value;
      && rcv.delivered.Some? && decode(rcv.delivered.value.0).Some?
      && Rpc.Incoming(c.rpc, decode(rcv.delivered.value.0).value, local).Ok?
      && Rpc.Incoming(c.rpc, decode(rcv.delivered.value.0).value, local).value.ran.Some?
      && r.value.ran == [Rpc.Incoming(c.rpc, decode(rcv.delivered.value.0).value, local).value.ran.value]
  {
    var rcv :- Transport.Receive(c.transport, eventOrigin, data);
    var c1 := c.(transport := rcv.state, readyPending := c.readyPending || rcv.readyScheduled);
    match rcv.delivered
    case None => Ok(Effects(c1, [], [], []))
    case Some((text, _)) =>
      match decode(text)
      case None => Err("Unexpected token in JSON")
      case Some(msg) =>
        var h :- Rpc.Incoming(c1.rpc, msg, local);
        var replies := seq(|h.sent|, i requires 0 <= i < |h.sent| => encode(h.sent[i]));
        var sent :- SendAll(c1.(rpc := h.state), replies);
        Ok(Effects(sent.conn, sent.posts, if h.invoked.Some? then [h.invoked.value] else [],
                   if h.ran.Some? then [h.ran.value] else []))
  }

  /** `destroy()`: the stubs leave the proxy, and the call goes down the
      stack: the queue (if still there) stops dispatching and the transport
      removes its frame and stops listening for messages; a host still
      waiting for the guest keeps its ready listener. */
  function Close(c: Conn): (r: Conn)
    requires Valid(c)
    ensures Valid(r) && Queued(r) == Queued(c)
    ensures r.proxy == Rpc.RemoveStubs(c.proxy, c.remote)
    ensures forall n :: n in c.remote ==> n !in r.proxy
    ensures r.transport == Transport.Destroy(c.transport)
    ensures c.transport.phase != Transport.WaitingReady ==> r.transport.phase == Transport.Closed
    ensures c.transport.phase == Transport.WaitingReady ==> r.transport.phase == Transport.WaitingReady
    ensures r.rpc == c.rpc && r.remote == c.remote && r.readyPending == c.readyPending
    ensures Queued(c) ==> r.queue == Queue.Destroy(c.queue)
  {
    var c1 := c.(proxy := Rpc.RemoveStubs(c.proxy, c.remote), transport := Transport.Destroy(c.transport));
    if Queued(c) then c1.(queue := Queue.Destroy(c.queue)) else c1
  }

  // ---------------------------------------------------------------------
  // Properties of the composed stack

  /** The queue entries the RPC behaviour's texts become. */
  function Entries(texts: seq<string>): (es: seq<Queue.Entry>)
    ensures |es| == |texts| && forall i :: 0 <= i < |texts| ==> es[i] == Queue.Entry(texts[i], None, None)
  {
    seq(|texts|, i requires 0 <= i < |texts| => Queue.Entry(texts[i], None, None))
  }

  /** The posts of texts framed for the channel and sent to the target origin. */
  function Framed(t: Transport.TransportState, texts: seq<string>): (ps: seq<Transport.Post>)
    ensures |ps| == |texts| && forall i :: 0 <= i < |texts| ==>
      ps[i] == Transport.Post(Transport.Frame(t.channel, texts[i]), t.targetOrigin)
  {
    seq(|texts|, i requires 0 <= i < |texts| => Transport.Post(Transport.Frame(t.channel, texts[i]), t.targetOrigin))
  }

  /** While the queue waits for the transport, nothing is posted: every text
      is buffered in the order it was sent. */
  lemma {:induction false} BufferedUntilReady(c: Conn, texts: seq<string>)
    requires Valid(c) && Queued(c) && c.queue.waiting
    ensures SendAll(c, texts) == Ok(Effects(c.(queue := c.queue.(items := c.queue.items + Entries(texts))), [], [], []))
    decreases |texts|
  {
    if |texts| > 0 {
      var first := SendDown(c, texts[0]).value;
      assert first == Effects(c.(queue := c.queue.(items := c.queue.items + [Queue.Entry(texts[0], None, None)])), [], [], []);
      BufferedUntilReady(first.conn, texts[1..]);
      assert c.queue.items + [Queue.Entry(texts[0], None, None)] + Entries(texts[1..]) == c.queue.items + Entries(texts);
      var rest := SendAll(first.conn, texts[1..]).value;
      assert SendAll(c, texts) == Ok(Effects(rest.conn, first.posts + rest.posts, [], []));
      assert rest.conn == c.(queue := c.queue.(items := c.queue.items + Entries(texts)));
      assert first.posts + rest.posts == [];
    } else {
      assert c.queue.items + Entries(texts) == c.queue.items;
    }
  }

  /** Once the queue is out of the stack, every text is posted at once, framed
      for the channel and sent to the target origin. */
  lemma {:induction false} DirectWhenUnqueued(c: Conn, texts: seq<string>)
    requires Valid(c) && !Queued(c) && c.transport.canPost
    ensures SendAll(c, texts) == Ok(Effects(c, Framed(c.transport, texts), [], []))
    decreases |texts|
  {
    if |texts| > 0 {
      var first := SendDown(c, texts[0]).value;
      assert first == Effects(c, [Transport.Post(Transport.Frame(c.transport.channel, texts[0]), c.transport.targetOrigin)], [], []);
      DirectWhenUnqueued(c, texts[1..]);
      assert Framed(c.transport, texts) == first.posts + Framed(c.transport, texts[1..]);
    }
  }

  /** The guest's announcement reaches a waiting host: the transport starts
      listening for messages and can post, the ready callback is scheduled,
      and nothing is posted or handed up. */
  lemma AnnouncementSchedulesReady(c: Conn, eventOrigin: string,
                                   decode: string -> Option<Rpc.Message>, encode: Rpc.Message -> string,
                                   local: map<string, Rpc.Handler>)
    requires Valid(c) && c.transport.phase == Transport.WaitingReady && c.transport.hasFrame
    ensures Deliver(c, eventOrigin, Transport.Text(Transport.ReadyText(c.transport.channel)), decode, encode, local)
      == Ok(Effects(c.(transport := c.transport.(phase := Transport.Steady, canPost := true), readyPending := true), [], [], []))
  {
  }

  /** When the ready callback runs, the queue posts everything it buffered, in
      order, takes itself out of the stack, and `onReady` runs once. */
  lemma ReadyFlushes(c: Conn)
    requires Valid(c) && Queued(c) && c.readyPending && c.transport.canPost
    requires !c.queue.destroying && c.queue.remove
    ensures FireReady(c).Ok?
    ensures var e := FireReady(c).value;
      && e.posts == Framed(c.transport, seq(|c.queue.items|, i requires 0 <= i < |c.queue.items| => c.queue.items[i].data))
      && !Queued(e.conn) && e.conn.queue.items == [] && !e.conn.queue.waiting
      && e.conn.readyCalls == c.readyCalls + 1 && e.conn.transport == c.transport
    requires forall i :: 0 <= i < |c.queue.items| ==> c.queue.items[i].origin.None?
  {
    var step := Queue.Callback(c.queue);
    assert step.posted == c.queue.items && step.removeSelf;
    RemoveFromChainLinks(c.stack, QueueAt);
  }

  /** The host's handshake keeps every call: texts sent before the guest
      announced itself are not posted, the announcement posts nothing, and
      the ready callback posts all of them, in order, to the guest's origin;
      afterwards the queue is out of the stack and `onReady` has run once. */
  lemma HostHandshakeKeepsOrder(config: Setup.TransportConfig, remote: map<string, bool>,
                                texts: seq<string>, guestOrigin: string,
                                decode: string -> Option<Rpc.Message>, encode: Rpc.Message -> string,
                                local: map<string, Rpc.Handler>)
    requires config.isHost && Open(config, remote).Ok?
    ensures HandshakeKeepsOrder(Open(config, remote).value.conn, texts, guestOrigin, decode, encode, local)
  {
    var c := Open(config, remote).value.conn;
    BufferAnnounceFire(c, texts, guestOrigin, decode, encode, local);
  }

  /** Texts sent from `c` before the announcement are not posted, the
      announcement posts nothing, and the ready callback then posts all the
      texts, in order, takes the queue out and runs `onReady`. */
  predicate HandshakeKeepsOrder(c: Conn, texts: seq<string>, guestOrigin: string,
                                decode: string -> Option<Rpc.Message>, encode: Rpc.Message -> string,
                                local: map<string, Rpc.Handler>)
    requires Valid(c)
  {
    && SendAll(c, texts).Ok? && SendAll(c, texts).value.posts == []
    && AnnounceThenFire(SendAll(c, texts).value.conn, c, texts, guestOrigin, decode, encode, local)
  }

  /** From `sent`, the announcement posts nothing and the ready callback posts
      `texts` framed for the channel of `c`, takes the queue out and runs
      `onReady` once more than on `c`. */
  predicate AnnounceThenFire(sent: Conn, c: Conn, texts: seq<string>, guestOrigin: string,
                             decode: string -> Option<Rpc.Message>, encode: Rpc.Message -> string,
                             local: map<string, Rpc.Handler>)
    requires Valid(sent)
  {
    && var announced := Deliver(sent, guestOrigin,
                                Transport.Text(Transport.ReadyText(c.transport.channel)), decode, encode, local);
    && announced.Ok? && announced.value.posts == []
    && FireReady(announced.value.conn).Ok?
    && var ready := FireReady(announced.value.conn).value;
    && ready.posts == Framed(c.transport.(phase := Transport.Steady, canPost := true), texts)
    && !Queued(ready.conn) && ready.conn.readyCalls == c.readyCalls + 1
  }

  lemma BufferAnnounceFire(c: Conn, texts: seq<string>, guestOrigin: string,
                           decode: string -> Option<Rpc.Message>, encode: Rpc.Message -> string,
                           local: map<string, Rpc.Handler>)
    requires Valid(c) && Queued(c) && c.queue == Queue.Initial(true)
    requires c.transport.phase == Transport.WaitingReady && c.transport.hasFrame
    ensures HandshakeKeepsOrder(c, texts, guestOrigin, decode, encode, local)
  {
    BufferedUntilReady(c, texts);
    assert c.queue.items + Entries(texts) == Entries(texts);
    AnnounceFire(c.(queue := c.queue.(items := Entries(texts))), c, texts, guestOrigin, decode, encode, local);
  }

  lemma AnnounceFire(sent: Conn, c: Conn, texts: seq<string>, guestOrigin: string,
                     decode: string -> Option<Rpc.Message>, encode: Rpc.Message -> string,
                     local: map<string, Rpc.Handler>)
    requires Valid(c) && Queued(c) && c.queue == Queue.Initial(true)
    requires c.transport.phase == Transport.WaitingReady && c.transport.hasFrame
    requires sent == c.(queue := c.queue.(items := Entries(texts)))
    ensures Valid(sent)
    ensures AnnounceThenFire(sent, c, texts, guestOrigin, decode, encode, local)
  {
    AnnouncementSchedulesReady(sent, guestOrigin, decode, encode, local);
    var steady := sent.(transport := c.transport.(phase := Transport.Steady, canPost := true), readyPending := true);
    ReadyFlushes(steady);
    var items := steady.queue.items;
    assert seq(|items|, i requires 0 <= i < |items| => items[i].data) == texts;
  }

  /** A guest can call as soon as the ready callback ran: the queue, which
      buffered nothing, leaves the stack, and texts then go straight out. */
  lemma GuestReadyThenDirect(config: Setup.TransportConfig, remote: map<string, bool>,
                             texts: seq<string>)
    requires !config.isHost && Open(config, remote).Ok?
    ensures var built := Open(config, remote).value;
      && FireReady(built.conn).Ok?
      && var ready := FireReady(built.conn).value;
      && ready.posts == [] && !Queued(ready.conn) && ready.conn.readyCalls == 1
      && SendAll(ready.conn, texts) == Ok(Effects(ready.conn, Framed(built.conn.transport, texts), [], []))
  {
    var built := Open(config, remote).value;
    ReadyFlushes(built.conn);
    var ready := FireReady(built.conn).value;
    DirectWhenUnqueued(ready.conn, texts);
  }

  /** After `destroy` no message comes up any more, unless the end is a host
      still waiting for the guest (see `ClosedWaitingHostThrows`). */
  lemma NothingArrivesAfterClose(c: Conn, eventOrigin: string, data: Transport.EventData,
                                 decode: string -> Option<Rpc.Message>, encode: Rpc.Message -> string,
                                 local: map<string, Rpc.Handler>)
    requires Valid(c) && c.transport.phase != Transport.WaitingReady
    ensures Deliver(Close(c), eventOrigin, data, decode, encode, local) == Ok(Effects(Close(c), [], [], []))
  {
  }

  /** A host destroyed before the guest announced itself still listens for
      the announcement, and when it arrives the handler reaches for the
      removed frame's window and throws; any other message is ignored. */
  lemma ClosedWaitingHostThrows(c: Conn, eventOrigin: string, data: Transport.EventData,
                                decode: string -> Option<Rpc.Message>, encode: Rpc.Message -> string,
                                local: map<string, Rpc.Handler>)
    requires Valid(c) && c.transport.phase == Transport.WaitingReady
    ensures data == Transport.Text(Transport.ReadyText(c.transport.channel)) ==>
      Deliver(Close(c), eventOrigin, data, decode, encode, local) == Err(Transport.FrameGone)
    ensures data != Transport.Text(Transport.ReadyText(c.transport.channel)) ==>
      Deliver(Close(c), eventOrigin, data, decode, encode, local) == Ok(Effects(Close(c), [], [], []))
  {
    Transport.AnnouncementAfterDestroyThrows(c.transport, eventOrigin);
    if data != Transport.Text(Transport.ReadyText(c.transport.channel)) {
      Transport.DestroyedIgnores(c.transport, eventOrigin, data);
    }
  }

  /** The proxy's own `destroy`, when no remote method took its name, destroys
      the end. */
  lemma DestroyThroughProxy(config: Setup.TransportConfig, remote: map<string, bool>,
                            args: seq<Rpc.Arg>, encode: Rpc.Message -> string)
    requires Open(config, remote).Ok? && "destroy" !in remote
    ensures var c := Open(config, remote).value.conn;
      Call(c, "destroy", args, encode) == Ok(Effects(Close(c), [], [], []))
  {
  }

  /** After `destroy` a host posts nothing: its queue (if still there) only
      buffers, and without the queue the post throws for lack of a window. */
  lemma HostSilentAfterClose(c: Conn, text: string)
    requires Valid(c) && (Queued(c) || c.transport.hasFrame)
    ensures SendDown(Close(c), text).Ok? ==> SendDown(Close(c), text).value.posts == []
  {
  }

  /** Both ends of an established channel: queues gone, transports listening
      and able to post, on one channel, each expecting the other's origin. */
  predicate Connected(a: Conn, b: Conn, aOrigin: string, bOrigin: string) {
    && Valid(a) && Valid(b) && !Queued(a) && !Queued(b)
    && a.transport.canPost && b.transport.canPost
    && a.transport.phase == Transport.Steady && b.transport.phase == Transport.Steady
    && a.transport.channel == b.transport.channel
    && Location.GetLocation(aOrigin) == Ok(b.transport.targetOrigin)
    && Location.GetLocation(bOrigin) == Ok(a.transport.targetOrigin)
  }

  /** A framed text from the expected origin reaches the RPC behaviour of an
      established end. */
  lemma FramedArrives(c: Conn, eventOrigin: string, text: string)
    requires Valid(c) && c.transport.phase == Transport.Steady
    requires Location.GetLocation(eventOrigin) == Ok(c.transport.targetOrigin)
    ensures Transport.Receive(c.transport, eventOrigin, Transport.Text(Transport.Frame(c.transport.channel, text)))
      == Ok(Transport.Received(c.transport, Some((text, c.transport.targetOrigin)), false))
  {
    Transport.FrameRoundTrip(c.transport.channel, text);
  }

  /** A stub call on an end whose queue is gone posts the encoded request at
      once. */
  lemma CallPosts(a: Conn, name: string, args: seq<Rpc.Arg>, encode: Rpc.Message -> string)
    requires Valid(a) && !Queued(a) && a.transport.canPost
    requires name in a.proxy && a.proxy[name].Stub?
    ensures var (s, m) := Rpc.CallStub(a.rpc, a.proxy[name].name, a.proxy[name].namedParams, args);
      Call(a, name, args, encode)
        == Ok(Effects(a.(rpc := s), [Transport.Post(Transport.Frame(a.transport.channel, encode(m)), a.transport.targetOrigin)], [], []))
  {
  }

  /** A framed message from the expected origin is decoded and handled, and
      the replies go straight out. */
  lemma MessageHandled(c: Conn, eventOrigin: string, msg: Rpc.Message,
                       decode: string -> Option<Rpc.Message>, encode: Rpc.Message -> string,
                       local: map<string, Rpc.Handler>)
    requires Valid(c) && !Queued(c) && c.transport.canPost && c.transport.phase == Transport.Steady
    requires Location.GetLocation(eventOrigin) == Ok(c.transport.targetOrigin)
    requires decode(encode(msg)) == Some(msg)
    requires Rpc.Incoming(c.rpc, msg, local).Ok?
    ensures var h := Rpc.Incoming(c.rpc, msg, local).value;
      var replies := seq(|h.sent|, i requires 0 <= i < |h.sent| => encode(h.sent[i]));
      Deliver(c, eventOrigin, Transport.Text(Transport.Frame(c.transport.channel, encode(msg))), decode, encode, local)
        == Ok(Effects(c.(rpc := h.state), Framed(c.transport, replies), if h.invoked.Some? then [h.invoked.value] else [],
                      if h.ran.Some? then [h.ran.value] else []))
  {
    FramedArrives(c, eventOrigin, encode(msg));
    var h := Rpc.Incoming(c.rpc, msg, local).value;
    var replies := seq(|h.sent|, i requires 0 <= i < |h.sent| => encode(h.sent[i]));
    DirectWhenUnqueued(c.(rpc := h.state), replies);
  }

  /** A call over an established channel, end to end: the caller posts one
      request; the other end runs the implementation and posts one reply;
      the reply reaches the caller's success callback with the returned value
      and the caller stops waiting. `encode` and `decode` stand for
      `JSON.stringify` and `JSON.parse`, which need only undo each other on
      the request and the reply exchanged (they do not on every value: an
      `undefined` array element comes back as `null`). */
  lemma CallRoundTrip(a: Conn, b: Conn, aOrigin: string, bOrigin: string,
                      name: string, args: seq<Rpc.Json>, success: nat, local: map<string, Rpc.Handler>, v: Rpc.Json,
                      decode: string -> Option<Rpc.Message>, encode: Rpc.Message -> string)
    requires Connected(a, b, aOrigin, bOrigin) && Rpc.Counted(a.rpc)
    requires var (_, request) := Rpc.CallStub(a.rpc, name, false, Rpc.Plains(args) + [Rpc.Func(success)]);
      && decode(encode(request)) == Some(request)
      && decode(encode(Rpc.ResultReply(request.id, v))) == Some(Rpc.ResultReply(request.id, v))
    requires name in a.proxy && a.proxy[name] == Rpc.Stub(name, false)
    requires name != "" && name in local && local[name](args) == Rpc.Script([], Rpc.Returns(v)) && v != Rpc.JUndefined
    ensures var call := Call(a, name, Rpc.Plains(args) + [Rpc.Func(success)], encode);
      && call.Ok? && |call.value.posts| == 1 && call.value.posts[0].target == a.transport.targetOrigin
      && var answer := Deliver(b, aOrigin, Transport.Text(call.value.posts[0].data), decode, encode, local);
      && answer.Ok? && |answer.value.posts| == 1 && answer.value.invoked == []
      && var back := Deliver(call.value.conn, bOrigin, Transport.Text(answer.value.posts[0].data), decode, encode, local);
      && back.Ok? && back.value.invoked == [(success, v)] && back.value.posts == []
      && back.value.conn.rpc.callbacks == a.rpc.callbacks
  {
    var all := Rpc.Plains(args) + [Rpc.Func(success)];
    Rpc.CallThenResult(a.rpc, b.rpc, name, args, success, local, v);
    var (a1rpc, request) := Rpc.CallStub(a.rpc, name, false, all);
    CallPosts(a, name, all, encode);
    var a1 := a.(rpc := a1rpc);
    var reply := Rpc.ResultReply(request.id, v);
    OneReplyPosted(b, aOrigin, request, reply, decode, encode, local);
    NoReplyPosted(a1, bOrigin, reply, decode, encode, local);
  }

  /** A message answered by one reply posts that reply, framed, and invokes nothing. */
  lemma OneReplyPosted(c: Conn, eventOrigin: string, msg: Rpc.Message, reply: Rpc.Message,
                       decode: string -> Option<Rpc.Message>, encode: Rpc.Message -> string,
                       local: map<string, Rpc.Handler>)
    requires Valid(c) && !Queued(c) && c.transport.canPost && c.transport.phase == Transport.Steady
    requires Location.GetLocation(eventOrigin) == Ok(c.transport.targetOrigin)
    requires decode(encode(msg)) == Some(msg)
    requires Rpc.Incoming(c.rpc, msg, local).Ok? && Rpc.Incoming(c.rpc, msg, local).value.sent == [reply]
    requires Rpc.Incoming(c.rpc, msg, local).value.invoked.None?
    ensures var r := Deliver(c, eventOrigin, Transport.Text(Transport.Frame(c.transport.channel, encode(msg))), decode, encode, local);
      && r.Ok? && r.value.invoked == []
      && r.value.posts == [Transport.Post(Transport.Frame(c.transport.channel, encode(reply)), c.transport.targetOrigin)]
  {
    MessageHandled(c, eventOrigin, msg, decode, encode, local);
  }

  /** A message answered by nothing posts nothing and reports what it invoked. */
  lemma NoReplyPosted(c: Conn, eventOrigin: string, msg: Rpc.Message,
                      decode: string -> Option<Rpc.Message>, encode: Rpc.Message -> string,
                      local: map<string, Rpc.Handler>)
    requires Valid(c) && !Queued(c) && c.transport.canPost && c.transport.phase == Transport.Steady
    requires Location.GetLocation(eventOrigin) == Ok(c.transport.targetOrigin)
    requires decode(encode(msg)) == Some(msg)
    requires Rpc.Incoming(c.rpc, msg, local).Ok? && Rpc.Incoming(c.rpc, msg, local).value.sent == []
    ensures var h := Rpc.Incoming(c.rpc, msg, local).value;
      var r := Deliver(c, eventOrigin, Transport.Text(Transport.Frame(c.transport.channel, encode(msg))), decode, encode, local);
      && r.Ok? && r.value.posts == [] && r.value.conn.rpc == h.state
      && r.value.invoked == (if h.invoked.Some? then [h.invoked.value] else [])
  {
    MessageHandled(c, eventOrigin, msg, decode, encode, local);
  }
}
