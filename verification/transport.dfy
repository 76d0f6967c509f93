/** `PostMessageTransport` (xdm.js:491-575): the bottom element of the stack.
    It frames every message with the channel name, accepts only frames of its
    own channel coming from the origin it talks to, and performs the
    handshake: the guest announces `<channel>-ready` to its parent, the host
    waits for exactly that text before it can post anything. Windows, event
    listeners and the frame element are reduced to the state they leave. */
module Transport {
  import opened Wrappers
  import Location

  /** Which listener is installed: none yet, the host's ready listener, the
      message listener, or none any more. */
  datatype Phase = Idle | WaitingReady | Steady | Closed

  /** The transport's private state. `canPost` says whether `callerWindow`
      refers to a window; `hasFrame` whether the host created its frame. */
  datatype TransportState = TransportState(
    isHost: bool, channel: string, remote: string,
    phase: Phase, targetOrigin: string, canPost: bool, hasFrame: bool)

  /** A transport before `init`. */
  function New(isHost: bool, channel: string, remote: string): (t: TransportState)
    ensures t.phase == Idle && !t.canPost && !t.hasFrame
  {
    TransportState(isHost, channel, remote, Idle, "", false, false)
  }

  /** The data of a `message` event: text, or anything else. */
  datatype EventData = Text(s: string) | NotText

  /** One `postMessage` call: the data and the target origin. */
  datatype Post = Post(data: string, target: string)

  /** The text a message travels as: the channel name, a space, the message. */
  function Frame(channel: string, message: string): (f: string)
    ensures |f| == |channel| + 1 + |message|
  {
    channel + " " + message
  }

  /** The announcement the guest sends once it listens. */
  function ReadyText(channel: string): string {
    channel + "-ready"
  }

  /** The test of `_windowOnMessage` on the data: a text that starts with the
      channel name and a space, and the message after them. */
  function Unframe(channel: string, data: EventData): (m: Option<string>)
    ensures m.Some? ==> data.Text? && data.s == Frame(channel, m.value)
  {
    if data.Text? && |data.s| >= |channel| + 1 && data.s[..|channel| + 1] == channel + " " then
      assert data.s == channel + " " + data.s[|channel| + 1..];
      Some(data.s[|channel| + 1..])
    else None
  }

  /** The outcome of `init`: the new state, what was posted, and whether
      `callback(true)` was scheduled for the element above. */
  datatype Started = Started(state: TransportState, posts: seq<Post>, readyScheduled: bool)

  /** `init()`: the target origin is the origin of the remote url. The host
      starts listening for the announcement and creates the frame; the guest
      listens for messages, posts the announcement to its parent and
      schedules the ready callback. */
  function Init(t: TransportState): (r: Result<Started>)
    requires t.phase == Idle && !t.canPost && !t.hasFrame
    ensures r.Err? <==> Location.GetLocation(t.remote).Err?
    ensures r.Ok? ==> r.value.state.targetOrigin == Location.GetLocation(t.remote).value
    ensures r.Ok? && t.isHost ==>
      && r.value.state.phase == WaitingReady && r.value.state.hasFrame && !r.value.state.canPost
      && r.value.posts == [] && !r.value.readyScheduled
    ensures r.Ok? && !t.isHost ==>
      && r.value.state.phase == Steady && r.value.state.canPost
      && r.value.posts == [Post(ReadyText(t.channel), r.value.state.targetOrigin)]
      && r.value.readyScheduled
  {
    var origin :- Location.GetLocation(t.remote);
    if t.isHost then
      Ok(Started(t.(phase := WaitingReady, targetOrigin := origin, hasFrame := true), [], false))
    else
      Ok(Started(t.(phase := Steady, targetOrigin := origin, canPost := true),
                 [Post(ReadyText(t.channel), origin)], true))
  }

  /** What a `message` event did: the new state, the message and origin
      handed up (if any), and whether the ready callback was scheduled. */
  datatype Received = Received(state: TransportState, delivered: Option<(string, string)>, readyScheduled: bool)

  /** The TypeError the host's ready listener throws when the frame it reads
      the window from is gone. */
  const FrameGone := "Cannot read property 'contentWindow' of null"

  /** A `message` event with the sender's origin `eventOrigin`. The host's
      ready listener reacts only to the exact announcement text, whoever sends
      it: it takes the frame's window (which throws once `destroy` dropped the
      frame) and swaps itself for the message listener. The message
      listener normalises the sender's origin (which throws on an empty or
      `file` origin) and hands the message up when that origin is the target
      origin and the data is a frame of this channel. */
  function Receive(t: TransportState, eventOrigin: string, data: EventData): (r: Result<Received>)
    ensures t.phase != Steady ==> (r.Ok? || r.error == FrameGone) && (r.Ok? ==> r.value.delivered.None?)
    ensures t.phase != Steady ==> (r.Err? <==> t.phase == WaitingReady && !t.hasFrame && data == Text(ReadyText(t.channel)))
    ensures t.phase == WaitingReady && r.Ok? ==>
      (r.value.readyScheduled <==> data == Text(ReadyText(t.channel)))
      && (r.value.readyScheduled ==> r.value.state.phase == Steady && r.value.state.canPost)
      && (!r.value.readyScheduled ==> r.value.state == t)
    ensures t.phase == Steady ==> (r.Err? <==> Location.GetLocation(eventOrigin).Err?)
    ensures r.Ok? && r.value.delivered.Some? ==>
      && t.phase == Steady
      && Location.GetLocation(eventOrigin) == Ok(t.targetOrigin)
      && Unframe(t.channel, data).Some?
      && r.value.delivered.value == (Unframe(t.channel, data).value, t.targetOrigin)
    ensures (t.phase == Steady && Location.GetLocation(eventOrigin) == Ok(t.targetOrigin)
             && Unframe(t.channel, data).Some?) ==> r.Ok? && r.value.delivered.Some?
    ensures r.Ok? && t.phase != WaitingReady ==> r.value.state == t && !r.value.readyScheduled
  {
    match t.phase
    case WaitingReady =>
      if data == Text(ReadyText(t.channel)) then
        if !t.hasFrame then Err(FrameGone)
        else Ok(Received(t.(phase := Steady, canPost := true), None, true))
      else Ok(Received(t, None, false))
    case Steady =>
      var origin :- Location.GetLocation(eventOrigin);
      var m := Unframe(t.channel, data);
      if origin == t.targetOrigin && m.Some? then Ok(Received(t, Some((m.value, origin)), false))
      else Ok(Received(t, None, false))
    case _ => Ok(Received(t, None, false))
  }

  /** `outgoing(message, domain, fn)`: posts the framed message to `domain`,
      or to the target origin when no domain (or an empty one) is given; with
      no window to post to, the call throws. The acknowledgement `fn` is
      called right after the post. */
  /** The TypeError `callerWindow.postMessage` throws without a window:
      `callerWindow` is `null` once a host's `destroy` dropped it with the
      frame, and still `undefined` otherwise. */
  function NoWindow(t: TransportState): string {
    if t.isHost && !t.hasFrame && t.phase != Idle then "Cannot read property 'postMessage' of null"
    else "Cannot read property 'postMessage' of undefined"
  }

  function Outgoing(t: TransportState, message: string, domain: Option<string>): (r: Result<Post>)
    ensures r.Ok? <==> t.canPost
    ensures r.Err? ==> r.error == NoWindow(t)
    ensures r.Ok? ==> r.value.data == Frame(t.channel, message)
    ensures r.Ok? && (domain.None? || domain == Some("")) ==> r.value.target == t.targetOrigin
    ensures r.Ok? && domain.Some? && domain != Some("") ==> r.value.target == domain.value
  {
    if !t.canPost then Err(NoWindow(t))
    else Ok(Post(Frame(t.channel, message), if domain.None? || domain == Some("") then t.targetOrigin else domain.value))
  }

  /** A host that has not heard the announcement posts to an `undefined`
      window; once destroyed, to a `null` one. */
  lemma HostNoWindowMessages(t: TransportState, message: string, domain: Option<string>)
    requires t.isHost && t.hasFrame && !t.canPost
    ensures Outgoing(t, message, domain) == Err("Cannot read property 'postMessage' of undefined")
    ensures Outgoing(Destroy(t), message, domain) == Err("Cannot read property 'postMessage' of null")
  {
  }

  /** `destroy()` as written: only the message listener is removed, so a host
      still waiting for the announcement keeps its ready listener; a host also
      drops its window reference and frame, a guest keeps posting to its
      parent possible. */
  function Destroy(t: TransportState): (r: TransportState)
    ensures t.phase == WaitingReady ==> r.phase == WaitingReady
    ensures t.phase != WaitingReady ==> r.phase == Closed
    ensures !r.hasFrame && r.canPost == (t.canPost && !t.hasFrame)
    ensures r.channel == t.channel && r.targetOrigin == t.targetOrigin && r.isHost == t.isHost
  {
    var dropped := if t.hasFrame then t.(canPost := false, hasFrame := false) else t;
    if t.phase == WaitingReady then dropped else dropped.(phase := Closed)
  }

  /** `destroy()` as evidently intended: whichever listener is installed goes,
      so nothing reacts to messages any more. */
  function DestroyIntended(t: TransportState): (r: TransportState)
    ensures r.phase == Closed
    ensures !r.hasFrame && r.canPost == (t.canPost && !t.hasFrame)
    ensures r.channel == t.channel && r.targetOrigin == t.targetOrigin && r.isHost == t.isHost
  {
    Destroy(t).(phase := Closed)
  }

  /** A host destroyed before the guest announced itself still reacts to the
      announcement, which then throws for want of the frame; with both
      listeners removed the announcement is ignored like any other message. */
  lemma AnnouncementAfterDestroyThrows(t: TransportState, eventOrigin: string)
    requires t.phase == WaitingReady
    ensures Receive(Destroy(t), eventOrigin, Text(ReadyText(t.channel))) == Err(FrameGone)
    ensures Receive(DestroyIntended(t), eventOrigin, Text(ReadyText(t.channel)))
      == Ok(Received(DestroyIntended(t), None, false))
  {
  }

  /** After the intended `destroy` no message has any effect. */
  lemma NothingReceivedAfterDestroy(t: TransportState, eventOrigin: string, data: EventData)
    ensures Receive(DestroyIntended(t), eventOrigin, data) == Ok(Received(DestroyIntended(t), None, false))
  {
  }

  /** After the `destroy` as written an established end ignores every message,
      and a waiting host ignores every message but the announcement. */
  lemma DestroyedIgnores(t: TransportState, eventOrigin: string, data: EventData)
    requires t.phase != WaitingReady || data != Text(ReadyText(t.channel))
    ensures Receive(Destroy(t), eventOrigin, data) == Ok(Received(Destroy(t), None, false))
  {
  }

  /** Every frame of a channel is read back as the message it carries. */
  lemma FrameRoundTrip(channel: string, message: string)
    ensures Unframe(channel, Text(Frame(channel, message))) == Some(message)
  {
    var f := Frame(channel, message);
    assert f[..|channel| + 1] == channel + " ";
    assert f[|channel| + 1..] == message;
  }

  /** A channel name without spaces. */
  predicate NoSpace(channel: string) {
    forall i :: 0 <= i < |channel| ==> channel[i] != ' '
  }

  /** A text whose `k`-th character differs from that of `p` (or that ends
      before it) does not start with `p`. */
  lemma NotPrefixAt(f: string, p: string, k: nat)
    requires k < |p| && (k >= |f| || f[k] != p[k])
    ensures !(|f| >= |p| && f[..|p|] == p)
  {
    if |f| >= |p| {
      assert f[..|p|][k] == f[k];
    }
  }

  /** Channels whose names hold no space never read each other's frames. */
  lemma ChannelIsolation(c1: string, c2: string, message: string)
    requires NoSpace(c1) && NoSpace(c2) && c1 != c2
    ensures Unframe(c2, Text(Frame(c1, message))) == None
  {
    var f := Frame(c1, message);
    var p := c2 + " ";
    if |c1| == |c2| {
      var k :| 0 <= k < |c1| && c1[k] != c2[k];
      assert f[k] == c1[k] && p[k] == c2[k];
      NotPrefixAt(f, p, k);
    } else if exists k :: 0 <= k < |c1| && k < |c2| && c1[k] != c2[k] {
      var k :| 0 <= k < |c1| && k < |c2| && c1[k] != c2[k];
      assert f[k] == c1[k] && p[k] == c2[k];
      NotPrefixAt(f, p, k);
    } else if |c1| < |c2| {
      assert f[|c1|] == ' ' && p[|c1|] == c2[|c1|];
      NotPrefixAt(f, p, |c1|);
    } else {
      assert f[|c2|] == c1[|c2|] && p[|c2|] == ' ';
      NotPrefixAt(f, p, |c2|);
    }
  }

  /** The announcement is never read as a frame, and no frame of a channel
      without spaces is ever taken for an announcement. */
  lemma ReadyIsNotAFrame(channel: string, other: string, message: string)
    requires NoSpace(other)
    ensures Unframe(channel, Text(ReadyText(channel))) == None
    ensures Frame(channel, message) != ReadyText(other)
  {
    var r := ReadyText(channel);
    assert r[|channel|] == '-' && (channel + " ")[|channel|] == ' ';
    NotPrefixAt(r, channel + " ", |channel|);
    var f := Frame(channel, message);
    var ro := ReadyText(other);
    forall i | 0 <= i < |ro| ensures ro[i] != ' ' {
      if i >= |other| {
        assert ro[i] in "-ready";
      } else {
        assert ro[i] == other[i];
      }
    }
    assert f[|channel|] == ' ';
  }

  /** A host cannot post before the guest has announced itself, and can once
      it has. */
  lemma HostPostsOnlyAfterReady(channel: string, remote: string, message: string, guestOrigin: string)
    requires Init(New(true, channel, remote)).Ok?
    ensures var t := Init(New(true, channel, remote)).value.state;
      && Outgoing(t, message, None).Err?
      && Receive(t, guestOrigin, Text(ReadyText(channel))).Ok?
      && Outgoing(Receive(t, guestOrigin, Text(ReadyText(channel))).value.state, message, None)
         == Ok(Post(Frame(channel, message), t.targetOrigin))
  {
  }

  /** The handshake: the guest's announcement, received by a waiting host on
      the same channel, makes the host ready and schedules its ready callback. */
  lemma Handshake(channel: string, hostRemote: string, guestRemote: string, guestOrigin: string)
    requires Init(New(true, channel, hostRemote)).Ok?
    requires Init(New(false, channel, guestRemote)).Ok?
    ensures var g := Init(New(false, channel, guestRemote)).value;
      var h := Init(New(true, channel, hostRemote)).value.state;
      && |g.posts| == 1 && g.readyScheduled
      && Receive(h, guestOrigin, Text(g.posts[0].data)).Ok?
      && Receive(h, guestOrigin, Text(g.posts[0].data)).value.readyScheduled
      && Receive(h, guestOrigin, Text(g.posts[0].data)).value.state.phase == Steady
  {
  }

  /** A message posted by one end arrives at the other end, which hands it up
      unchanged, when both use the same channel and the sender's normalised
      origin is the receiver's target origin. */
  lemma MessageArrives(sender: TransportState, receiver: TransportState, message: string, senderOrigin: string)
    requires sender.canPost && receiver.phase == Steady && sender.channel == receiver.channel
    requires Location.GetLocation(senderOrigin) == Ok(receiver.targetOrigin)
    ensures Outgoing(sender, message, None).Ok?
    ensures Receive(receiver, senderOrigin, Text(Outgoing(sender, message, None).value.data))
      == Ok(Received(receiver, Some((message, receiver.targetOrigin)), false))
  {
    FrameRoundTrip(sender.channel, message);
  }

  /** A frame from any origin other than the target origin is ignored. */
  lemma ForeignOriginIgnored(t: TransportState, eventOrigin: string, data: EventData)
    requires t.phase == Steady
    requires Location.GetLocation(eventOrigin).Ok? && Location.GetLocation(eventOrigin).value != t.targetOrigin
    ensures Receive(t, eventOrigin, data) == Ok(Received(t, None, false))
  {
  }
}
