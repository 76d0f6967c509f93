/** `RpcBehavior` (xdm.js:668-856): JSON-RPC 2.0 over the string channel.
    Calls to the remote end are made through stubs installed on the proxy
    object; a call with callbacks gets a fresh numeric id and its callbacks
    wait for the response with that id. Requests from the remote end run the
    local implementation, which answers through a success and an error
    continuation or by returning or throwing. Messages are handled as values
    here; `JSON.stringify` and `JSON.parse` sit between this layer and the
    queue below it. */
module Rpc {
  import opened Wrappers
  import Strings
  import Values

  /** A JSON-like value as `JSON.parse` yields it, with `undefined` standing
      for an absent member. Numbers are integers here. */
  datatype Json =
    | JUndefined
    | JNull
    | JBool(b: bool)
    | JNum(n: int)
    | JStr(s: string)
    | JArr(items: seq<Json>)
    | JObj(fields: seq<(string, Json)>)

  /** JavaScript truthiness. */
  predicate Truthy(v: Json) {
    !(v.JUndefined? || v.JNull? || v == JBool(false) || v == JNum(0) || v == JStr(""))
  }

  /** A JSON-RPC message object; an absent member is `JUndefined`. */
  datatype Message = Message(jsonrpc: Json, methodName: Json, id: Json, params: Json, result: Json, error: Json)

  /** `_send(data)` stamps the version before serialising. */
  const Version: Json := JStr("2.0")

  function Request(name: string, id: Json, params: Json): Message {
    Message(Version, JStr(name), id, params, JUndefined, JUndefined)
  }

  function ResultReply(id: Json, result: Json): Message {
    Message(Version, JUndefined, id, JUndefined, result, JUndefined)
  }

  /** An error reply; the `data` member is present only when it is truthy. */
  function ErrorReply(id: Json, code: int, message: Json, data: Json): Message {
    var base := [("code", JNum(code)), ("message", message)];
    Message(Version, JUndefined, id, JUndefined, JUndefined,
            JObj(if Truthy(data) then base + [("data", data)] else base))
  }

  const ProcedureNotFound: int := -32601
  const ApplicationError: int := -32099

  predicate IsResultReply(m: Message) {
    m.methodName == JUndefined && m.error == JUndefined
  }

  predicate IsErrorReply(m: Message) {
    m.methodName == JUndefined && m.error.JObj?
  }

  // ---------------------------------------------------------------------
  // Calling the remote end

  /** An argument of a stub call: a value, or a function (by identity). */
  datatype Arg = Plain(v: Json) | Func(ref: nat)

  /** The continuations a call with callbacks waits with. */
  datatype Callbacks = Callbacks(success: nat, error: Option<nat>)

  /** The behaviour's private variables: the id counter and the callbacks
      waiting for a response, by id. */
  datatype RpcState = RpcState(counter: nat, callbacks: map<nat, Callbacks>)

  /** Every waiting id was handed out by the counter. */
  predicate Counted(s: RpcState) {
    forall k :: k in s.callbacks ==> 1 <= k <= s.counter
  }

  /** An argument inside the `params` array: `JSON.stringify` writes a
      function there as `null`. */
  function AsElement(a: Arg): Json {
    match a
    case Plain(v) => v
    case Func(_) => JNull
  }

  /** An argument used as the whole `params` member: a function is dropped. */
  function AsMember(a: Arg): Json {
    match a
    case Plain(v) => v
    case Func(_) => JUndefined
  }

  function ParamsOf(args: seq<Arg>, namedParams: bool): (p: Json)
    ensures namedParams && |args| == 1 ==> p == AsMember(args[0])
    ensures !(namedParams && |args| == 1) ==>
      p.JArr? && |p.items| == |args| && forall i :: 0 <= i < |args| ==> p.items[i] == AsElement(args[i])
  {
    if namedParams && |args| == 1 then AsMember(args[0])
    else JArr(seq(|args|, i requires 0 <= i < |args| => AsElement(args[i])))
  }

  /** The callbacks a call ends with: the last argument if it is a function,
      and the one before it as well (success, then error) if that is a
      function too; with them, the arguments before. */
  function SplitCallbacks(args: seq<Arg>): (r: (Option<Callbacks>, seq<Arg>))
    ensures r.0.None? <==> |args| == 0 || !args[|args| - 1].Func?
    ensures r.0.None? ==> r.1 == args
    ensures (r.0.Some? && r.0.value.error.None?) ==>
      && |args| >= 1 && args[|args| - 1].Func?
      && r.1 == args[..|args| - 1] && r.0.value.success == args[|args| - 1].ref
      && (|args| == 1 || !args[|args| - 2].Func?)
    ensures (r.0.Some? && r.0.value.error.Some?) ==>
      && |args| > 1 && args[|args| - 1].Func? && args[|args| - 2].Func? && r.1 == args[..|args| - 2]
      && r.0.value.success == args[|args| - 2].ref && r.0.value.error.value == args[|args| - 1].ref
  {
    var l := |args|;
    if l > 0 && args[l - 1].Func? then
      if l > 1 && args[l - 2].Func? then (Some(Callbacks(args[l - 2].ref, Some(args[l - 1].ref))), args[..l - 2])
      else (Some(Callbacks(args[l - 1].ref, None)), args[..l - 1])
    else (None, args)
  }

  /** A call of the stub for the remote method `name`: a call ending in callbacks gets the
      next id and its callbacks are kept under it; any other call is a
      notification without id. A `namedParams` method called with one
      argument sends that argument itself as the parameters. */
  function CallStub(s: RpcState, name: string, namedParams: bool, args: seq<Arg>): (r: (RpcState, Message))
    ensures var (cb, params) := SplitCallbacks(args);
      && r.1 == Request(name, r.1.id, ParamsOf(params, namedParams))
      && (cb.None? ==> r.0 == s && r.1.id == JUndefined)
      && (cb.Some? ==> r.0.counter == s.counter + 1 && r.1.id == JNum(r.0.counter)
                       && r.0.callbacks == s.callbacks[r.0.counter := cb.value])
    ensures Counted(s) ==> Counted(r.0)
    ensures Counted(s) && Truthy(r.1.id) ==> r.1.id.JNum? && r.1.id.n !in s.callbacks && r.1.id.n > 0
  {
    var (cb, params) := SplitCallbacks(args);
    match cb
    case None => (s, Request(name, JUndefined, ParamsOf(params, namedParams)))
    case Some(c) =>
      var id := s.counter + 1;
      (RpcState(id, s.callbacks[id := c]), Request(name, JNum(id), ParamsOf(params, namedParams)))
  }

  // ---------------------------------------------------------------------
  // Answering the remote end

  /** One thing a local implementation does with its continuations before it
      returns: call `success(result)` or `error(message, data)`. */
  datatype Act = CallSuccess(result: Json) | CallError(message: Json, data: Json)

  /** How the local implementation ends: it returns a value (`JUndefined` for
      none) or throws an error with a message. */
  datatype Outcome = Returns(value: Json) | Throws(message: Json)

  /** What a local implementation does, synchronously, for one call. */
  datatype Script = Script(acts: seq<Act>, outcome: Outcome)

  /** A local implementation: what it does for given parameters. */
  type Handler = seq<Json> -> Script

  /** `params` is passed as the argument list when it is an array, and as
      the only argument otherwise. */
  function ArgsOf(params: Json): seq<Json> {
    if params.JArr? then params.items else [params]
  }

  /** The reply one continuation call sends. */
  function ReplyOf(id: Json, a: Act): Message {
    match a
    case CallSuccess(v) => ResultReply(id, v)
    case CallError(m, d) => ErrorReply(id, ApplicationError, m, d)
  }

  /** The continuations' effects as written: `success = emptyFn` inside the
      continuation rebinds only the local variable, so the function the
      implementation holds sends every time it is called; the flags record
      whether the local variables were rebound. */
  function ActsAsWritten(acts: seq<Act>, id: Json, successUsed: bool, errorUsed: bool): (r: (seq<Message>, bool, bool))
    ensures Truthy(id) ==> r.0 == seq(|acts|, i requires 0 <= i < |acts| => ReplyOf(id, acts[i]))
    ensures !Truthy(id) ==> r.0 == []
    ensures r.1 == (successUsed || (Truthy(id) && exists i :: 0 <= i < |acts| && acts[i].CallSuccess?))
    ensures r.2 == (errorUsed || (Truthy(id) && exists i :: 0 <= i < |acts| && acts[i].CallError?))
  {
    if |acts| == 0 then ([], successUsed, errorUsed)
    else if !Truthy(id) then ActsAsWritten(acts[1..], id, successUsed, errorUsed)
    else
      var rest := ActsAsWritten(acts[1..], id, successUsed || acts[0].CallSuccess?, errorUsed || acts[0].CallError?);
      ([ReplyOf(id, acts[0])] + rest.0, rest.1, rest.2)
  }

  /** The continuations' effects as intended: each continuation answers once
      and is empty afterwards, however often the implementation calls it. */
  function ActsOneShot(acts: seq<Act>, id: Json, successUsed: bool, errorUsed: bool): (r: (seq<Message>, bool, bool))
    ensures !Truthy(id) ==> r.0 == []
    ensures r.1 == (successUsed || (Truthy(id) && exists i :: 0 <= i < |acts| && acts[i].CallSuccess?))
    ensures r.2 == (errorUsed || (Truthy(id) && exists i :: 0 <= i < |acts| && acts[i].CallError?))
    ensures forall i :: 0 <= i < |r.0| ==> r.0[i].id == id && r.0[i].jsonrpc == Version
    ensures Count(r.0, true) <= (if !successUsed && r.1 then 1 else 0)
    ensures Count(r.0, false) <= (if !errorUsed && r.2 then 1 else 0)
  {
    if |acts| == 0 || !Truthy(id) then ([], successUsed || false, errorUsed || false)
    else
      var fires := if acts[0].CallSuccess? then !successUsed else !errorUsed;
      var rest := ActsOneShot(acts[1..], id, successUsed || acts[0].CallSuccess?, errorUsed || acts[0].CallError?);
      if fires then ([ReplyOf(id, acts[0])] + rest.0, rest.1, rest.2) else rest
  }

  /** The number of result replies (`results`) or error replies among `ms`. */
  function Count(ms: seq<Message>, results: bool): nat {
    if |ms| == 0 then 0
    else (if (if results then IsResultReply(ms[0]) else IsErrorReply(ms[0])) then 1 else 0) + Count(ms[1..], results)
  }

  /** The reply the end of the implementation sends when the continuation it
      would use has not been used: a returned value other than `undefined`
      goes to `success`, a thrown error's message to `error`. */
  function FinalReply(id: Json, outcome: Outcome, successUsed: bool, errorUsed: bool): (ms: seq<Message>)
    ensures |ms| <= 1
  {
    match outcome
    case Returns(v) => if v != JUndefined && !successUsed then [ResultReply(id, v)] else []
    case Throws(m) => if !errorUsed then [ErrorReply(id, ApplicationError, m, JUndefined)] else []
  }

  /** Whether some act calls the success continuation (`success`) or the
      error continuation (`!success`). */
  predicate Calls(acts: seq<Act>, success: bool) {
    exists i :: 0 <= i < |acts| && acts[i].CallSuccess? == success
  }

  /** `_executeMethod(method, id, fn, params)` as written. A missing
      implementation is answered with "Procedure not found." when the request
      has an id; a request without id (a notification) gets no answer. With
      an id, every call of a continuation sends its reply, in order; then a
      returned value other than `undefined` is sent as the result unless
      `success` was called, and a thrown error's message is sent as an
      application error unless `error` was called. */
  function ExecuteAsWritten(id: Json, fn: Option<Handler>, params: Json): (sent: seq<Message>)
    ensures fn.None? ==> sent == (if Truthy(id) then [ErrorReply(id, ProcedureNotFound, JStr("Procedure not found."), JUndefined)] else [])
    ensures !Truthy(id) ==> sent == []
    ensures forall i :: 0 <= i < |sent| ==> sent[i].id == id && sent[i].jsonrpc == Version
    ensures fn.Some? && Truthy(id) ==>
      var script := fn.value(ArgsOf(params));
      && |sent| >= |script.acts|
      && (forall i :: 0 <= i < |script.acts| ==> sent[i] == ReplyOf(id, script.acts[i]))
      && (script.outcome.Returns? ==>
            sent[|script.acts|..] == (if script.outcome.value != JUndefined && !Calls(script.acts, true)
                                      then [ResultReply(id, script.outcome.value)] else []))
      && (script.outcome.Throws? ==>
            sent[|script.acts|..] == (if !Calls(script.acts, false)
                                      then [ErrorReply(id, ApplicationError, script.outcome.message, JUndefined)] else []))
  {
    match fn
    case None => if Truthy(id) then [ErrorReply(id, ProcedureNotFound, JStr("Procedure not found."), JUndefined)] else []
    case Some(h) =>
      if !Truthy(id) then []
      else
        var script := h(ArgsOf(params));
        var (replies, su, eu) := ActsAsWritten(script.acts, id, false, false);
        replies + FinalReply(id, script.outcome, su, eu)
  }

  /** `_executeMethod` with one-shot continuations: besides what the code as
      written promises, a request is answered with at most one result and at
      most one error. */
  function Execute(id: Json, fn: Option<Handler>, params: Json): (sent: seq<Message>)
    ensures fn.None? ==> sent == (if Truthy(id) then [ErrorReply(id, ProcedureNotFound, JStr("Procedure not found."), JUndefined)] else [])
    ensures !Truthy(id) ==> sent == []
    ensures forall i :: 0 <= i < |sent| ==> sent[i].id == id && sent[i].jsonrpc == Version
    ensures fn.Some? ==> Count(sent, true) <= 1 && Count(sent, false) <= 1
  {
    match fn
    case None => if Truthy(id) then [ErrorReply(id, ProcedureNotFound, JStr("Procedure not found."), JUndefined)] else []
    case Some(h) =>
      if !Truthy(id) then []
      else
        var script := h(ArgsOf(params));
        var (replies, su, eu) := ActsOneShot(script.acts, id, false, false);
        var last := FinalReply(id, script.outcome, su, eu);
        CountFinal(replies, id, script.outcome, su, eu);
        replies + last
  }

  lemma {:induction false} CountConcat(a: seq<Message>, b: seq<Message>, results: bool)
    ensures Count(a + b, results) == Count(a, results) + Count(b, results)
  {
    if |a| > 0 {
      assert (a + b)[1..] == a[1..] + b;
      CountConcat(a[1..], b, results);
    } else {
      assert a + b == b;
    }
  }

  /** The last reply goes only through a continuation that was not used. */
  lemma CountFinal(replies: seq<Message>, id: Json, outcome: Outcome, su: bool, eu: bool)
    requires Count(replies, true) <= (if su then 1 else 0)
    requires Count(replies, false) <= (if eu then 1 else 0)
    ensures Count(replies + FinalReply(id, outcome, su, eu), true) <= 1
    ensures Count(replies + FinalReply(id, outcome, su, eu), false) <= 1
  {
    var last := FinalReply(id, outcome, su, eu);
    CountConcat(replies, last, true);
    CountConcat(replies, last, false);
    if |last| == 1 {
      assert last[1..] == [];
    }
  }

  /** A reply of the kind a continuation sends: a result (`success`) or an
      error. */
  predicate OfKind(m: Message, success: bool) {
    if success then IsResultReply(m) else IsErrorReply(m)
  }

  lemma {:induction false} CountZero(ms: seq<Message>, success: bool)
    requires Count(ms, success) == 0
    ensures forall k :: 0 <= k < |ms| ==> !OfKind(ms[k], success)
  {
    if |ms| > 0 {
      CountZero(ms[1..], success);
      forall k | 1 <= k < |ms| ensures !OfKind(ms[k], success) {
        assert ms[k] == ms[1..][k - 1];
      }
    }
  }

  /** One step of `ActsOneShot`: the first act sends its reply when its
      continuation is still unused, and marks it used for the rest. */
  lemma OneShotStep(acts: seq<Act>, id: Json, su: bool, eu: bool)
    requires Truthy(id) && |acts| > 0
    ensures ActsOneShot(acts, id, su, eu).0
      == (if (if acts[0].CallSuccess? then !su else !eu) then [ReplyOf(id, acts[0])] else [])
         + ActsOneShot(acts[1..], id, su || acts[0].CallSuccess?, eu || acts[0].CallError?).0
  {
  }

  /** With one-shot continuations, the first call of a continuation sends the
      only reply of its kind. */
  lemma {:induction false} OneShotFirst(acts: seq<Act>, id: Json, su: bool, eu: bool, i: nat)
    requires Truthy(id) && i < |acts|
    requires if acts[i].CallSuccess? then !su else !eu
    requires forall j :: 0 <= j < i ==> acts[j].CallSuccess? != acts[i].CallSuccess?
    ensures var ms := ActsOneShot(acts, id, su, eu).0;
      && ReplyOf(id, acts[i]) in ms
      && forall k :: 0 <= k < |ms| && OfKind(ms[k], acts[i].CallSuccess?) ==> ms[k] == ReplyOf(id, acts[i])
    decreases i
  {
    var kind := acts[i].CallSuccess?;
    var su' := su || acts[0].CallSuccess?;
    var eu' := eu || acts[0].CallError?;
    var rest := ActsOneShot(acts[1..], id, su', eu').0;
    var head := if (if acts[0].CallSuccess? then !su else !eu) then [ReplyOf(id, acts[0])] else [];
    OneShotStep(acts, id, su, eu);
    if i == 0 {
      OneShotFirstHead(acts, id, su, eu);
    } else {
      forall j | 0 <= j < i - 1 ensures acts[1..][j].CallSuccess? != acts[1..][i - 1].CallSuccess? {
        assert acts[1..][j] == acts[j + 1];
      }
      assert acts[1..][i - 1] == acts[i];
      OneShotFirst(acts[1..], id, su', eu', i - 1);
      assert forall k :: 0 <= k < |head| ==> !OfKind(head[k], kind);
      ConcatKind(head, rest, kind, ReplyOf(id, acts[i]));
    }
  }

  /** The first act, when its continuation is unused, sends the only reply of
      its kind. */
  lemma OneShotFirstHead(acts: seq<Act>, id: Json, su: bool, eu: bool)
    requires Truthy(id) && |acts| > 0
    requires if acts[0].CallSuccess? then !su else !eu
    ensures var ms := ActsOneShot(acts, id, su, eu).0;
      && ReplyOf(id, acts[0]) in ms
      && forall k :: 0 <= k < |ms| && OfKind(ms[k], acts[0].CallSuccess?) ==> ms[k] == ReplyOf(id, acts[0])
  {
    var kind := acts[0].CallSuccess?;
    var rest := ActsOneShot(acts[1..], id, su || acts[0].CallSuccess?, eu || acts[0].CallError?).0;
    OneShotStep(acts, id, su, eu);
    assert Count(rest, kind) == 0;
    CountZero(rest, kind);
    ConcatKind([ReplyOf(id, acts[0])], rest, kind, ReplyOf(id, acts[0]));
  }

  /** Replies of one kind in a concatenation come from its parts. */
  lemma ConcatKind(xs: seq<Message>, ys: seq<Message>, kind: bool, m: Message)
    requires forall k :: 0 <= k < |xs| && OfKind(xs[k], kind) ==> xs[k] == m
    requires forall k :: 0 <= k < |ys| && OfKind(ys[k], kind) ==> ys[k] == m
    ensures forall k :: 0 <= k < |xs + ys| && OfKind((xs + ys)[k], kind) ==> (xs + ys)[k] == m
  {
    forall k | 0 <= k < |xs + ys| && OfKind((xs + ys)[k], kind) ensures (xs + ys)[k] == m {
      if k >= |xs| { assert (xs + ys)[k] == ys[k - |xs|]; }
    }
  }

  /** With one-shot continuations and an id, the first call of a continuation
      sends the only reply of its kind: the first `success(v)` the only result
      `v`, the first `error(m, d)` the only application error. */
  lemma ExecuteFirstAnswers(id: Json, h: Handler, params: Json, i: nat)
    requires Truthy(id) && i < |h(ArgsOf(params)).acts|
    requires var acts := h(ArgsOf(params)).acts;
      forall j :: 0 <= j < i ==> acts[j].CallSuccess? != acts[i].CallSuccess?
    ensures var acts := h(ArgsOf(params)).acts;
      var sent := Execute(id, Some(h), params);
      && ReplyOf(id, acts[i]) in sent
      && forall k :: 0 <= k < |sent| && OfKind(sent[k], acts[i].CallSuccess?) ==> sent[k] == ReplyOf(id, acts[i])
  {
    var script := h(ArgsOf(params));
    var acts := script.acts;
    var r := ActsOneShot(acts, id, false, false);
    OneShotFirst(acts, id, false, false, i);
    var last := FinalReply(id, script.outcome, r.1, r.2);
    assert Execute(id, Some(h), params) == r.0 + last;
    assert acts[i].CallSuccess? ==> r.1;
    assert acts[i].CallError? ==> r.2;
    assert forall k :: 0 <= k < |last| ==> !OfKind(last[k], acts[i].CallSuccess?);
  }

  /** With one-shot continuations and an id, the end of the implementation
      answers when the continuation it would use was not called: a returned
      value other than `undefined` is the only result, `undefined` sends no
      result, and a thrown error's message is the only application error. */
  lemma ExecuteEnds(id: Json, h: Handler, params: Json)
    requires Truthy(id)
    ensures var script := h(ArgsOf(params));
      var sent := Execute(id, Some(h), params);
      && (script.outcome.Returns? && script.outcome.value != JUndefined && !Calls(script.acts, true) ==>
            && ResultReply(id, script.outcome.value) in sent
            && forall k :: 0 <= k < |sent| && IsResultReply(sent[k]) ==> sent[k] == ResultReply(id, script.outcome.value))
      && (script.outcome == Returns(JUndefined) && !Calls(script.acts, true) ==>
            forall k :: 0 <= k < |sent| ==> !IsResultReply(sent[k]))
      && (script.outcome.Throws? && !Calls(script.acts, false) ==>
            var e := ErrorReply(id, ApplicationError, script.outcome.message, JUndefined);
            && e in sent
            && forall k :: 0 <= k < |sent| && IsErrorReply(sent[k]) ==> sent[k] == e)
  {
    var script := h(ArgsOf(params));
    var acts := script.acts;
    var r := ActsOneShot(acts, id, false, false);
    var last := FinalReply(id, script.outcome, r.1, r.2);
    var sent := r.0 + last;
    assert Execute(id, Some(h), params) == sent;
    if !Calls(acts, true) {
      assert !r.1 && Count(r.0, true) == 0;
      CountZero(r.0, true);
      assert forall k :: 0 <= k < |sent| && k < |r.0| ==> sent[k] == r.0[k];
      assert forall k :: |r.0| <= k < |sent| ==> sent[k] == last[k - |r.0|];
    }
    if !Calls(acts, false) {
      assert !r.2 && Count(r.0, false) == 0;
      CountZero(r.0, false);
      assert forall k :: 0 <= k < |sent| && k < |r.0| ==> sent[k] == r.0[k];
      assert forall k :: |r.0| <= k < |sent| ==> sent[k] == last[k - |r.0|];
    }
  }

  /** At most one call of each continuation. */
  predicate AtMostOnce(acts: seq<Act>) {
    && (forall i, j :: 0 <= i < j < |acts| ==> !(acts[i].CallSuccess? && acts[j].CallSuccess?))
    && (forall i, j :: 0 <= i < j < |acts| ==> !(acts[i].CallError? && acts[j].CallError?))
  }

  lemma {:induction false} ActsAgree(acts: seq<Act>, id: Json, su: bool, eu: bool)
    requires AtMostOnce(acts)
    requires su ==> forall i :: 0 <= i < |acts| ==> !acts[i].CallSuccess?
    requires eu ==> forall i :: 0 <= i < |acts| ==> !acts[i].CallError?
    ensures ActsAsWritten(acts, id, su, eu) == ActsOneShot(acts, id, su, eu)
  {
    if |acts| > 0 && Truthy(id) {
      var rest := acts[1..];
      assert AtMostOnce(rest) by {
        forall i, j | 0 <= i < j < |rest| ensures !(rest[i].CallSuccess? && rest[j].CallSuccess?)
          && !(rest[i].CallError? && rest[j].CallError?)
        {
          assert rest[i] == acts[i + 1] && rest[j] == acts[j + 1];
        }
      }
      forall i | 0 <= i < |rest| ensures acts[0].CallSuccess? ==> !rest[i].CallSuccess?
        ensures acts[0].CallError? ==> !rest[i].CallError?
      {
        assert rest[i] == acts[i + 1];
      }
      ActsAgree(rest, id, su || acts[0].CallSuccess?, eu || acts[0].CallError?);
    }
  }

  /** Where the implementation calls each continuation at most once, the code
      as written and the one-shot continuations answer alike. */
  lemma ExecuteAgreesWhenCalledOnce(id: Json, h: Handler, params: Json)
    requires AtMostOnce(h(ArgsOf(params)).acts)
    ensures ExecuteAsWritten(id, Some(h), params) == Execute(id, Some(h), params)
  {
    ActsAgree(h(ArgsOf(params)).acts, id, false, false);
  }

  /** As written, an implementation that calls `success` twice answers the
      same request twice; with one-shot continuations only the first answer
      goes out. */
  lemma DoubleSuccessAnswersTwice(id: Json, a: Json, b: Json)
    requires Truthy(id)
    ensures var h: Handler := _ => Script([CallSuccess(a), CallSuccess(b)], Returns(JUndefined));
      && ExecuteAsWritten(id, Some(h), JArr([])) == [ResultReply(id, a), ResultReply(id, b)]
      && Count(ExecuteAsWritten(id, Some(h), JArr([])), true) == 2
      && Execute(id, Some(h), JArr([])) == [ResultReply(id, a)]
  {
    var h: Handler := _ => Script([CallSuccess(a), CallSuccess(b)], Returns(JUndefined));
    var acts := [CallSuccess(a), CallSuccess(b)];
    assert acts[1..] == [CallSuccess(b)];
    assert acts[1..][1..] == [];
    var w := ActsAsWritten(acts, id, false, false);
    assert w.0 == [ResultReply(id, a), ResultReply(id, b)];
    assert w.1;
    var o := ActsOneShot(acts, id, false, false);
    assert ActsOneShot([CallSuccess(b)], id, true, false).0 == [];
    assert o.0 == [ResultReply(id, a)];
    assert [ResultReply(id, a), ResultReply(id, b)][1..] == [ResultReply(id, b)];
  }

  // ---------------------------------------------------------------------
  // Incoming messages

  /** The property key `String(v)` a value becomes when it indexes an object,
      for the values other than arrays and objects. */
  function PropertyKey(v: Json): Option<string> {
    match v
    case JUndefined => Some("undefined")
    case JNull => Some("null")
    case JBool(b) => Some(if b then "true" else "false")
    case JNum(n) => Some(if n >= 0 then Strings.Decimal(n) else "-" + Strings.Decimal(-n))
    case JStr(str) => Some(str)
    case _ => None
  }

  /** The value's property key names an inherited member. */
  predicate IsInherited(v: Json) {
    PropertyKey(v).Some? && PropertyKey(v).value in Values.ObjectPrototypeNames
  }

  /** The waiting call `_callbacks[data.id]` finds: callbacks are stored under
      the numeral of their id, so the id's property key must be the numeral of
      a counter value. */
  function CallbackKey(id: Json): (k: Option<nat>)
    ensures forall n: nat :: k == Some(n) <==> PropertyKey(id) == Some(Strings.Decimal(n))
  {
    match PropertyKey(id)
    case Some(key) => Strings.ParseNumeral(key)
    case None => None
  }

  /** The id of a response has a call waiting for it. */
  predicate Waiting(s: RpcState, id: Json) {
    CallbackKey(id).Some? && CallbackKey(id).value in s.callbacks
  }

  /** The TypeError `fn.method.apply(...)` throws for an inherited member,
      which has no `method`. */
  const NoMethodApply: string := "Cannot read property 'apply' of undefined"

  /** What `config.local[data.method]` finds: the implementation under the
      name's property key, or an inherited member, which throws as soon as it
      is applied, or nothing. */
  function LocalMethod(local: map<string, Handler>, name: Json): (fn: Option<Handler>)
    ensures PropertyKey(name).Some? && PropertyKey(name).value in local ==> fn == Some(local[PropertyKey(name).value])
    ensures fn.None? <==> !(PropertyKey(name).Some? && PropertyKey(name).value in local) && !IsInherited(name)
  {
    match PropertyKey(name)
    case Some(key) =>
      if key in local then Some(local[key])
      else if key in Values.ObjectPrototypeNames then Some((args: seq<Json>) => Script([], Throws(JStr(NoMethodApply))))
      else None
    case None => None
  }

  /** The TypeError a response for an id nothing waits for throws: the first
      property read from the missing callbacks. */
  function MissingCallback(error: Json): string {
    if Truthy(error) then "Cannot read property 'error' of undefined"
    else "Cannot read property 'success' of undefined"
  }

  /** What an incoming message led to: the new state, the replies sent, the
      waiting callback invoked with its argument, if any, and the local
      implementation run with its arguments, if any. */
  datatype Handled = Handled(state: RpcState, sent: seq<Message>, invoked: Option<(nat, Json)>,
                             ran: Option<(string, seq<Json>)>)

  /** `incoming(message)` after parsing. A message with a truthy `method` is a
      request for the local implementation of that name; any other is a
      response: the callbacks waiting under its id are looked up (there being
      none throws a TypeError), the error callback gets the error when there is both an
      error and an error callback, the success callback gets the result
      otherwise, and the id stops waiting. */
  function Incoming(s: RpcState, data: Message, local: map<string, Handler>): (r: Result<Handled>)
    ensures Truthy(data.methodName) ==>
      && r.Ok? && r.value.state == s && r.value.invoked.None?
      && r.value.sent == Execute(data.id, LocalMethod(local, data.methodName), data.params)
    ensures !Truthy(data.methodName) ==> (r.Ok? <==> Waiting(s, data.id) || IsInherited(data.id))
    ensures r.Err? ==> r.error == MissingCallback(data.error)
    ensures !Truthy(data.methodName) && Waiting(s, data.id) ==>
      var k := CallbackKey(data.id).value;
      var cb := s.callbacks[k];
      && r.Ok?
      && r.value.sent == []
      && r.value.state == s.(callbacks := s.callbacks - {k})
      && r.value.invoked == Some(if Truthy(data.error) && cb.error.Some? then (cb.error.value, data.error)
                                 else (cb.success, data.result))
    ensures !Truthy(data.methodName) && !Waiting(s, data.id) && IsInherited(data.id) ==>
      r == Ok(Handled(s, [], None, None))
    ensures r.Ok? && Counted(s) ==> Counted(r.value.state)
    ensures r.Ok? && Truthy(data.methodName) && PropertyKey(data.methodName).Some? && PropertyKey(data.methodName).value in local ==>
      r.value.ran == Some((PropertyKey(data.methodName).value, ArgsOf(data.params)))
    ensures r.Ok? && r.value.ran.Some? ==>
      Truthy(data.methodName) && PropertyKey(data.methodName) == Some(r.value.ran.value.0) && r.value.ran.value.0 in local
  {
    if Truthy(data.methodName) then
      var key := PropertyKey(data.methodName);
      var ran := if key.Some? && key.value in local then Some((key.value, ArgsOf(data.params))) else None;
      Ok(Handled(s, Execute(data.id, LocalMethod(local, data.methodName), data.params), None, ran))
    else if Waiting(s, data.id) then
      var k := CallbackKey(data.id).value;
      var cb := s.callbacks[k];
      var target := if Truthy(data.error) && cb.error.Some? then (cb.error.value, data.error) else (cb.success, data.result);
      Ok(Handled(s.(callbacks := s.callbacks - {k}), [], Some(target), None))
    else if IsInherited(data.id) then Ok(Handled(s, [], None, None))
    else Err(MissingCallback(data.error))
  }

  /** A notification (a call without callbacks) of an existing implementation
      runs it with the call's arguments and sends nothing back. */
  lemma NotificationRuns(s: RpcState, name: string, params: Json, local: map<string, Handler>)
    requires name != "" && name in local
    ensures Incoming(s, Request(name, JUndefined, params), local)
      == Ok(Handled(s, [], None, Some((name, ArgsOf(params)))))
  {
  }

  /** A response is consumed: the same response a second time throws. */
  lemma ResponseConsumed(s: RpcState, data: Message, local: map<string, Handler>)
    requires !Truthy(data.methodName) && Incoming(s, data, local).Ok?
    ensures var first := Incoming(s, data, local).value;
      first.invoked.Some? ==> Incoming(first.state, data, local).Err?
    ensures var first := Incoming(s, data, local).value;
      first.invoked.None? ==> Incoming(first.state, data, local) == Ok(first)
  {
    var first := Incoming(s, data, local).value;
    if first.invoked.Some? {
      var k := CallbackKey(data.id).value;
      assert PropertyKey(data.id) == Some(Strings.Decimal(k));
      NumeralNotInherited(k);
      assert !Waiting(first.state, data.id) && !IsInherited(data.id);
    }
  }

  /** No numeral names an inherited member: a waiting id is never mistaken
      for one. */
  lemma NumeralNotInherited(n: nat)
    ensures Strings.Decimal(n) !in Values.ObjectPrototypeNames
  {
    var d := Strings.Decimal(n);
    assert Strings.IsDigit(d[0]);
    forall name | name in Values.ObjectPrototypeNames ensures !Strings.IsDigit(name[0]) {
    }
  }

  /** A request naming a member every object inherits, such as `toString`,
      finds that member instead of an implementation; applying its missing
      `method` throws, and the request is answered with that error. */
  lemma InheritedNameThrows(s: RpcState, name: string, id: Json, params: Json, local: map<string, Handler>)
    requires name in Values.ObjectPrototypeNames && name !in local && Truthy(id)
    ensures Incoming(s, Request(name, id, params), local)
      == Ok(Handled(s, [ErrorReply(id, ApplicationError, JStr(NoMethodApply), JUndefined)], None, None))
  {
    var fn := LocalMethod(local, JStr(name));
    assert fn.Some? && fn.value(ArgsOf(params)) == Script([], Throws(JStr(NoMethodApply)));
    assert Execute(id, fn, params) == [ErrorReply(id, ApplicationError, JStr(NoMethodApply), JUndefined)];
  }

  /** A response whose id is the numeral of a waiting id, as a string, reaches
      the same callbacks as the number itself. */
  lemma NumeralIdFindsCallback(s: RpcState, k: nat, reply: Message, local: map<string, Handler>)
    requires !Truthy(reply.methodName) && k in s.callbacks
    ensures Incoming(s, reply.(id := JStr(Strings.Decimal(k))), local)
      == Incoming(s, reply.(id := JNum(k)), local)
    ensures Incoming(s, reply.(id := JStr(Strings.Decimal(k))), local).value.invoked.Some?
  {
    NumeralKeys(k);
    ReplyInvokes(s, reply.(id := JStr(Strings.Decimal(k))), local, k);
    ReplyInvokes(s, reply.(id := JNum(k)), local, k);
  }

  /** The number `k` and its numeral are both the key of waiting id `k`. */
  lemma NumeralKeys(k: nat)
    ensures CallbackKey(JStr(Strings.Decimal(k))) == Some(k)
    ensures CallbackKey(JNum(k)) == Some(k)
  {
  }

  /** A call and its answer: the remote end runs the implementation of the
      called name with the call's arguments, and when that returns a value,
      the reply reaches the caller's success callback with that value, and
      the caller stops waiting; only its counter has moved on. */
  lemma CallThenResult(a: RpcState, b: RpcState, name: string, args: seq<Json>, success: nat,
                       local: map<string, Handler>, v: Json)
    requires Counted(a)
    requires name != "" && name in local && local[name](args) == Script([], Returns(v)) && v != JUndefined
    ensures var (a1, request) := CallStub(a, name, false, Plains(args) + [Func(success)]);
      && Incoming(b, request, local).Ok?
      && Incoming(b, request, local).value.sent == [ResultReply(request.id, v)]
      && Incoming(a1, ResultReply(request.id, v), local)
         == Ok(Handled(a.(counter := a.counter + 1), [], Some((success, v)), None))
  {
    var (a1, request) := CallStub(a, name, false, Plains(args) + [Func(success)]);
    var k := a.counter + 1;
    assert Funcs([success]) == [Func(success)];
    StubWithCallbacks(a, name, args, [success]);
    ArgsArrive(args);
    ReturnAnswered(b, request, local, name, v);
    ResultReaches(a, a1, k, success, v, local);
  }

  /** A request with an id whose implementation returns a defined value right
      away is answered with one result carrying that value. */
  lemma ReturnAnswered(b: RpcState, request: Message, local: map<string, Handler>, name: string, v: Json)
    requires request.methodName == JStr(name) && name != "" && name in local && Truthy(request.id)
    requires local[name](ArgsOf(request.params)) == Script([], Returns(v)) && v != JUndefined
    ensures Incoming(b, request, local) == Ok(Handled(b, [ResultReply(request.id, v)],
                                                      None, Some((name, ArgsOf(request.params)))))
  {
    assert Execute(request.id, Some(local[name]), request.params) == [ResultReply(request.id, v)];
  }

  /** The result for a waiting id with only a success callback reaches it. */
  lemma ResultReaches(a: RpcState, a1: RpcState, k: nat, success: nat, v: Json, local: map<string, Handler>)
    requires k !in a.callbacks && a1 == RpcState(k, a.callbacks[k := Callbacks(success, None)])
    ensures Incoming(a1, ResultReply(JNum(k), v), local)
        == Ok(Handled(RpcState(k, a.callbacks), [], Some((success, v)), None))
  {
    var reply := ResultReply(JNum(k), v);
    assert !Truthy(reply.methodName);
    assert CallbackKey(JNum(k)) == Some(k);
    ReplyInvokes(a1, reply, local, k);
    assert a1.callbacks - {k} == a.callbacks;
  }

  /** A failing call and its answer: the reply reaches the caller's error
      callback with the error object, or, without an error callback, the
      success callback with no result. */
  lemma CallThenError(a: RpcState, b: RpcState, name: string, args: seq<Json>, callbacks: seq<nat>,
                      local: map<string, Handler>, m: Json)
    requires Counted(a) && (|callbacks| == 1 || |callbacks| == 2)
    requires name != "" && name in local && local[name](args) == Script([], Throws(m))
    ensures var (a1, request) := CallStub(a, name, false, Plains(args) + Funcs(callbacks));
      var reply := ErrorReply(request.id, ApplicationError, m, JUndefined);
      && Incoming(b, request, local).Ok?
      && Incoming(b, request, local).value.sent == [reply]
      && Incoming(a1, reply, local)
         == Ok(Handled(a.(counter := a.counter + 1), [], Some(if |callbacks| == 2 then (callbacks[1], reply.error) else (callbacks[0], JUndefined)), None))
  {
    var (a1, request) := CallStub(a, name, false, Plains(args) + Funcs(callbacks));
    var k := a.counter + 1;
    StubWithCallbacks(a, name, args, callbacks);
    ArgsArrive(args);
    ThrowAnswered(b, request, local, name, m);
    var cb := if |callbacks| == 2 then Callbacks(callbacks[0], Some(callbacks[1])) else Callbacks(callbacks[0], None);
    ErrorReaches(a, a1, k, cb, m, local);
  }

  /** The application error for a waiting id reaches its error callback, or
      its success callback with no result when it has none. */
  lemma ErrorReaches(a: RpcState, a1: RpcState, k: nat, cb: Callbacks, m: Json, local: map<string, Handler>)
    requires k !in a.callbacks && a1 == RpcState(k, a.callbacks[k := cb])
    ensures var reply := ErrorReply(JNum(k), ApplicationError, m, JUndefined);
      Incoming(a1, reply, local)
        == Ok(Handled(RpcState(k, a.callbacks), [], Some(if cb.error.Some? then (cb.error.value, reply.error) else (cb.success, JUndefined)), None))
  {
    var reply := ErrorReply(JNum(k), ApplicationError, m, JUndefined);
    assert Truthy(reply.error) && !Truthy(reply.methodName) && reply.result == JUndefined;
    assert CallbackKey(JNum(k)) == Some(k);
    ReplyInvokes(a1, reply, local, k);
    assert a1.callbacks - {k} == a.callbacks;
  }

  /** A stub call with plain arguments and one or two trailing callbacks gets
      the next id, sends the arguments, and keeps the callbacks under the id. */
  lemma StubWithCallbacks(a: RpcState, name: string, args: seq<Json>, callbacks: seq<nat>)
    requires Counted(a) && (|callbacks| == 1 || |callbacks| == 2)
    ensures var (a1, request) := CallStub(a, name, false, Plains(args) + Funcs(callbacks));
      var k := a.counter + 1;
      && request == Request(name, JNum(k), ParamsOf(Plains(args), false))
      && a1.counter == k && k !in a.callbacks
      && a1.callbacks == a.callbacks[k := if |callbacks| == 2 then Callbacks(callbacks[0], Some(callbacks[1]))
                                             else Callbacks(callbacks[0], None)]
  {
    var all := Plains(args) + Funcs(callbacks);
    if |callbacks| == 2 {
      assert all[..|all| - 2] == Plains(args);
    } else {
      assert all[..|all| - 1] == Plains(args);
      assert |args| == 0 || !all[|all| - 2].Func?;
    }
  }

  /** A response whose id is waiting invokes that call's error callback with
      the error, when both are there, and its success callback with the
      result otherwise; the id stops waiting. */
  lemma ReplyInvokes(s: RpcState, reply: Message, local: map<string, Handler>, k: nat)
    requires !Truthy(reply.methodName) && CallbackKey(reply.id) == Some(k) && k in s.callbacks
    ensures var cb := s.callbacks[k];
      Incoming(s, reply, local)
        == Ok(Handled(s.(callbacks := s.callbacks - {k}), [],
                      Some(if Truthy(reply.error) && cb.error.Some? then (cb.error.value, reply.error) else (cb.success, reply.result)),
                      None))
  {
  }

  /** A request with an id whose implementation throws right away is answered
      with one application error carrying the thrown message. */
  lemma ThrowAnswered(b: RpcState, request: Message, local: map<string, Handler>, name: string, m: Json)
    requires request.methodName == JStr(name) && name != "" && name in local && Truthy(request.id)
    requires local[name](ArgsOf(request.params)) == Script([], Throws(m))
    ensures Incoming(b, request, local) == Ok(Handled(b, [ErrorReply(request.id, ApplicationError, m, JUndefined)],
                                                      None, Some((name, ArgsOf(request.params)))))
  {
    assert Execute(request.id, Some(local[name]), request.params) == [ErrorReply(request.id, ApplicationError, m, JUndefined)];
  }

  /** Plain arguments. */
  function Plains(vs: seq<Json>): (r: seq<Arg>)
    ensures |r| == |vs| && forall i :: 0 <= i < |vs| ==> r[i] == Plain(vs[i])
  {
    seq(|vs|, i requires 0 <= i < |vs| => Plain(vs[i]))
  }

  /** Function arguments. */
  function Funcs(fs: seq<nat>): (r: seq<Arg>)
    ensures |r| == |fs| && forall i :: 0 <= i < |fs| ==> r[i] == Func(fs[i])
  {
    seq(|fs|, i requires 0 <= i < |fs| => Func(fs[i]))
  }

  /** The remote end receives plain positional arguments as they were given. */
  lemma ArgsArrive(vs: seq<Json>)
    ensures ArgsOf(ParamsOf(Plains(vs), false)) == vs
  {
  }

  // ---------------------------------------------------------------------
  // The proxy object

  /** A member of the proxy object: a stub for a remote method, or one the
      end sets itself: `origin` (the remote origin), `destroy`, and `iframe`
      (the created frame for a host, `undefined` for a guest). */
  datatype Member = Stub(name: string, namedParams: bool) | Origin(url: string) | Destroyer | Iframe(created: bool)

  /** `init()`: a stub for every method of the remote interface (given with
      its `namedParams` setting), replacing any member of that name. */
  function InstallStubs(proxy: map<string, Member>, remote: map<string, bool>): (r: map<string, Member>)
    ensures r.Keys == proxy.Keys + remote.Keys
    ensures forall n :: n in remote ==> r[n] == Stub(n, remote[n])
    ensures forall n :: n in proxy && n !in remote ==> r[n] == proxy[n]
  {
    proxy + map n | n in remote :: Stub(n, remote[n])
  }

  /** `destroy()`: the members named by the remote interface are deleted. */
  function RemoveStubs(proxy: map<string, Member>, remote: map<string, bool>): (r: map<string, Member>)
    ensures r.Keys == proxy.Keys - remote.Keys
    ensures forall n :: n in r ==> r[n] == proxy[n]
  {
    proxy - remote.Keys
  }

  /** Destroying undoes initialising on a proxy that had no member named like
      a remote method; members of those names are lost either way. */
  lemma RemoveUndoesInstall(proxy: map<string, Member>, remote: map<string, bool>)
    ensures RemoveStubs(InstallStubs(proxy, remote), remote) == proxy - remote.Keys
    ensures proxy.Keys !! remote.Keys ==> RemoveStubs(InstallStubs(proxy, remote), remote) == proxy
  {
    var r := RemoveStubs(InstallStubs(proxy, remote), remote);
    assert r.Keys == (proxy - remote.Keys).Keys;
    if proxy.Keys !! remote.Keys {
      assert proxy - remote.Keys == proxy;
    }
  }
}
