# xdm.js in Dafny

xdm.js connects a page (the host) and a cross-origin iframe (the guest) over
`window.postMessage`. Each end is a stack of four elements:

- `PostMessageTransport` frames messages with a channel name and performs the ready handshake.
- `QueueBehavior` buffers calls until the channel is ready, then takes itself out of the stack.
- `RpcBehavior` speaks JSON-RPC 2.0 through stubs on a proxy object.
- A last element calls `onReady`.

This project models that core as pure functions over immutable state:

- how an end is set up: the guest's fragment parameters, sanitising, the access list, `getLocation` and `resolveUrl`;
- how the stack is chained and how an element is removed;
- each stack element's behaviour;
- the composed end `xdm.Rpc`, as events.

Browser effects become data:

- a `postMessage` call is a `Post` value;
- a `setTimeout` callback is an event of its own (`Connection.FireReady`);
- `JSON.stringify`/`JSON.parse` and `encodeURIComponent`/`decodeURIComponent` are parameters;
- the page location, used to make a relative url absolute, is a parameter;
- a regular expression that is not a wildcard pattern goes to a `regexTest` parameter;
- an exception is an `Err` carrying the message the browser would raise.

Modules, one per file:

- `Wrappers`: `Option` and `Result`.
- `Strings`: character classes, `split`/`join`, ASCII lower-casing.
- `Values`: JavaScript objects and `merge`.
- `Location`: `getLocation` and `resolveUrl`.
- `Acl`: `checkAcl`.
- `Query`: the fragment parser, `appendQueryParameters` and sanitising.
- `Setup`: `prepareTransportStack` and the frame url.
- `Stack`: `chainStack` and `removeFromStack`.
- `Queue`, `Transport` and `Rpc`: the three behaviours.
- `Connection`: one end of a channel.

## Model

| member | source | states |
|---|---|---|
| Strings.JoinSplit | xdm.js:63-66 | joining the parts of a one-character `split` gives back the string |
| Strings.SplitJoin | xdm.js:265 | splitting a `join` of separator-free parts gives back the parts |
| Strings.LowerFixpoint | xdm.js:141 | lower-casing leaves a string unchanged exactly when it has no upper-case letter |
| Query.ParseHash | xdm.js:62-70 | the fragment's parameter map: fails exactly when some piece does not decode; its keys are the pieces' keys except `__proto__`, whose setter ignores a string, and each maps to the decoded value of its first occurrence |
| Query.ParseHashLoop | xdm.js:62-70 | the backwards `while (i--)` loop computes that map; a piece that fails to decode throws |
| Query.AssignedFirstWins | xdm.js:65-68 | where a key repeats, the last assignment in the backwards loop (its first occurrence) wins |
| Query.AppendQueryParameters | xdm.js:252-266 | absent parameters are the error "parameters is undefined or null"; otherwise the url is kept as a prefix, followed by `#` (or `&` when the url has a fragment) and the `key=encoded` pieces joined by `&` |
| Query.AppendThenParse | xdm.js:62-70 | a host's appended parameters come back out of the guest's parser piece by piece: key, and value through the decoder |
| Query.AppendThenParseMap | xdm.js:62-70 | the same round trip read as a map: an appended key is present exactly when it is not `__proto__`, with the value of its first occurrence |
| Query.ProtoPieceIgnored | xdm.js:67 | the fragment `#__proto__=x` still decodes its value, and throws if it cannot, but leaves no own `__proto__` |
| Query.Sanitize | xdm.js:343-344 | the result has no `"`, `'`, `<`, `>` or `\` and is no longer than the input |
| Query.SanitizeFixpoint | xdm.js:343-344 | sanitising changes nothing exactly when the text has no unsafe character |
| Query.SanitizeIdempotent | xdm.js:343-344 | sanitising twice is sanitising once |
| Query.SanitizeCount | xdm.js:343-344 | the kept and the removed characters add up to the input |
| Query.SanitizeConcat | xdm.js:343-344 | sanitising acts character by character |
| Location.GetLocation | xdm.js:132-150 | an empty url and a `file` url are errors with the source's messages; an unmatched url is returned as given; a matched one becomes a lower-case origin that matches again into the same protocol and domain with the port shown only when it is not the protocol's default, and no longer than those parts, so any path is dropped |
| Location.GetLocationIdempotent | xdm.js:132-150 | normalising an origin `getLocation` produced gives it back |
| Location.OriginReparses | xdm.js:141-148 | the origin built from a match is matched again into the same protocol, domain and shown port |
| Location.LowerOrigin | xdm.js:141-148 | the origin built from a lower-cased url is lower-case and starts with `http` |
| Location.FindParent | xdm.js:177 | the leftmost match of the parent pattern: a match, with none before it, or none at all |
| Location.ReduceParents | xdm.js:177-180 | the loop ends with no `segment/../` left, never lengthens the url, and leaves a url without one alone |
| Location.CutSegment | xdm.js:177-180 | a `segment/../` right after a non-word character is the first match and is cut out with its segment |
| Location.ReduceParentsEatsHostLabel | xdm.js:177-180 | in `http://host.tld/../path` the reduction removes the host's last label, giving `http://host.path` |
| Location.CollapseKeepsNonSlashes | xdm.js:164 | collapsing double slashes drops only slashes; every other character is kept in order |
| Location.CollapseWithoutDoubleSlash | xdm.js:164 | a url without `//` is unchanged by collapsing |
| Location.ResolveUrl | xdm.js:158-183 | an empty url is an error; otherwise the result is the double-slash-collapsed url, made absolute through the page location when it is not, with every `segment/../` reduced; an absolute url without `//` after its scheme or `segment/../` is returned unchanged |
| Values.MergeFlat | xdm.js:193-212 | merging a flat source cannot fail; each name ends up with the source's member when the destination neither has nor inherits it or overwriting is allowed, and with the destination's member otherwise, except that `__proto__` never becomes an own name; the names are the destination's plus the source's, less the inherited ones under `noOverwrite` and less `__proto__` otherwise |
| Values.MergeNoOverwriteComplete | xdm.js:193-212 | `noOverwrite` merging of a source whose names the destination already has or inherits changes nothing |
| Values.MergeNoOverwriteIdempotent | xdm.js:193-212 | merging the same flat source twice with `noOverwrite` changes nothing the second time |
| Values.InheritedNameKept | xdm.js:197-206 | `merge({}, {toString: 1}, true)` adds nothing, because `toString` is found by `in`; without `noOverwrite` it becomes an own member |
| Values.ProtoNeverOwn | xdm.js:197-206 | a non-object source member under `__proto__` never becomes an own member of a plain destination |
| Acl.GlobToRegexCorrect | xdm.js:234 | the regular expression built from a wildcard pattern accepts exactly what wildcard matching accepts, with `.` a wildcard unless escaped |
| Acl.CheckAcl | xdm.js:225-240 | as written: true only when some pattern's test succeeds, false only when every test fails; an empty list refuses; wildcard-only lists never fail |
| Acl.CheckAclGlobs | xdm.js:225-240 | with wildcard patterns only, access is granted exactly when some pattern matches |
| Acl.OnePattern | xdm.js:226-228 | a single pattern decides by wildcard matching, under either treatment of the dot |
| Acl.EscapedSuffixPattern | xdm.js:234 | with escaped dots, `*suffix` admits exactly the domains that end with the suffix |
| Acl.StarDotSuffixMatch | xdm.js:234 | `*.` + suffix against host + one character + suffix: as written it always matches; with escaped dots it matches exactly when that character is a dot |
| Acl.SubdomainAdmitted | xdm.js:225-240 | the list `*.` + suffix admits every host below the suffix, with or without escaped dots |
| Acl.UnrelatedRefused | xdm.js:225-240 | as written the list `*.` + suffix refuses every domain that is no longer than the suffix or whose tail differs from the suffix in a character other than a dot of the suffix; with escaped dots it refuses every domain not ending in `.` + suffix |
| Acl.ForeignHostRefused | xdm.js:225-240 | the list `*.domaina.com` refuses the origin `http://foo.com` |
| Acl.DotAdmitsLookalike | xdm.js:234 | as written the list `*.` + suffix admits host + `c` + suffix for any character `c` other than a dot, which is no host below the suffix; with escaped dots it refuses it |
| Acl.LookalikeExample | xdm.js:234 | as written `*.example.com` admits `http://evilexample.com`; with escaped dots it does not |
| Setup.PrepareTransport | xdm.js:336-362 | an end is a guest exactly when it is not configured as a host and `xdm_p` is present; a guest takes the sanitised channel and remote from the fragment and is refused (with the source's message) when its list denies the host; a host's remote is what `resolveUrl` makes of the configured one, and an unnamed channel is named after the page counter, which moves on |
| Strings.DecimalInjective | xdm.js:351 | different counter values give different numerals |
| Strings.ParseNumeral | xdm.js:719 | a string is read as the number `n` exactly when it is the numeral `'' + n` writes |
| Setup.DefaultChannelsDiffer | xdm.js:351 | two hosts without a channel name get different names |
| Setup.GuestReadsFrameParams | xdm.js:284-288 | the guest's parser finds the host's origin, the channel name and the guest marker in the frame's url |
| Setup.GuestAgreesWithHost | xdm.js:336-352 | a guest without an access list ends up with the host's channel name and origin as they were sent |
| Stack.ChainStack | xdm.js:370-407 | every element but the first is linked to the previous one below and every element but the last to the next one above; each keeps its own members and gains the defaults; the last one is returned |
| Stack.ChainAnswersAll | xdm.js:375-396 | every chained element answers to all five operations |
| Stack.ChainWalks | xdm.js:370-407 | `outgoing` from the top passes every element downwards and `incoming` from the bottom every element upwards |
| Stack.RemoveFromStack | xdm.js:415-419 | the neighbours are linked to each other and the element's links are cleared, nothing else changes; a missing upper neighbour fails before any change, a missing lower one after the upper neighbour's lower link was cleared |
| Stack.RemoveFromChain | xdm.js:415-419 | after removing a middle element the walks in both directions pass every other element in order and skip the removed one |
| Queue.Dispatch | xdm.js:593-616 | a waiting or destroyed queue hands nothing down; otherwise it hands everything down in order and schedules the callbacks in order; an empty queue built to remove itself does so |
| Queue.Outgoing | xdm.js:635-643 | a message is buffered while the queue waits or is destroyed, with nothing handed down, scheduled or removed; otherwise it is passed down after what is buffered, their callbacks are scheduled in order, and the queue removes itself when built to |
| Queue.Callback | xdm.js:623-629 | readiness ends the waiting and flushes the buffer, scheduling its callbacks and removing the queue when built to; a destroyed queue hands nothing down and removes itself only when its buffer is empty |
| Queue.BufferedWhileWaiting | xdm.js:635-643 | while waiting, nothing is handed down and every message is buffered in call order |
| Queue.ReadyFlushesInOrder | xdm.js:593-629 | messages sent before readiness reach the transport all together and in order when it is ready |
| Queue.PassThroughWhenReady | xdm.js:593-643 | an empty ready queue hands every message straight down |
| Queue.NothingAfterDestroy | xdm.js:645-648 | after `destroy` nothing is handed down, whether sent or flushed |
| Transport.Init | xdm.js:529-572 | the target origin is the remote's normalised origin; a host has its frame, waits for the announcement and cannot post; a guest posts `<channel>-ready` to the target origin and schedules its ready callback |
| Transport.Receive | xdm.js:504-550 | a waiting host reacts only to its exact announcement text, and throws on it once its frame is gone; an established end hands up a message only when the sender's normalised origin is the target origin and the data is a frame of its channel |
| Transport.Outgoing | xdm.js:513-518 | posting needs a window, and without one throws for an `undefined` or, after a host's `destroy`, a `null` window; the post is the framed message sent to the given domain or to the target origin |
| Transport.HostNoWindowMessages | xdm.js:513-527 | a host posting before the announcement throws for an `undefined` window, and after `destroy` for a `null` one |
| Transport.Destroy | xdm.js:520-527 | as written: the message listener goes, the frame is removed and with it a host's window to post to, and the channel settings are kept; a host still waiting for the announcement keeps listening for it |
| Transport.DestroyIntended | xdm.js:520-527 | corrected: the same, and every listener goes |
| Transport.AnnouncementAfterDestroyThrows | xdm.js:520-537 | as written an announcement reaching a destroyed waiting host throws for the missing frame; after the corrected destroy it is ignored |
| Transport.NothingReceivedAfterDestroy | xdm.js:504-527 | after the corrected destroy every event is ignored |
| Transport.DestroyedIgnores | xdm.js:504-527 | after `destroy` as written every event is ignored except the announcement reaching a host that was still waiting |
| Transport.FrameRoundTrip | xdm.js:504-514 | every frame of a channel is read back as its message |
| Transport.ChannelIsolation | xdm.js:507 | channels whose names hold no space never read each other's frames |
| Transport.ReadyIsNotAFrame | xdm.js:507 | the announcement is never taken for a frame, and no frame for an announcement |
| Transport.HostPostsOnlyAfterReady | xdm.js:529-550 | a host cannot post before the announcement and can after it |
| Transport.Handshake | xdm.js:529-568 | the guest's single announcement makes a waiting host ready and schedules its ready callback |
| Transport.MessageArrives | xdm.js:504-518 | a message posted by one end is handed up unchanged by the other |
| Transport.ForeignOriginIgnored | xdm.js:505-507 | a message from any origin other than the target origin is ignored |
| Rpc.CallStub | xdm.js:692-735 | a call ending in callbacks gets the next id and keeps its callbacks under it; any other call is a notification without id; a `namedParams` method with one argument sends that argument itself |
| Rpc.SplitCallbacks | xdm.js:700-718 | one or two trailing functions become the success (and error) callback; the rest are the parameters |
| Rpc.ExecuteAsWritten | xdm.js:744-804 | as written: a missing implementation gets "Procedure not found." when there is an id; a notification gets no answer; with an id, every call of `success(v)` or `error(m, d)` sends its reply in order, then a returned value other than `undefined` is the result unless `success` was called, and a thrown error's message is an application error (-32099) unless `error` was called; every reply carries the request's id |
| Rpc.Execute | xdm.js:744-804 | with one-shot continuations, the same missing-implementation and notification answers, and at most one result and one error per request |
| Rpc.OneShotFirst | xdm.js:761-784 | with one-shot continuations the first call of a continuation sends the only reply of its kind |
| Rpc.ExecuteFirstAnswers | xdm.js:761-803 | with one-shot continuations and an id, the first `success(v)` sends the only result `v` and the first `error(m, d)` the only application error |
| Rpc.ExecuteEnds | xdm.js:795-803 | with one-shot continuations and an id, when `success` was not called a returned value other than `undefined` is the only result and `undefined` sends none; when `error` was not called a thrown message is the only application error |
| Rpc.ExecuteAgreesWhenCalledOnce | xdm.js:760-804 | an implementation that calls each continuation at most once is answered alike by both |
| Rpc.DoubleSuccessAnswersTwice | xdm.js:762-768 | as written, an implementation calling `success` twice answers the same id twice; one-shot continuations answer once |
| Rpc.Incoming | xdm.js:807-831 | names and ids are looked up by their property key (`String(v)`); a request runs the local implementation under its name's key, when there is one, with the call's arguments (recorded even for a notification), and leaves the state alone; a response is accepted exactly when its id's key is the numeral of a waiting id or an inherited member's name; a waiting id's error callback gets the error, or its success callback the result, and stops waiting; an inherited name changes nothing; any other id throws the TypeError the source raises |
| Rpc.LocalMethod | xdm.js:817 | `config.local[data.method]` finds the implementation under the name's key, or an inherited `Object.prototype` member, or nothing |
| Rpc.CallbackKey | xdm.js:822 | a response's id finds waiting id `n` exactly when its property key is the numeral of `n`, as stored at line 719 by `'' + (++_callbackCounter)` |
| Rpc.ResponseConsumed | xdm.js:822-829 | a response that invoked a callback throws when delivered again; one that invoked nothing changes nothing when delivered again |
| Rpc.NumeralIdFindsCallback | xdm.js:822-829 | a response with id `"1"` reaches the callbacks waiting under id 1, as the number 1 does |
| Rpc.InheritedNameThrows | xdm.js:795-802 | a request naming an `Object.prototype` member such as `toString` that the local interface lacks is answered with an application error (-32099) for the member's missing `method` |
| Rpc.NumeralNotInherited | xdm.js:719 | no numeral names an inherited member, so a waiting id is never taken for one |
| Rpc.NotificationRuns | xdm.js:786-798 | a notification of an existing implementation runs it with its arguments and sends nothing |
| Rpc.CallThenResult | xdm.js:692-831 | a call answered by a returning implementation reaches the caller's success callback with the value |
| Rpc.CallThenError | xdm.js:692-831 | a call answered by a throwing implementation reaches the error callback with the error object, or the success callback with no result when there is no error callback |
| Rpc.InstallStubs | xdm.js:833-843 | a stub for every remote method replaces any member of that name; other members are kept |
| Rpc.RemoveStubs | xdm.js:845-852 | the members named by the remote interface are deleted; others are kept |
| Rpc.RemoveUndoesInstall | xdm.js:833-852 | `destroy` undoes `init` on a proxy without members named like remote methods |
| Connection.Proxy | xdm.js:470-480 | the proxy holds `origin`, `destroy`, the stubs and `iframe`; a remote method named `origin` or `destroy` replaces the end's own member, and `iframe` replaces a stub of that name |
| Connection.Open | xdm.js:443-481 | an end opens exactly when `getLocation` accepts the remote url; the queue buffers and the proxy is built; a host has its frame and waits silently, a guest announces itself and schedules its ready callback |
| Connection.SendDown | xdm.js:635-643 | a text goes into a waiting queue, or straight out framed when the queue is gone (throwing without a window) |
| Connection.FireReady | xdm.js:623-629 | a scheduled ready callback runs `onReady` exactly once and is used up; without a queue that is all it does; nothing happens without a scheduled callback |
| Connection.Deliver | xdm.js:504-510 | a message reaches the RPC behaviour only through the transport's checks; an announcement schedules the ready callback; a callback invoked or an implementation run is the one the RPC behaviour chose for the decoded message |
| Connection.Call | xdm.js:695-732 | calling a stub encodes the request and sends it down; calling `destroy` destroys the end; calling `origin`, `iframe`, `__proto__` or a member the proxy neither has nor inherits throws; the inherited `toString`, `valueOf`, `hasOwnProperty` and the other querying members change nothing; `toLocaleString` calls a `toString` stub when there is one; `constructor` without a configuration and `__defineGetter__` or `__defineSetter__` without a function throw |
| Connection.InheritedProxyMembers | xdm.js:443-481 | a proxy without remote methods answers `toString` and `toLocaleString` without effect, and `__proto__` is not a function |
| Connection.DestroyThroughProxy | xdm.js:473-475 | the proxy's own `destroy` destroys the end |
| Connection.Close | xdm.js:473-527 | the stubs leave the proxy, the queue (if any) stops dispatching, the transport drops its frame and is closed unless it is a host still waiting for the announcement; the RPC state is kept |
| Connection.ClosedWaitingHostThrows | xdm.js:520-537 | a host destroyed before the announcement throws when the announcement arrives and ignores everything else |
| Connection.BufferedUntilReady | xdm.js:635-643 | while the queue waits nothing is posted and every text is buffered in order |
| Connection.DirectWhenUnqueued | xdm.js:513-518 | once the queue is gone every text is posted at once, framed, to the target origin |
| Connection.ReadyFlushes | xdm.js:623-629 | the ready callback posts everything buffered, in order, and removes the queue |
| Connection.HostHandshakeKeepsOrder | xdm.js:443-481 | a host's calls made before the guest announced itself are all posted, in order, when the ready callback runs; `onReady` runs once |
| Connection.GuestReadyThenDirect | xdm.js:443-481 | a guest's ready callback removes its empty queue, after which texts go straight out |
| Connection.MessageHandled | xdm.js:807-831 | a framed message from the expected origin is decoded, handled, and its replies go out in order |
| Connection.NothingArrivesAfterClose | xdm.js:504-527 | after `destroy` nothing reaches an end that was not a waiting host |
| Connection.CallRoundTrip | xdm.js:443-831 | over an established channel, with a codec that gives back the request and the reply exchanged, a call posts one request, the other end posts one reply, and the reply reaches the success callback with the returned value |

## Left out

- DOM work is not modelled: creating the iframe, merging `config.props` into it, injecting `config.html`, and adding and removing event listeners. These are effects on the page. The frame is reduced to `hasFrame` and the listener to a `Phase`.
- `JSON.stringify`, `JSON.parse`, `encodeURIComponent` and `decodeURIComponent` are parameters. Each lemma that needs them states the round-trip property it assumes.
- Regular expressions other than the wildcard subset of `checkAcl` go to the `regexTest` parameter, which receives the exact source the code builds. This covers patterns starting with `^` and patterns with other metacharacters.
- `toLowerCase` is modelled for the ASCII letters only.
- Timers are events. The ready callback runs when `Connection.FireReady` is applied. A queue entry's own callback is only recorded as scheduled, since the RPC behaviour never passes one.
- Only the synchronous acknowledgement of `PostMessageTransport` is modelled. It is the only transport in this library.
- `config.handle` (xdm.js:812-813) is left out. It replaces the JSON-RPC handling by a foreign function.
- The expansion of function shorthands in `jsonRpcConfig.local` (xdm.js:446-456) is left out. Local implementations are given directly as `Handler` values.
- `noConflict`, the module exports and `createFrame`'s iframe properties other than its url are not part of this model.
- Local implementations answer synchronously. An implementation that keeps a continuation and calls it later is not modelled.
- Values.Merge: an object-typed source member under an inherited name is merged into the shared built-in member, which the model does not hold. The destination is left unchanged there. A function assigned through `__proto__` would become the destination's prototype; the model drops it. A function destination is taken to inherit only `Object.prototype`'s members. Its `length`, `name`, `prototype`, `apply`, `bind`, `call`, `arguments` and `caller` are not modelled.
- Location.ResolveUrl: making a relative url absolute is the `absolutize` parameter. In the source (xdm.js:166-175) this prefixes the page's protocol and host, then the directory of the page's path, or nothing for a url starting with `/`. The page location is outside the library, so the model states nothing about that prefix.
- Numbers are integers, so a fractional id or method name is not modelled.
- Rpc.PropertyKey: an id or method name that is an array or an object has no property key here. In the source it is looked up as `String(v)`, for example `[1]` as `"1"`. The model treats it as matching nothing: "Procedure not found." for a request, and the TypeError for a response.
- Rpc.Incoming: callbacks are taken not to throw. In the source the waiting id is deleted only after the callback returns (xdm.js:824-829), so a throwing callback leaves its id waiting. `Rpc.ResponseConsumed` does not hold for such a callback.
- Connection.Call: `constructor` given a configuration re-runs `xdm.Rpc` on the proxy and opens a second channel, and `__defineGetter__` or `__defineSetter__` given a function defines an accessor on the proxy. The model leaves the end unchanged there, and its contract states nothing for these cases.
- Connection.Call: calling a member the application added to the proxy after construction is application code and not modelled.
- Rpc.Incoming: `jsonRpcConfig.local` is taken to be present. Without it the lookup at xdm.js:817 throws a TypeError for every request, which is not modelled.
- Rpc.Incoming: it runs the one-shot `Rpc.Execute`, not the code as written. The two agree on every implementation that calls each continuation at most once (`Rpc.ExecuteAgreesWhenCalledOnce`). Otherwise `Rpc.ExecuteAsWritten` gives the replies the code sends.
- Connection.Deliver: it hands messages to the corrected `Rpc.Incoming`, so a continuation called twice answers once here.
- Location.FindParent: the "no match at all" direction is stated as `None ==> none`. The converse follows from the first postcondition.
- Transport.Receive: the host's ready listener accepts the announcement from any origin, as the source does. That is modelled and not a finding.

## Findings

| source | as written | input that shows it | evidently intended | confidence | as-written member | corrected member |
|---|---|---|---|---|---|---|
| xdm.js:762-768 | `success = emptyFn` inside the success continuation rebinds only the local variable, so the function handed to the implementation sends a reply each time it is called | an implementation that calls `success(a)` and then `success(b)` for a request with id 1 | a continuation answers once; later calls do nothing | high, not executed | Rpc.ExecuteAsWritten, Rpc.DoubleSuccessAnswersTwice | Rpc.Execute, Rpc.ExecuteAgreesWhenCalledOnce |
| xdm.js:234 | the `.` of a wildcard pattern is left unescaped, so it matches any character | list `*.example.com` and host origin `http://evilexample.com` | `*` and `?` are the only wildcards, and `.` is literal | medium, not executed | Acl.CheckAcl, Acl.DotAdmitsLookalike, Acl.LookalikeExample | Acl.CheckAclEscaped, Acl.EscapedSuffixPattern |
| xdm.js:520-537 | `destroy` removes the message listener and the frame but not the host's `waitForReady` listener, which then reads `frame.contentWindow` of a null frame | a host destroyed before its guest announced itself, then the guest's `<channel>-ready` message | `destroy` ends all listening, so a late announcement is ignored | medium, not executed | Transport.Destroy, Transport.AnnouncementAfterDestroyThrows | Transport.DestroyIntended, Transport.NothingReceivedAfterDestroy |

`Rpc.Incoming`, and with it the whole `Connection` model, uses the corrected `Rpc.Execute`. `Connection.Close` keeps `destroy` as written, so `Connection.ClosedWaitingHostThrows` shows the late announcement throwing at the level of a whole end. `Setup.PrepareTransport` keeps the access check as written, because that is how a guest is refused today. The escaped variant is proved alongside it.
