/** How each end of a channel fixes its role, channel name and remote origin
    before the transport stack is built (`prepareTransportStack`,
    xdm.js:336-362), and the parameters a host passes to its guest in the
    frame's url (`createFrame`, xdm.js:280-291). */
module Setup {
  import opened Wrappers
  import opened Query
  import opened Acl
  import Location
  import Strings

  /** The settings the transport runs with. */
  datatype TransportConfig = TransportConfig(isHost: bool, channel: string, remote: string)

  /** A channel name the host makes up when none is configured. */
  function DefaultChannel(channelId: nat): string {
    "default" + Strings.Decimal(channelId)
  }

  /** Two hosts without a configured channel name on one page get different
      names: the counter moves on after each. */
  lemma DefaultChannelsDiffer(n: nat, m: nat)
    requires n != m
    ensures DefaultChannel(n) != DefaultChannel(m)
  {
    if DefaultChannel(n) == DefaultChannel(m) {
      assert DefaultChannel(n)[7..] == Strings.Decimal(n);
      assert DefaultChannel(m)[7..] == Strings.Decimal(m);
      Strings.DecimalInjective(n, m);
    }
  }

  /** `config.acl && ...`: an empty string is not a list. */
  predicate AclGiven(acl: Option<AclList>) {
    acl.Some? && acl.value != Single("")
  }

  /** `prepareTransportStack(config)` up to building the elements. The end is
      a guest when it is not configured as a host and its fragment carries
      `xdm_p`. A guest reads its channel name and the host's origin from the
      fragment, strips unsafe characters from both, and refuses a host its
      list does not admit. A host resolves the remote url and names the
      channel after a page-wide counter (`channelId`) when none is
      configured; the result carries the counter's next value. */
  function PrepareTransport(isHost: bool, channel: string, remote: string, acl: Option<AclList>,
                            query: map<string, string>, channelId: nat,
                            absolutize: string -> string, regexTest: RegexTest): (r: Result<(TransportConfig, nat)>)
    ensures r.Ok? ==> r.value.0.isHost == (isHost || "xdm_p" !in query)
    ensures r.Ok? && !r.value.0.isHost ==>
      "xdm_c" in query && "xdm_e" in query &&
      r.value.0.channel == Sanitize(query["xdm_c"]) && r.value.0.remote == Sanitize(query["xdm_e"])
      && r.value.1 == channelId
    ensures r.Ok? && !r.value.0.isHost ==>
      (forall i :: 0 <= i < |r.value.0.channel| ==> !IsUnsafe(r.value.0.channel[i]))
      && (forall i :: 0 <= i < |r.value.0.remote| ==> !IsUnsafe(r.value.0.remote[i]))
    ensures !isHost && "xdm_p" in query && ("xdm_c" !in query || "xdm_e" !in query) ==> r.Err?
    ensures r.Ok? && !r.value.0.isHost && AclGiven(acl) ==> CheckAcl(acl.value, r.value.0.remote, regexTest) == Ok(true)
    ensures (!isHost && "xdm_p" in query && "xdm_c" in query && "xdm_e" in query && AclGiven(acl)
             && CheckAcl(acl.value, Sanitize(query["xdm_e"]), regexTest) == Ok(false)) ==>
      r == Err("Access denied for " + Sanitize(query["xdm_e"]))
    ensures isHost || "xdm_p" !in query ==> (r.Err? <==> remote == "")
    ensures r.Ok? && r.value.0.isHost ==> !Location.HasParent(r.value.0.remote)
    ensures r.Ok? && r.value.0.isHost ==> Location.ResolveUrl(remote, absolutize) == Ok(r.value.0.remote)
    ensures r.Ok? && r.value.0.isHost && channel != "" ==> r.value.0.channel == channel && r.value.1 == channelId
    ensures r.Ok? && r.value.0.isHost && channel == "" ==>
      r.value.0.channel == DefaultChannel(channelId) && r.value.1 == channelId + 1
  {
    if isHost || "xdm_p" !in query then
      var resolved :- Location.ResolveUrl(remote, absolutize);
      if channel != "" then Ok((TransportConfig(true, channel, resolved), channelId))
      else Ok((TransportConfig(true, DefaultChannel(channelId), resolved), channelId + 1))
    else if "xdm_c" !in query || "xdm_e" !in query then
      Err("Cannot read property 'replace' of undefined")
    else
      var ch := Sanitize(query["xdm_c"]);
      var rem := Sanitize(query["xdm_e"]);
      if AclGiven(acl) then
        var allowed :- CheckAcl(acl.value, rem, regexTest);
        if allowed then Ok((TransportConfig(false, ch, rem), channelId))
        else Err("Access denied for " + rem)
      else Ok((TransportConfig(false, ch, rem), channelId))
  }

  /** The parameters the host appends to the frame's url: its own origin, the
      channel name and the marker that the frame is a guest. */
  function FrameParams(hostOrigin: string, channel: string): Params {
    [("xdm_e", hostOrigin), ("xdm_c", channel), ("xdm_p", "1")]
  }

  /** The frame's url. */
  function FrameSrc(remote: string, hostOrigin: string, channel: string, encode: Encoder): (r: Result<string>)
    ensures r.Ok?
  {
    AppendQueryParameters(remote, Some(FrameParams(hostOrigin, channel)), encode)
  }

  lemma FrameParamKeys(hostOrigin: string, channel: string)
    ensures forall i :: 0 <= i < 3 ==>
      '&' !in FrameParams(hostOrigin, channel)[i].0 && '=' !in FrameParams(hostOrigin, channel)[i].0
    ensures FrameParams(hostOrigin, channel)[0].0 != FrameParams(hostOrigin, channel)[1].0
  {
    var ps := FrameParams(hostOrigin, channel);
    assert ps[0].0 == "xdm_e" && ps[1].0 == "xdm_c" && ps[2].0 == "xdm_p";
    assert forall i :: 0 <= i < 3 ==> forall j :: 0 <= j < |ps[i].0| ==> ps[i].0[j] in "xdm_epc";
    assert ps[0].0[4] != ps[1].0[4];
  }

  /** The guest learns what the host told it: given a remote url without a
      fragment, a channel name and host origin without unsafe characters, and
      a decoder that undoes the encoder, the guest's parameter map carries the
      host's origin, the channel name and the guest marker. */
  lemma GuestReadsFrameParams(remote: string, hostOrigin: string, channel: string,
                              encode: Encoder, decode: Decoder)
    requires '#' !in remote
    requires forall v :: '&' !in encode(v) && '=' !in encode(v) && decode(encode(v)) == Some(v)
    ensures ParseHash(HashOf(FrameSrc(remote, hostOrigin, channel, encode).value), decode).Some?
    ensures var q := ParseHash(HashOf(FrameSrc(remote, hostOrigin, channel, encode).value), decode).value;
      "xdm_p" in q && "xdm_c" in q && "xdm_e" in q && q["xdm_e"] == hostOrigin && q["xdm_c"] == channel
  {
    var ps := FrameParams(hostOrigin, channel);
    FrameParamKeys(hostOrigin, channel);
    AppendThenParseMap(remote, ps, encode, decode);
    assert ps[0].0 == "xdm_e" && ps[1].0 == "xdm_c" && ps[2].0 == "xdm_p";
    assert forall j :: 0 <= j < 1 ==> ps[j].0 != ps[1].0;
  }

  /** Both ends agree on the channel: a guest that is not configured as a host
      and has no access list takes the host's channel name and origin as they
      were sent. */
  lemma GuestAgreesWithHost(remote: string, hostOrigin: string, channel: string,
                            encode: Encoder, decode: Decoder,
                            absolutize: string -> string, regexTest: RegexTest, channelId: nat)
    requires '#' !in remote
    requires forall v :: '&' !in encode(v) && '=' !in encode(v) && decode(encode(v)) == Some(v)
    requires forall i :: 0 <= i < |channel| ==> !IsUnsafe(channel[i])
    requires forall i :: 0 <= i < |hostOrigin| ==> !IsUnsafe(hostOrigin[i])
    ensures ParseHash(HashOf(FrameSrc(remote, hostOrigin, channel, encode).value), decode).Some?
    ensures PrepareTransport(false, "", "", None,
      ParseHash(HashOf(FrameSrc(remote, hostOrigin, channel, encode).value), decode).value,
      channelId, absolutize, regexTest) == Ok((TransportConfig(false, channel, hostOrigin), channelId))
  {
    GuestReadsFrameParams(remote, hostOrigin, channel, encode, decode);
    SanitizeFixpoint(channel);
    SanitizeFixpoint(hostOrigin);
  }
}
