/** Origin normalisation (`getLocation`, xdm.js:132-150) and URL resolution
    (`resolveUrl`, xdm.js:158-183). */
module Location {
  import opened Wrappers
  import opened Strings

  /** The three groups `getLocation` reads from a match of
      `/^((http.?:)\/\/([^:\/\s]+)(:\d+)*)/`: protocol, domain, and the
      last `:port` repetition (empty when there is none). */
  datatype UriParts = UriParts(proto: string, domain: string, port: string)

  /** The class `[^:\/\s]`. */
  predicate IsDomainChar(c: char) {
    c != ':' && c != '/' && !IsWhitespace(c)
  }

  /** A single `:\d+` group. */
  predicate IsPortGroup(p: string) {
    |p| >= 2 && p[0] == ':' && forall i :: 1 <= i < |p| ==> IsDigit(p[i])
  }

  /** The group `(:\d+)*` matched greedily at the start of `s`; a repeated group
      reports its last repetition. */
  function LastPort(s: string): (port: string)
    ensures port == "" || IsPortGroup(port)
    ensures IsPortGroup(s) ==> port == s
    decreases |s|
  {
    if |s| >= 2 && s[0] == ':' && IsDigit(s[1]) then
      var n := 1 + Span(s[1..], IsDigit);
      var rest := LastPort(s[n..]);
      if rest == "" then s[..n] else rest
    else ""
  }

  /** `\/\/([^:\/\s]+)(:\d+)*` matched at offset `k`. */
  function AfterProto(s: string, k: nat): (r: Option<(string, string)>)
    requires k <= |s|
    ensures r.Some? && IsLower(s) ==> IsLower(r.value.0)
  {
    if |s| >= k + 2 && s[k..k + 2] == "//" then
      var d := Span(s[k + 2..], IsDomainChar);
      if d == 0 then None
      else Some((s[k + 2..k + 2 + d], LastPort(s[k + 2 + d..])))
    else None
  }

  /** What a successful match guarantees of its groups. */
  predicate WellFormed(m: UriParts) {
    && (m.proto == "http:" || (|m.proto| == 6 && m.proto[..4] == "http" && IsAnyChar(m.proto[4]) && m.proto[5] == ':'))
    && |m.domain| >= 1 && (forall i :: 0 <= i < |m.domain| ==> IsDomainChar(m.domain[i]))
    && (m.port == "" || IsPortGroup(m.port))
  }

  /** `s.match(reURI)`. The optional `.?` of `http.?:` first tries to take one
      character and backtracks to taking none when the rest then fails. */
  function MatchUri(s: string): (m: Option<UriParts>)
    ensures m.Some? ==> WellFormed(m.value)
    ensures m.Some? && IsLower(s) ==> IsLower(m.value.proto) && IsLower(m.value.domain)
  {
    if |s| >= 5 && s[..4] == "http" then
      var long := if IsAnyChar(s[4]) && |s| >= 6 && s[5] == ':' then AfterProto(s, 6) else None;
      if long.Some? then Some(UriParts(s[..6], long.value.0, long.value.1))
      else if s[4] == ':' then
        match AfterProto(s, 5)
        case Some(rest) => Some(UriParts(s[..5], rest.0, rest.1))
        case None => None
      else None
    else None
  }

  /** The port a protocol implies: `:80` for `http:` and `:443` for `https:`. */
  predicate IsDefaultPort(proto: string, port: string) {
    (proto == "http:" && port == ":80") || (proto == "https:" && port == ":443")
  }

  /** The port `getLocation` keeps: none when it is the protocol's default. */
  function ShownPort(m: UriParts): string {
    if IsDefaultPort(m.proto, m.port) then "" else m.port
  }

  /** The origin string built from the matched groups. */
  function OriginOf(m: UriParts): string {
    m.proto + "//" + m.domain + ShownPort(m)
  }

  /** `getLocation(url)`: the protocol, domain and non-default port of a URL,
      lower-cased; a URL the pattern does not match is returned as given. */
  function GetLocation(url: string): (r: Result<string>)
    ensures r.Err? <==> url == "" || "file" <= url
    ensures url == "" ==> r == Err("url is undefined or empty")
    ensures url != "" && "file" <= url ==> r == Err("The file:// protocol is not supported")
    ensures r.Ok? && MatchUri(Lower(url)).None? ==> r.value == url
    ensures r.Ok? && MatchUri(Lower(url)).Some? ==>
      && "http" <= r.value
      && IsLower(r.value)
      && MatchUri(r.value).Some?
      && !IsDefaultPort(MatchUri(r.value).value.proto, MatchUri(r.value).value.port)
    ensures r.Ok? && MatchUri(Lower(url)).Some? ==>
      var m := MatchUri(Lower(url)).value;
      && MatchUri(r.value) == Some(UriParts(m.proto, m.domain, ShownPort(m)))
      && |r.value| == |m.proto| + 2 + |m.domain| + |ShownPort(m)|
  {
    if url == "" then Err("url is undefined or empty")
    else if "file" <= url then Err("The file:// protocol is not supported")
    else match MatchUri(Lower(url))
      case Some(m) =>
        LowerOrigin(Lower(url), m);
        OriginReparses(m);
        Ok(OriginOf(m))
      case None => Ok(url)
  }

  /** A port group has no letters at all. */
  lemma PortIsLower(p: string)
    requires p == "" || IsPortGroup(p)
    ensures IsLower(p)
  {
  }

  /** Every group is a slice of the lower-cased input, so the origin built from
      them has no upper-case letter. */
  lemma LowerOrigin(s: string, m: UriParts)
    requires IsLower(s) && MatchUri(s) == Some(m)
    ensures IsLower(OriginOf(m)) && "http" <= OriginOf(m)
  {
    LowerParts(m);
  }

  lemma LowerParts(m: UriParts)
    requires WellFormed(m) && IsLower(m.proto) && IsLower(m.domain)
    ensures IsLower(OriginOf(m)) && "http" <= OriginOf(m)
  {
    var p := ShownPort(m);
    PortIsLower(p);
    LowerConcat(m.domain, p);
    LowerConcat("//", m.domain + p);
    LowerConcat(m.proto, "//" + (m.domain + p));
    var o := m.proto + ("//" + (m.domain + p));
    assert OriginOf(m) == o;
    assert o[..4] == m.proto[..4];
  }

  /** `//`, a domain and a port group (or nothing) at offset `j` are read back
      as that domain and port. */
  lemma AfterProtoOf(o: string, j: nat, domain: string, p: string)
    requires j <= |o| && o[j..] == "//" + domain + p
    requires |domain| >= 1 && forall i :: 0 <= i < |domain| ==> IsDomainChar(domain[i])
    requires p == "" || IsPortGroup(p)
    ensures AfterProto(o, j) == Some((domain, p))
  {
    assert o[j..j + 2] == "//";
    assert o[j + 2..] == domain + p;
    SpanPrefix(domain, p, IsDomainChar);
    assert o[j + 2..j + 2 + |domain|] == domain;
    assert o[j + 2 + |domain|..] == p;
  }

  /** The origin built from a match matches again, with the same protocol and
      domain and the port it shows. */
  lemma OriginReparses(m: UriParts)
    requires WellFormed(m)
    ensures MatchUri(OriginOf(m)) == Some(UriParts(m.proto, m.domain, ShownPort(m)))
  {
    var o := OriginOf(m);
    var p := ShownPort(m);
    var j := |m.proto|;
    assert o == m.proto + ("//" + m.domain + p);
    assert o[j..] == "//" + m.domain + p;
    AfterProtoOf(o, j, m.domain, p);
    assert o[..j] == m.proto;
    if j == 5 {
      MatchShort(o, m.domain, p);
    } else {
      MatchLong(o, m.domain, p);
    }
  }

  /** `http:` followed by what `AfterProto` reads. */
  lemma MatchShort(o: string, domain: string, p: string)
    requires |o| >= 6 && o[..5] == "http:" && o[5] == '/'
    requires AfterProto(o, 5) == Some((domain, p))
    ensures MatchUri(o) == Some(UriParts(o[..5], domain, p))
  {
    assert o[..4] == o[..5][..4];
    assert o[4] == o[..5][4];
  }

  /** `http`, one more character and `:` followed by what `AfterProto` reads. */
  lemma MatchLong(o: string, domain: string, p: string)
    requires |o| >= 6 && o[..4] == "http" && IsAnyChar(o[4]) && o[5] == ':'
    requires AfterProto(o, 6) == Some((domain, p))
    ensures MatchUri(o) == Some(UriParts(o[..6], domain, p))
  {
  }

  /** A run of class characters followed by a non-class character or the end
      is exactly what `Span` measures. */
  lemma {:induction false} SpanPrefix(a: string, b: string, p: char -> bool)
    requires forall i :: 0 <= i < |a| ==> p(a[i])
    requires b == "" || !p(b[0])
    ensures Span(a + b, p) == |a|
  {
    if |a| > 0 {
      assert (a + b)[1..] == a[1..] + b;
      SpanPrefix(a[1..], b, p);
    } else {
      assert a + b == b;
    }
  }

  /** An origin built from a match of lower-case text is its own normal form. */
  lemma OriginIsNormal(m: UriParts)
    requires WellFormed(m) && IsLower(OriginOf(m)) && "http" <= OriginOf(m)
    ensures GetLocation(OriginOf(m)) == Ok(OriginOf(m))
  {
    var o := OriginOf(m);
    LowerFixpoint(o);
    OriginReparses(m);
    var m' := UriParts(m.proto, m.domain, ShownPort(m));
    assert ShownPort(m') == ShownPort(m);
    assert OriginOf(m') == o;
    assert o[0] == 'h';
  }

  /** `getLocation` is idempotent: normalising an origin it produced gives the
      same origin, so comparing `getLocation(event.origin)` with a stored
      `getLocation(remote)` is comparing normal forms. */
  lemma GetLocationIdempotent(url: string)
    requires GetLocation(url).Ok?
    ensures GetLocation(GetLocation(url).value) == GetLocation(url)
  {
    var lowered := Lower(url);
    if MatchUri(lowered).Some? {
      var m := MatchUri(lowered).value;
      assert GetLocation(url) == Ok(OriginOf(m));
      LowerOrigin(lowered, m);
      OriginIsNormal(m);
    }
  }

  /** A match of `/[\-\w]+\/\.\.\//` starting at `i`: a run of word
      characters and dashes followed by `/../`. The run is taken greedily;
      since `/` is not in the class a shorter run can never be followed by
      `/`, so no other match starts at `i`. */
  predicate ParentAt(s: string, i: nat) {
    && i < |s|
    && IsWordOrDash(s[i])
    && "/../" <= s[i + Span(s[i..], IsWordOrDash)..]
  }

  /** Where the match starting at `i` ends. */
  function ParentEnd(s: string, i: nat): (e: nat)
    requires ParentAt(s, i)
    ensures i + 5 <= e <= |s|
  {
    i + Span(s[i..], IsWordOrDash) + 4
  }

  predicate HasParent(s: string) {
    exists i :: 0 <= i < |s| && ParentAt(s, i)
  }

  /** The leftmost match at or after `i`, as `RegExp.prototype.test` and
      `String.prototype.replace` find it. */
  function FindParent(s: string, i: nat): (r: Option<nat>)
    requires i <= |s|
    ensures r.Some? ==> i <= r.value < |s| && ParentAt(s, r.value)
    ensures r.Some? ==> forall j :: i <= j < r.value ==> !ParentAt(s, j)
    ensures r.None? ==> forall j :: i <= j < |s| ==> !ParentAt(s, j)
    decreases |s| - i
  {
    if i == |s| then None
    else if ParentAt(s, i) then Some(i)
    else FindParent(s, i + 1)
  }

  /** The loop `while (reParent.test(url)) url = url.replace(reParent, '')`
      of `resolveUrl`: removes the leftmost `segment/../` until none is left. */
  function ReduceParents(url: string): (r: string)
    ensures !HasParent(r)
    ensures |r| <= |url|
    ensures !HasParent(url) ==> r == url
    decreases |url|
  {
    match FindParent(url, 0)
    case None => url
    case Some(i) => ReduceParents(url[..i] + url[ParentEnd(url, i)..])
  }

  /** `url.replace(/([^:])\/\//g, '$1/')`: every `//` not preceded by `:`
      becomes `/`, scanning left to right without overlap. */
  function CollapseSlashes(s: string): (r: string)
    ensures |r| <= |s|
    decreases |s|
  {
    if |s| == 0 then ""
    else if |s| >= 3 && s[0] != ':' && s[1] == '/' && s[2] == '/' then [s[0], '/'] + CollapseSlashes(s[3..])
    else [s[0]] + CollapseSlashes(s[1..])
  }

  /** The characters of `s` other than `/`, in order. */
  function NonSlashes(s: string): string {
    if |s| == 0 then "" else (if s[0] == '/' then "" else [s[0]]) + NonSlashes(s[1..])
  }

  lemma {:induction false} NonSlashesConcat(a: string, b: string)
    ensures NonSlashes(a + b) == NonSlashes(a) + NonSlashes(b)
  {
    if |a| > 0 {
      assert (a + b)[1..] == a[1..] + b;
      NonSlashesConcat(a[1..], b);
    } else {
      assert a + b == b;
    }
  }

  /** Collapsing only ever drops slashes: every other character is kept, in
      order. */
  lemma {:induction false} CollapseKeepsNonSlashes(s: string)
    ensures NonSlashes(CollapseSlashes(s)) == NonSlashes(s)
    decreases |s|
  {
    if |s| >= 3 && s[0] != ':' && s[1] == '/' && s[2] == '/' {
      CollapseKeepsNonSlashes(s[3..]);
      NonSlashesConcat([s[0], '/'], CollapseSlashes(s[3..]));
      assert s[1..][1..] == s[2..] && s[2..][1..] == s[3..];
      assert NonSlashes(s[1..]) == NonSlashes(s[2..]) == NonSlashes(s[3..]);
      assert NonSlashes([s[0], '/']) == NonSlashes([s[0]]);
    } else if |s| > 0 {
      CollapseKeepsNonSlashes(s[1..]);
      NonSlashesConcat([s[0]], CollapseSlashes(s[1..]));
    }
  }

  /** A url without `//` is left as it is. */
  lemma {:induction false} CollapseWithoutDoubleSlash(s: string)
    requires forall k :: 0 <= k < |s| - 1 ==> !(s[k] == '/' && s[k + 1] == '/')
    ensures CollapseSlashes(s) == s
    decreases |s|
  {
    if |s| > 0 {
      var t := s[1..];
      forall k | 0 <= k < |t| - 1 ensures !(t[k] == '/' && t[k + 1] == '/') {
        assert t[k] == s[k + 1] && t[k + 1] == s[k + 2];
      }
      CollapseWithoutDoubleSlash(t);
      if |s| >= 3 {
        assert !(s[1] == '/' && s[2] == '/');
      }
      assert s == [s[0]] + t;
    }
  }

  /** `url.match(/^(http||https):\/\//)`: the empty alternative also accepts a
      URL that starts with `://`. */
  predicate IsAbsolute(url: string) {
    "http://" <= url || "https://" <= url || "://" <= url
  }

  /** `resolveUrl(url)`. Making a relative URL absolute reads the page's
      location, which is given here as `absolutize`. */
  function ResolveUrl(url: string, absolutize: string -> string): (r: Result<string>)
    ensures r.Err? <==> url == ""
    ensures r.Ok? ==> !HasParent(r.value)
    ensures r.Ok? && IsAbsolute(CollapseSlashes(url)) ==> |r.value| <= |url|
    ensures r.Ok? && IsAbsolute(CollapseSlashes(url)) ==> r.value == ReduceParents(CollapseSlashes(url))
    ensures r.Ok? && !IsAbsolute(CollapseSlashes(url)) ==> r.value == ReduceParents(absolutize(CollapseSlashes(url)))
    ensures IsAbsolute(url) && CollapseSlashes(url) == url && !HasParent(url) ==> r == Ok(url)
  {
    if url == "" then Err("url is undefined or empty")
    else
      var collapsed := CollapseSlashes(url);
      var absolute := if IsAbsolute(collapsed) then collapsed else absolutize(collapsed);
      Ok(ReduceParents(absolute))
  }

  /** No `/` in `s` is followed by `.`. */
  predicate NoSlashDot(s: string) {
    forall k :: 0 <= k < |s| - 1 ==> !(s[k] == '/' && s[k + 1] == '.')
  }

  lemma NoSlashDotConcat(a: string, b: string)
    requires NoSlashDot(a) && NoSlashDot(b)
    requires |a| == 0 || |b| == 0 || a[|a| - 1] != '/' || b[0] != '.'
    ensures NoSlashDot(a + b)
  {
    forall k | 0 <= k < |a + b| - 1 ensures !((a + b)[k] == '/' && (a + b)[k + 1] == '.') {
      if k + 1 < |a| {
        assert (a + b)[k] == a[k] && (a + b)[k + 1] == a[k + 1];
      } else if k >= |a| {
        assert (a + b)[k] == b[k - |a|] && (a + b)[k + 1] == b[k + 1 - |a|];
      }
    }
  }

  predicate AllWordOrDash(s: string) {
    forall i :: 0 <= i < |s| ==> IsWordOrDash(s[i])
  }

  /** A text in which no `/` is followed by `.` has no parent segment, since
      every match holds `/../`. */
  lemma NoParentWithout(s: string)
    requires NoSlashDot(s)
    ensures !HasParent(s)
  {
    forall i | 0 <= i < |s| ensures !ParentAt(s, i) {
      var k := i + Span(s[i..], IsWordOrDash);
      if k + 1 < |s| {
        assert s[k..][0] == s[k] && s[k..][1] == s[k + 1];
      }
    }
  }

  /** No match starts inside a text without matches that ends in a character
      outside `[\-\w]`, whatever word character follows it. */
  lemma {:induction false} NoParentBefore(pre: string, rest: string, j: nat)
    requires !HasParent(pre) && |pre| > 0 && !IsWordOrDash(pre[|pre| - 1])
    requires |rest| > 0 && IsWordOrDash(rest[0])
    requires j < |pre|
    ensures !ParentAt(pre + rest, j)
  {
    var s := pre + rest;
    if IsWordOrDash(pre[j]) {
      var n := Span(pre[j..], IsWordOrDash);
      var k := j + n;
      assert pre[j..][|pre| - j - 1] == pre[|pre| - 1];
      assert k < |pre| && !IsWordOrDash(pre[k]);
      SpanPrefix(pre[j..k], pre[k..] + rest, IsWordOrDash);
      assert s[j..] == pre[j..k] + (pre[k..] + rest);
      assert Span(s[j..], IsWordOrDash) == n;
      assert !ParentAt(pre, j);
      assert !("/../" <= pre[k..]);
      if |pre| - k >= 4 {
        assert s[k..][..4] == pre[k..][..4];
        assert !("/../" <= s[k..]);
      } else {
        assert s[k..][|pre| - k] == rest[0];
        assert forall c :: c in "/../" ==> !IsWordOrDash(c);
      }
    }
  }

  /** A segment right after a character outside `[\-\w]` is cut out with the
      `/../` after it, by the first round of the loop. */
  lemma {:induction false} CutSegment(pre: string, seg: string, post: string)
    requires !HasParent(pre) && |pre| > 0 && !IsWordOrDash(pre[|pre| - 1])
    requires |seg| > 0 && forall i :: 0 <= i < |seg| ==> IsWordOrDash(seg[i])
    ensures ReduceParents(pre + seg + "/../" + post) == ReduceParents(pre + post)
  {
    var s := pre + seg + "/../" + post;
    SegmentMatch(pre, seg, post);
    ReduceAtFirst(s, |pre|);
    var e := ParentEnd(s, |pre|);
    assert s[..|pre|] == pre;
    assert s[e..] == post;
  }

  /** The first match in `pre + seg + "/../" + post` is `seg/../`. */
  lemma SegmentMatch(pre: string, seg: string, post: string)
    requires !HasParent(pre) && |pre| > 0 && !IsWordOrDash(pre[|pre| - 1])
    requires |seg| > 0 && forall i :: 0 <= i < |seg| ==> IsWordOrDash(seg[i])
    ensures ParentAt(pre + seg + "/../" + post, |pre|)
    ensures ParentEnd(pre + seg + "/../" + post, |pre|) == |pre| + |seg| + 4
    ensures forall j :: 0 <= j < |pre| ==> !ParentAt(pre + seg + "/../" + post, j)
  {
    var s := pre + seg + "/../" + post;
    var rest := seg + "/../" + post;
    assert s == pre + rest;
    forall j | 0 <= j < |pre| ensures !ParentAt(s, j) {
      NoParentBefore(pre, rest, j);
    }
    SpanPrefix(seg, "/../" + post, IsWordOrDash);
    assert s[|pre|..] == seg + ("/../" + post);
    assert s[|pre| + |seg|..] == "/../" + post;
  }

  /** One round of the loop removes the leftmost match. */
  lemma ReduceAtFirst(s: string, p: nat)
    requires ParentAt(s, p) && forall j :: 0 <= j < p ==> !ParentAt(s, j)
    ensures ReduceParents(s) == ReduceParents(s[..p] + s[ParentEnd(s, p)..])
  {
    var r := FindParent(s, 0);
    assert r.Some? && r.value == p;
  }

  /** The reduction does not know where the host ends: in an absolute url
      whose host is `host.tld`, a `/../` right after the host removes the
      host's last label with it. */
  lemma ReduceParentsEatsHostLabel(host: string, tld: string, path: string)
    requires |host| > 0 && |tld| > 0 && AllWordOrDash(host) && AllWordOrDash(tld) && AllWordOrDash(path)
    ensures ReduceParents("http://" + host + "." + tld + "/../" + path) == "http://" + host + "." + path
  {
    var scheme := "http://";
    assert NoSlashDot(scheme) by {
      assert forall k :: 0 <= k < |scheme| ==> scheme[k] != '.';
    }
    assert NoSlashDot(host) && NoSlashDot(path) && NoSlashDot(".");
    NoSlashDotConcat(scheme, host);
    NoSlashDotConcat(scheme + host, ".");
    var pre := scheme + host + ".";
    NoParentWithout(pre);
    CutSegment(pre, tld, path);
    NoSlashDotConcat(pre, path);
    NoParentWithout(pre + path);
  }
}
