/** The parameters a host hands to its guest through the fragment of the
    guest's url: `appendQueryParameters` on the host side (xdm.js:252-266) and
    the parser of `location.hash` on the guest side (xdm.js:62-70). */
module Query {
  import opened Wrappers
  import opened Strings
  import Values

  /** `decodeURIComponent`: `None` where it throws on a malformed escape. */
  type Decoder = string -> Option<string>

  /** `encodeURIComponent` of a parameter value. */
  type Encoder = string -> string

  /** The key of one `&`-separated piece: the text before its first `=`. */
  function KeyOf(piece: string): string {
    Split(piece, '=')[0]
  }

  /** The text handed to the decoder for one piece: the text between its first
      and second `=`; a piece without `=` has the value `undefined`, which the
      decoder receives as the string "undefined". */
  function RawValueOf(piece: string): string {
    var pair := Split(piece, '=');
    if |pair| >= 2 then pair[1] else "undefined"
  }

  /** The pieces of a fragment: its first character (the `#`) dropped, the rest
      split at every `&`. */
  function Pieces(hash: string): (ps: seq<string>)
    ensures |ps| >= 1
  {
    Split(if |hash| == 0 then "" else hash[1..], '&')
  }

  /** The smallest index of a piece with key `k`, if any. */
  function FirstWith(ps: seq<string>, k: string, from: nat): (j: Option<nat>)
    requires from <= |ps|
    ensures j.Some? ==> (from <= j.value < |ps| && KeyOf(ps[j.value]) == k
                         && forall i :: from <= i < j.value ==> KeyOf(ps[i]) != k)
    ensures j.None? ==> forall i :: from <= i < |ps| ==> KeyOf(ps[i]) != k
    decreases |ps| - from
  {
    if from == |ps| then None
    else if KeyOf(ps[from]) == k then Some(from)
    else FirstWith(ps, k, from + 1)
  }

  /** The set of keys of the pieces from index `from` on. */
  function KeySet(ps: seq<string>, from: nat): (ks: set<string>)
    requires from <= |ps|
    ensures forall k :: k in ks <==> exists i :: from <= i < |ps| && KeyOf(ps[i]) == k
    decreases |ps| - from
  {
    if from == |ps| then {} else {KeyOf(ps[from])} + KeySet(ps, from + 1)
  }

  /** Starting one piece later does not change a first occurrence past it. */
  lemma FirstWithStep(ps: seq<string>, k: string, from: nat)
    requires from < |ps|
    ensures FirstWith(ps, k, from).Some? && FirstWith(ps, k, from).value > from ==>
      FirstWith(ps, k, from + 1) == FirstWith(ps, k, from) && KeyOf(ps[from]) != k
  {
  }

  /** Every piece from index `from` on decodes. */
  predicate DecodesFrom(ps: seq<string>, from: nat, decode: Decoder) {
    forall i :: from <= i < |ps| ==> decode(RawValueOf(ps[i])).Some?
  }

  /** `data[key] = value` on the parser's object literal: the `__proto__`
      setter ignores a string value, so that key is never created. */
  function Assign(data: map<string, string>, key: string, value: string): (r: map<string, string>)
    ensures r.Keys == data.Keys + ({key} - {Values.ProtoName})
    ensures forall k :: k in r ==> r[k] == (if k == key && key != Values.ProtoName then value else data[k])
  {
    if key == Values.ProtoName then data else data[key := value]
  }

  /** The map after the loop has assigned the pieces from the last one down to
      the one at `from`. */
  function Assigned(ps: seq<string>, from: nat, decode: Decoder): map<string, string>
    requires from <= |ps| && DecodesFrom(ps, from, decode)
    decreases |ps| - from
  {
    if from == |ps| then map[]
    else Assign(Assigned(ps, from + 1, decode), KeyOf(ps[from]), decode(RawValueOf(ps[from])).value)
  }

  /** The assigned map holds the keys of those pieces, except `__proto__`. */
  lemma {:induction false} AssignedKeys(ps: seq<string>, from: nat, decode: Decoder)
    requires from <= |ps| && DecodesFrom(ps, from, decode)
    ensures Assigned(ps, from, decode).Keys == KeySet(ps, from) - {Values.ProtoName}
    decreases |ps| - from
  {
    if from < |ps| {
      AssignedKeys(ps, from + 1, decode);
      var k0 := KeyOf(ps[from]);
      var rest := Assigned(ps, from + 1, decode);
      assert Assigned(ps, from, decode).Keys == rest.Keys + ({k0} - {Values.ProtoName});
      assert KeySet(ps, from) == {k0} + KeySet(ps, from + 1);
      MinusUnion(KeySet(ps, from + 1), k0, Values.ProtoName);
    }
  }

  lemma MinusUnion(a: set<string>, x: string, p: string)
    ensures (a - {p}) + ({x} - {p}) == ({x} + a) - {p}
  {
  }

  /** Each key of the assigned map has the value of its first occurrence. */
  lemma {:induction false} AssignedFirstWins(ps: seq<string>, from: nat, decode: Decoder)
    requires from <= |ps| && DecodesFrom(ps, from, decode)
    ensures forall j :: from <= j < |ps| && FirstWith(ps, KeyOf(ps[j]), from) == Some(j) && KeyOf(ps[j]) != Values.ProtoName ==>
      KeyOf(ps[j]) in Assigned(ps, from, decode) &&
      Assigned(ps, from, decode)[KeyOf(ps[j])] == decode(RawValueOf(ps[j])).value
    decreases |ps| - from
  {
    if from < |ps| {
      var rest := Assigned(ps, from + 1, decode);
      var k0 := KeyOf(ps[from]);
      var v0 := decode(RawValueOf(ps[from])).value;
      AssignedFirstWins(ps, from + 1, decode);
      forall j | from <= j < |ps| && FirstWith(ps, KeyOf(ps[j]), from) == Some(j) && KeyOf(ps[j]) != Values.ProtoName
        ensures KeyOf(ps[j]) in Assigned(ps, from, decode)
        ensures Assigned(ps, from, decode)[KeyOf(ps[j])] == decode(RawValueOf(ps[j])).value
      {
        if j > from {
          FirstWithStep(ps, KeyOf(ps[j]), from);
          assert KeyOf(ps[j]) in rest && rest[KeyOf(ps[j])] == decode(RawValueOf(ps[j])).value;
        }
      }
    }
  }

  /** The parameter map of a fragment: the keys of its pieces other than
      `__proto__`, each with the decoded value of its first occurrence; nothing
      when a piece does not decode (the parser throws, even on a `__proto__`
      piece, whose value is decoded before the assignment ignores it). */
  function ParseHash(hash: string, decode: Decoder): (r: Option<map<string, string>>)
    ensures r.Some? <==> DecodesFrom(Pieces(hash), 0, decode)
    ensures r.Some? ==> r.value.Keys == KeySet(Pieces(hash), 0) - {Values.ProtoName}
    ensures r.Some? ==> forall j :: 0 <= j < |Pieces(hash)| && FirstWith(Pieces(hash), KeyOf(Pieces(hash)[j]), 0) == Some(j) && KeyOf(Pieces(hash)[j]) != Values.ProtoName ==>
      r.value[KeyOf(Pieces(hash)[j])] == decode(RawValueOf(Pieces(hash)[j])).value
  {
    var ps := Pieces(hash);
    if DecodesFrom(ps, 0, decode) then
      AssignedKeys(ps, 0, decode);
      AssignedFirstWins(ps, 0, decode);
      Some(Assigned(ps, 0, decode))
    else None
  }

  /** The fragment `#__proto__=x` leaves the parameter object without an own
      `__proto__`: the value is decoded, then the assignment ignores it. */
  lemma ProtoPieceIgnored(decode: Decoder)
    ensures decode("x").Some? <==> ParseHash("#__proto__=x", decode).Some?
    ensures decode("x").Some? ==> ParseHash("#__proto__=x", decode) == Some(map[])
  {
    ProtoFragment();
    ProtoPair();
    var ps := Pieces("#__proto__=x");
    assert Assigned(ps, 1, decode) == map[];
  }

  lemma ProtoFragment()
    ensures Pieces("#__proto__=x") == ["__proto__=x"]
  {
    assert "#__proto__=x"[1..] == "__proto__=x";
    SplitNoSeparator("__proto__=x", '&');
  }

  lemma ProtoPair()
    ensures KeyOf("__proto__=x") == Values.ProtoName && RawValueOf("__proto__=x") == "x"
  {
    assert "__proto__=x" == "__proto__" + ['='] + "x";
    SplitPiece("__proto__", '=', "x");
    SplitNoSeparator("x", '=');
  }

  /** The parser's loop, which runs from the last piece to the first, computes
      that map: where a key repeats, its first occurrence is assigned last and
      wins, and a piece that does not decode throws. */
  method ParseHashLoop(hash: string, decode: Decoder) returns (r: Option<map<string, string>>)
    ensures r == ParseHash(hash, decode)
  {
    var ps := Pieces(hash);
    var data: map<string, string> := map[];
    var i := |ps|;
    while i > 0
      invariant 0 <= i <= |ps|
      invariant DecodesFrom(ps, i, decode)
      invariant data == Assigned(ps, i, decode)
    {
      i := i - 1;
      var v := decode(RawValueOf(ps[i]));
      if v.None? {
        assert !DecodesFrom(ps, 0, decode);
        return None;
      }
      assert Assigned(ps, i, decode) == Assign(Assigned(ps, i + 1, decode), KeyOf(ps[i]), v.value);
      data := Assign(data, KeyOf(ps[i]), v.value);
    }
    assert DecodesFrom(ps, 0, decode);
    return Some(data);
  }

  /** A parameter list: the own enumerable properties of the `parameters`
      object, in enumeration order. */
  type Params = seq<(string, string)>

  /** The `key=encoded value` pieces joined by `&`. */
  function QueryText(ps: Params, encode: Encoder): string {
    Join(QueryPieces(ps, encode), '&')
  }

  function QueryPieces(ps: Params, encode: Encoder): (qs: seq<string>)
    ensures |qs| == |ps|
    ensures forall i :: 0 <= i < |ps| ==> qs[i] == ps[i].0 + "=" + encode(ps[i].1)
  {
    seq(|ps|, i requires 0 <= i < |ps| => ps[i].0 + "=" + encode(ps[i].1))
  }

  /** `appendQueryParameters(url, parameters)`: an absent (`undefined` or
      `null`) parameter object is an error; otherwise the pieces are appended
      after `#`, or after `&` when the url already has a fragment. */
  function AppendQueryParameters(url: string, parameters: Option<Params>, encode: Encoder): (r: Result<string>)
    ensures parameters.None? <==> r.Err?
    ensures r.Err? ==> r.error == "parameters is undefined or null"
    ensures r.Ok? ==> |r.value| > |url| && r.value[..|url|] == url
    ensures r.Ok? && '#' !in url ==> r.value[|url|] == '#' && r.value[|url| + 1..] == QueryText(parameters.value, encode)
    ensures r.Ok? && '#' in url ==> r.value[|url|] == '&' && r.value[|url| + 1..] == QueryText(parameters.value, encode)
  {
    match parameters
    case None => Err("parameters is undefined or null")
    case Some(ps) => Ok(url + [if '#' in url then '&' else '#'] + QueryText(ps, encode))
  }

  /** `location.hash` of a url: the text from its first `#` on, or empty. */
  function HashOf(url: string): (h: string)
    ensures '#' !in url ==> h == ""
  {
    if |url| == 0 then ""
    else if url[0] == '#' then url
    else HashOf(url[1..])
  }

  lemma {:induction false} HashOfPrefix(url: string, rest: string)
    requires '#' !in url
    ensures HashOf(url + ['#'] + rest) == ['#'] + rest
  {
    if |url| > 0 {
      assert (url + ['#'] + rest)[1..] == url[1..] + ['#'] + rest;
      HashOfPrefix(url[1..], rest);
    } else {
      assert url + ['#'] + rest == ['#'] + rest;
    }
  }

  /** The parameters a host appends to a url without a fragment come back out
      of the guest's parser: each key maps to the value of its first
      occurrence, provided the keys hold no `&` or `=` and the encoder's output
      holds neither and is undone by the decoder. */
  lemma AppendThenParse(url: string, ps: Params, encode: Encoder, decode: Decoder)
    requires '#' !in url
    requires |ps| >= 1
    requires forall i :: 0 <= i < |ps| ==> '&' !in ps[i].0 && '=' !in ps[i].0
    requires forall v :: '&' !in encode(v) && '=' !in encode(v) && decode(encode(v)) == Some(v)
    ensures AppendQueryParameters(url, Some(ps), encode).Ok?
    ensures Pieces(HashOf(AppendQueryParameters(url, Some(ps), encode).value)) == QueryPieces(ps, encode)
    ensures forall i :: 0 <= i < |ps| ==>
      KeyOf(QueryPieces(ps, encode)[i]) == ps[i].0 && decode(RawValueOf(QueryPieces(ps, encode)[i])) == Some(ps[i].1)
  {
    var qs := QueryPieces(ps, encode);
    var text := QueryText(ps, encode);
    var out := url + ['#'] + text;
    assert AppendQueryParameters(url, Some(ps), encode).value == out;
    HashOfPrefix(url, text);
    assert (['#'] + text)[1..] == text;
    forall i | 0 <= i < |qs| ensures '&' !in qs[i] {
      assert qs[i] == ps[i].0 + "=" + encode(ps[i].1);
    }
    SplitJoin(qs, '&');
    forall i | 0 <= i < |ps|
      ensures KeyOf(qs[i]) == ps[i].0 && decode(RawValueOf(qs[i])) == Some(ps[i].1)
    {
      var e := encode(ps[i].1);
      assert qs[i] == ps[i].0 + ['='] + e;
      SplitPiece(ps[i].0, '=', e);
      SplitNoSeparator(e, '=');
    }
  }

  /** The round trip read as a map: every appended key is present and carries
      the value of its first occurrence. */
  lemma AppendThenParseMap(url: string, ps: Params, encode: Encoder, decode: Decoder)
    requires '#' !in url
    requires |ps| >= 1
    requires forall i :: 0 <= i < |ps| ==> '&' !in ps[i].0 && '=' !in ps[i].0
    requires forall v :: '&' !in encode(v) && '=' !in encode(v) && decode(encode(v)) == Some(v)
    ensures AppendQueryParameters(url, Some(ps), encode).Ok?
    ensures ParseHash(HashOf(AppendQueryParameters(url, Some(ps), encode).value), decode).Some?
    ensures forall i :: 0 <= i < |ps| ==>
      (ps[i].0 in ParseHash(HashOf(AppendQueryParameters(url, Some(ps), encode).value), decode).value <==> ps[i].0 != Values.ProtoName)
    ensures forall i :: 0 <= i < |ps| && ps[i].0 != Values.ProtoName && (forall j :: 0 <= j < i ==> ps[j].0 != ps[i].0) ==>
      ParseHash(HashOf(AppendQueryParameters(url, Some(ps), encode).value), decode).value[ps[i].0] == ps[i].1
  {
    AppendThenParse(url, ps, encode, decode);
    var hash := HashOf(AppendQueryParameters(url, Some(ps), encode).value);
    var qs := Pieces(hash);
    assert DecodesFrom(qs, 0, decode);
    ParsedKeys(hash, decode, ps);
    ParsedValues(hash, decode, ps);
  }

  /** Pieces carrying the given keys give a map holding those keys, all but
      `__proto__`. */
  lemma ParsedKeys(hash: string, decode: Decoder, ps: Params)
    requires DecodesFrom(Pieces(hash), 0, decode)
    requires |Pieces(hash)| == |ps| && forall i :: 0 <= i < |ps| ==> KeyOf(Pieces(hash)[i]) == ps[i].0
    ensures ParseHash(hash, decode).Some?
    ensures forall i :: 0 <= i < |ps| ==> (ps[i].0 in ParseHash(hash, decode).value <==> ps[i].0 != Values.ProtoName)
  {
    var qs := Pieces(hash);
    forall i | 0 <= i < |ps| ensures ps[i].0 in KeySet(qs, 0) {
      assert KeyOf(qs[i]) == ps[i].0;
    }
  }

  /** Pieces carrying the given keys and values give each key other than
      `__proto__` the value of its first occurrence. */
  lemma ParsedValues(hash: string, decode: Decoder, ps: Params)
    requires DecodesFrom(Pieces(hash), 0, decode)
    requires |Pieces(hash)| == |ps|
    requires forall i :: 0 <= i < |ps| ==>
      KeyOf(Pieces(hash)[i]) == ps[i].0 && decode(RawValueOf(Pieces(hash)[i])) == Some(ps[i].1)
    ensures ParseHash(hash, decode).Some?
    ensures forall i :: 0 <= i < |ps| && ps[i].0 != Values.ProtoName && (forall j :: 0 <= j < i ==> ps[j].0 != ps[i].0) ==>
      ParseHash(hash, decode).value[ps[i].0] == ps[i].1
  {
    var qs := Pieces(hash);
    var r := ParseHash(hash, decode);
    forall i | 0 <= i < |ps| && ps[i].0 != Values.ProtoName && (forall j :: 0 <= j < i ==> ps[j].0 != ps[i].0)
      ensures r.value[ps[i].0] == ps[i].1
    {
      assert forall j :: 0 <= j < i ==> KeyOf(qs[j]) != ps[i].0;
      ParsedValueAt(hash, decode, ps[i].0, ps[i].1, i);
    }
  }

  /** The first piece with a key other than `__proto__` gives that key its value. */
  lemma ParsedValueAt(hash: string, decode: Decoder, k: string, v: string, i: nat)
    requires DecodesFrom(Pieces(hash), 0, decode) && i < |Pieces(hash)| && k != Values.ProtoName
    requires KeyOf(Pieces(hash)[i]) == k && decode(RawValueOf(Pieces(hash)[i])) == Some(v)
    requires forall j :: 0 <= j < i ==> KeyOf(Pieces(hash)[j]) != k
    ensures ParseHash(hash, decode).Some? && k in ParseHash(hash, decode).value
    ensures ParseHash(hash, decode).value[k] == v
  {
    FirstWithIsFirst(Pieces(hash), k, i);
  }

  /** An index with the key and no earlier one is the first occurrence. */
  lemma {:induction false} FirstWithIsFirst(ps: seq<string>, k: string, j: nat)
    requires j < |ps| && KeyOf(ps[j]) == k
    requires forall i :: 0 <= i < j ==> KeyOf(ps[i]) != k
    ensures FirstWith(ps, k, 0) == Some(j)
  {
    FirstWithFrom(ps, k, 0, j);
  }

  lemma {:induction false} FirstWithFrom(ps: seq<string>, k: string, from: nat, j: nat)
    requires from <= j < |ps| && KeyOf(ps[j]) == k
    requires forall i :: from <= i < j ==> KeyOf(ps[i]) != k
    ensures FirstWith(ps, k, from) == Some(j)
    decreases j - from
  {
    if from < j {
      FirstWithFrom(ps, k, from + 1, j);
    }
  }

  /** The characters stripped from the channel name and the remote url a guest
      reads from its fragment: `"`, `'`, `<`, `>` and `\`. */
  predicate IsUnsafe(c: char) {
    c == '"' || c == '\'' || c == '<' || c == '>' || c == '\\'
  }

  /** `s.replace(/["'<>\\]/g, '')`. */
  function Sanitize(s: string): (r: string)
    ensures forall i :: 0 <= i < |r| ==> !IsUnsafe(r[i])
    ensures |r| <= |s|
  {
    if |s| == 0 then ""
    else if IsUnsafe(s[0]) then Sanitize(s[1..])
    else [s[0]] + Sanitize(s[1..])
  }

  /** Sanitising distributes over concatenation: it acts character by character. */
  lemma {:induction false} SanitizeConcat(a: string, b: string)
    ensures Sanitize(a + b) == Sanitize(a) + Sanitize(b)
  {
    if |a| > 0 {
      assert (a + b)[1..] == a[1..] + b;
      SanitizeConcat(a[1..], b);
    } else {
      assert a + b == b;
    }
  }

  /** A string without unsafe characters is left as it is, and only such a
      string is. */
  lemma {:induction false} SanitizeFixpoint(s: string)
    ensures Sanitize(s) == s <==> forall i :: 0 <= i < |s| ==> !IsUnsafe(s[i])
  {
    if |s| > 0 {
      SanitizeFixpoint(s[1..]);
      if !IsUnsafe(s[0]) && Sanitize(s[1..]) == s[1..] {
        assert [s[0]] + s[1..] == s;
      }
      if forall i :: 0 <= i < |s| ==> !IsUnsafe(s[i]) {
        assert forall i :: 0 <= i < |s[1..]| ==> !IsUnsafe(s[1..][i]) by {
          forall i | 0 <= i < |s[1..]| ensures !IsUnsafe(s[1..][i]) {
            assert s[1..][i] == s[i + 1];
          }
        }
      }
    }
  }

  /** Sanitising twice is sanitising once. */
  lemma SanitizeIdempotent(s: string)
    ensures Sanitize(Sanitize(s)) == Sanitize(s)
  {
    SanitizeFixpoint(Sanitize(s));
  }

  /** Sanitising keeps exactly the safe characters, in order: the unsafe ones
      are counted out. */
  lemma {:induction false} SanitizeCount(s: string)
    ensures |Sanitize(s)| + |UnsafeOf(s)| == |s|
  {
    if |s| > 0 {
      SanitizeCount(s[1..]);
    }
  }

  function UnsafeOf(s: string): string {
    if |s| == 0 then ""
    else if IsUnsafe(s[0]) then [s[0]] + UnsafeOf(s[1..])
    else UnsafeOf(s[1..])
  }
}
