/** Access-control-list matching (`checkAcl`, xdm.js:225-240). */
module Acl {
  import opened Wrappers
  import opened Strings

  /** The `acl` argument: a single pattern string or a list of patterns. */
  datatype AclList = Single(pattern: string) | Many(patterns: seq<string>)

  /** A single string is treated as a one-element list. */
  function Patterns(acl: AclList): seq<string> {
    match acl
    case Single(p) => [p]
    case Many(ps) => ps
  }

  /** A regular-expression engine, which the library reaches through
      `new RegExp(source).test(subject)`; it fails when `source` is not a valid
      expression. */
  type RegexTest = (string, string) -> Result<bool>

  /** `p.replace(/(\*)/g, '.$1').replace(/\?/g, '.')`: `*` becomes `.*`, `?`
      becomes `.`, every other character is kept. With `escapeDots` a `.` of
      the pattern becomes `\.` as well, the translation the wildcard syntax
      calls for. */
  function GlobToRegex(p: string, escapeDots: bool): (r: string)
    ensures |r| > 0 ==> r[0] != '*'
  {
    if |p| == 0 then ""
    else if p[0] == '*' then ".*" + GlobToRegex(p[1..], escapeDots)
    else if p[0] == '?' then "." + GlobToRegex(p[1..], escapeDots)
    else if p[0] == '.' && escapeDots then "\\." + GlobToRegex(p[1..], escapeDots)
    else [p[0]] + GlobToRegex(p[1..], escapeDots)
  }

  /** The regular-expression source built for a pattern: a pattern that starts
      with `^` is used as it is, any other is translated and anchored at both
      ends. */
  function RegexSource(p: string, escapeDots: bool): string {
    if "^" <= p then p else "^" + GlobToRegex(p, escapeDots) + "$"
  }

  /** The regular-expression metacharacters other than `.`, `*` and `?`. */
  predicate IsRegexMeta(c: char) {
    || c == '\\' || c == '^' || c == '$' || c == '+' || c == '(' || c == ')'
    || c == '[' || c == ']' || c == '{' || c == '}' || c == '|'
  }

  /** A wildcard pattern: one whose translation is built only from literal
      characters, `.`, `\.` and `.*`. */
  predicate IsGlob(p: string) {
    !("^" <= p) && forall i :: 0 <= i < |p| ==> !IsRegexMeta(p[i])
  }

  /** Whole-string matching of a regular expression made of literal characters,
      `\.`, `.` and `.*` (the body between `^` and `$` of a translated wildcard
      pattern); `.` is any character but a line terminator. */
  function RegexMatch(r: string, s: string): bool
    decreases |r| + |s|
  {
    if |r| == 0 then |s| == 0
    else if |r| >= 2 && r[0] == '.' && r[1] == '*' then
      RegexMatch(r[2..], s) || (|s| > 0 && IsAnyChar(s[0]) && RegexMatch(r, s[1..]))
    else if |r| >= 2 && r[0] == '\\' then |s| > 0 && s[0] == r[1] && RegexMatch(r[2..], s[1..])
    else if r[0] == '.' then |s| > 0 && IsAnyChar(s[0]) && RegexMatch(r[1..], s[1..])
    else |s| > 0 && s[0] == r[0] && RegexMatch(r[1..], s[1..])
  }

  /** Whether one pattern character accepts one subject character. */
  predicate CharMatches(c: char, d: char, dotIsWildcard: bool) {
    if c == '?' || (c == '.' && dotIsWildcard) then IsAnyChar(d) else d == c
  }

  /** Wildcard semantics of a pattern: `*` is any run of characters, `?` any
      one character; `dotIsWildcard` says whether `.` is any one character too. */
  function GlobMatch(p: string, s: string, dotIsWildcard: bool): bool
    decreases |p| + |s|
  {
    if |p| == 0 then |s| == 0
    else if p[0] == '*' then
      GlobMatch(p[1..], s, dotIsWildcard) || (|s| > 0 && IsAnyChar(s[0]) && GlobMatch(p, s[1..], dotIsWildcard))
    else |s| > 0 && CharMatches(p[0], s[0], dotIsWildcard) && GlobMatch(p[1..], s[1..], dotIsWildcard)
  }

  /** The translated regular expression accepts exactly what the wildcard
      semantics accepts: `.` stays a wildcard unless it is escaped. */
  lemma {:induction false} GlobToRegexCorrect(p: string, s: string, escapeDots: bool)
    requires IsGlob(p)
    ensures RegexMatch(GlobToRegex(p, escapeDots), s) == GlobMatch(p, s, !escapeDots)
    decreases |p| + |s|
  {
    if |p| > 0 {
      assert IsGlob(p[1..]) by {
        forall i | 0 <= i < |p[1..]| ensures !IsRegexMeta(p[1..][i]) {
          assert p[1..][i] == p[i + 1];
        }
      }
      assert p[0] != '\\' by { assert !IsRegexMeta(p[0]); }
      var rest := GlobToRegex(p[1..], escapeDots);
      var r := GlobToRegex(p, escapeDots);
      if p[0] == '*' {
        assert r[2..] == rest;
        GlobToRegexCorrect(p[1..], s, escapeDots);
        if |s| > 0 {
          GlobToRegexCorrect(p, s[1..], escapeDots);
        }
      } else if p[0] == '.' && escapeDots {
        assert r[2..] == rest;
        if |s| > 0 {
          GlobToRegexCorrect(p[1..], s[1..], escapeDots);
        }
      } else {
        assert r[1..] == rest;
        if |s| > 0 {
          GlobToRegexCorrect(p[1..], s[1..], escapeDots);
        }
      }
    }
  }

  /** One pattern tested against the domain. Wildcard patterns are decided by
      the translation above; any other goes to the engine. */
  function PatternTest(p: string, domain: string, regexTest: RegexTest, escapeDots: bool): Result<bool> {
    if IsGlob(p) then Ok(RegexMatch(GlobToRegex(p, escapeDots), domain))
    else regexTest(RegexSource(p, escapeDots), domain)
  }

  /** For a wildcard pattern the test never fails and follows the wildcard
      semantics, whatever the engine. */
  lemma PatternTestGlob(p: string, domain: string, regexTest: RegexTest, escapeDots: bool)
    requires IsGlob(p)
    ensures PatternTest(p, domain, regexTest, escapeDots) == Ok(GlobMatch(p, domain, !escapeDots))
  {
    GlobToRegexCorrect(p, domain, escapeDots);
  }

  /** The loop `while (i--)` over the first `i` patterns, last one first: the
      first test (from the end) that fails or matches decides. */
  function Scan(ps: seq<string>, i: nat, test: string -> Result<bool>): (r: Result<bool>)
    requires i <= |ps|
    ensures r == Ok(true) ==> exists j :: 0 <= j < i && test(ps[j]) == Ok(true)
    ensures r == Ok(false) ==> forall j :: 0 <= j < i ==> test(ps[j]) == Ok(false)
    ensures (forall j :: 0 <= j < i ==> test(ps[j]).Ok?) ==> r.Ok?
  {
    if i == 0 then Ok(false)
    else match test(ps[i - 1])
      case Err(e) => Err(e)
      case Ok(true) => Ok(true)
      case Ok(false) => Scan(ps, i - 1, test)
  }

  /** `checkAcl(acl, domain)` as written: true when some pattern matches the
      whole domain; dots of wildcard patterns are left unescaped. */
  function CheckAcl(acl: AclList, domain: string, regexTest: RegexTest): (r: Result<bool>)
    ensures r == Ok(true) ==> exists j :: 0 <= j < |Patterns(acl)| && PatternTest(Patterns(acl)[j], domain, regexTest, false) == Ok(true)
    ensures r == Ok(false) ==> forall j :: 0 <= j < |Patterns(acl)| ==> PatternTest(Patterns(acl)[j], domain, regexTest, false) == Ok(false)
    ensures (forall j :: 0 <= j < |Patterns(acl)| ==> IsGlob(Patterns(acl)[j])) ==> r.Ok?
    ensures Patterns(acl) == [] ==> r == Ok(false)
  {
    Scan(Patterns(acl), |Patterns(acl)|, p => PatternTest(p, domain, regexTest, false))
  }

  /** `checkAcl` with the dots of wildcard patterns escaped. */
  function CheckAclEscaped(acl: AclList, domain: string, regexTest: RegexTest): (r: Result<bool>)
    ensures r == Ok(true) ==> exists j :: 0 <= j < |Patterns(acl)| && PatternTest(Patterns(acl)[j], domain, regexTest, true) == Ok(true)
    ensures r == Ok(false) ==> forall j :: 0 <= j < |Patterns(acl)| ==> PatternTest(Patterns(acl)[j], domain, regexTest, true) == Ok(false)
    ensures (forall j :: 0 <= j < |Patterns(acl)| ==> IsGlob(Patterns(acl)[j])) ==> r.Ok?
    ensures Patterns(acl) == [] ==> r == Ok(false)
  {
    Scan(Patterns(acl), |Patterns(acl)|, p => PatternTest(p, domain, regexTest, true))
  }

  /** With wildcard patterns only, access is granted exactly when some pattern
      matches under the wildcard semantics, and the engine is never consulted. */
  lemma CheckAclGlobs(acl: AclList, domain: string, regexTest: RegexTest)
    requires forall j :: 0 <= j < |Patterns(acl)| ==> IsGlob(Patterns(acl)[j])
    ensures CheckAcl(acl, domain, regexTest) == Ok(exists j :: 0 <= j < |Patterns(acl)| && GlobMatch(Patterns(acl)[j], domain, true))
  {
    var ps := Patterns(acl);
    forall j | 0 <= j < |ps| ensures PatternTest(ps[j], domain, regexTest, false) == Ok(GlobMatch(ps[j], domain, true)) {
      PatternTestGlob(ps[j], domain, regexTest, false);
    }
    var r := CheckAcl(acl, domain, regexTest);
    assert r.Ok?;
    if r.value {
      var j :| 0 <= j < |ps| && PatternTest(ps[j], domain, regexTest, false) == Ok(true);
      assert GlobMatch(ps[j], domain, true);
    } else {
      assert forall j :: 0 <= j < |ps| ==> !GlobMatch(ps[j], domain, true);
    }
  }

  /** A single string behaves as the one-element list holding it. */
  lemma SingleIsList(p: string, domain: string, regexTest: RegexTest)
    ensures CheckAcl(Single(p), domain, regexTest) == CheckAcl(Many([p]), domain, regexTest)
  {
  }

  /** A pattern without `*` matches a subject of its own length, character by character. */
  lemma {:induction false} NoStarMatch(q: string, t: string, dotIsWildcard: bool)
    requires '*' !in q
    ensures GlobMatch(q, t, dotIsWildcard) <==>
      |t| == |q| && forall i :: 0 <= i < |q| ==> CharMatches(q[i], t[i], dotIsWildcard)
    decreases |q|
  {
    if |q| > 0 && |t| > 0 {
      assert '*' !in q[1..] by { assert forall i :: 0 <= i < |q[1..]| ==> q[1..][i] == q[i + 1]; }
      NoStarMatch(q[1..], t[1..], dotIsWildcard);
      if |t| == |q| && CharMatches(q[0], t[0], dotIsWildcard) && GlobMatch(q[1..], t[1..], dotIsWildcard) {
        forall i | 0 <= i < |q| ensures CharMatches(q[i], t[i], dotIsWildcard) {
          if i > 0 { assert q[1..][i - 1] == q[i] && t[1..][i - 1] == t[i]; }
        }
      }
      if |t| == |q| && forall i :: 0 <= i < |q| ==> CharMatches(q[i], t[i], dotIsWildcard) {
        forall i | 0 <= i < |q[1..]| ensures CharMatches(q[1..][i], t[1..][i], dotIsWildcard) {
          assert q[1..][i] == q[i + 1] && t[1..][i] == t[i + 1];
        }
      }
    }
  }

  /** A leading `*` followed by a pattern without `*`: the subject is any run of
      characters followed by a part that the rest matches. */
  lemma {:induction false} LeadingStarMatch(q: string, s: string, dotIsWildcard: bool)
    requires '*' !in q
    ensures GlobMatch("*" + q, s, dotIsWildcard) <==>
      |s| >= |q| && (forall i :: 0 <= i < |s| - |q| ==> IsAnyChar(s[i])) && GlobMatch(q, s[|s| - |q|..], dotIsWildcard)
    decreases |s|
  {
    var p := "*" + q;
    assert p[1..] == q;
    NoStarMatch(q, s, dotIsWildcard);
    if |s| > |q| {
      var s' := s[1..];
      LeadingStarMatch(q, s', dotIsWildcard);
      assert s'[|s'| - |q|..] == s[|s| - |q|..];
      assert forall i :: 0 <= i < |s'| - |q| ==> s'[i] == s[i + 1];
      if forall i :: 0 <= i < |s| - |q| ==> IsAnyChar(s[i]) {
        assert forall i :: 0 <= i < |s'| - |q| ==> IsAnyChar(s'[i]);
      }
      if IsAnyChar(s[0]) && forall i :: 0 <= i < |s'| - |q| ==> IsAnyChar(s'[i]) {
        forall i | 0 <= i < |s| - |q| ensures IsAnyChar(s[i]) {
          if i > 0 { assert s[i] == s'[i - 1]; }
        }
      }
    } else if |s| == |q| {
      assert s[|s| - |q|..] == s;
      if |s| > 0 {
        LeadingStarMatch(q, s[1..], dotIsWildcard);
      }
    } else if |s| > 0 {
      LeadingStarMatch(q, s[1..], dotIsWildcard);
    }
  }

  /** Without `?`, `*` and wildcard dots, a pattern character accepts only itself. */
  lemma LiteralMatch(q: string, t: string)
    requires forall i :: 0 <= i < |q| ==> q[i] != '*' && q[i] != '?'
    ensures (|t| == |q| && forall i :: 0 <= i < |q| ==> CharMatches(q[i], t[i], false)) <==> t == q
  {
    if t == q {
      forall i | 0 <= i < |q| ensures CharMatches(q[i], t[i], false) {
        assert t[i] == q[i];
      }
    }
  }

  /** With escaped dots, a pattern `*` + `suffix` (a suffix without wildcards)
      admits exactly the domains that end with that suffix, given no line
      terminator before it. */
  lemma EscapedSuffixPattern(suffix: string, domain: string)
    requires forall i :: 0 <= i < |suffix| ==> suffix[i] != '*' && suffix[i] != '?'
    ensures GlobMatch("*" + suffix, domain, false) <==>
      |domain| >= |suffix| && domain[|domain| - |suffix|..] == suffix
      && forall i :: 0 <= i < |domain| - |suffix| ==> IsAnyChar(domain[i])
  {
    assert '*' !in suffix;
    LeadingStarMatch(suffix, domain, false);
    if |domain| >= |suffix| {
      var t := domain[|domain| - |suffix|..];
      NoStarMatch(suffix, t, false);
      LiteralMatch(suffix, t);
    }
  }

  /** A list of one wildcard pattern decides by that pattern alone, under
      either treatment of the dot. */
  lemma OnePattern(p: string, domain: string, regexTest: RegexTest)
    requires IsGlob(p)
    ensures CheckAcl(Many([p]), domain, regexTest) == Ok(GlobMatch(p, domain, true))
    ensures CheckAclEscaped(Many([p]), domain, regexTest) == Ok(GlobMatch(p, domain, false))
  {
    CheckAclGlobs(Many([p]), domain, regexTest);
    assert [p][0] == p;
    PatternTestGlob(p, domain, regexTest, true);
    var f := (x: string) => PatternTest(x, domain, regexTest, true);
    assert Scan([p], 0, f) == Ok(false);
    assert f([p][0]) == Ok(GlobMatch(p, domain, false));
  }

  /** A suffix a wildcard pattern can end with: no wildcard, no
      metacharacter and no line terminator. */
  predicate PlainSuffix(s: string) {
    forall i :: 0 <= i < |s| ==> s[i] != '*' && s[i] != '?' && !IsRegexMeta(s[i]) && IsAnyChar(s[i])
  }

  /** `*.` + a plain suffix is a wildcard pattern, and `.` + the suffix has no `*`. */
  lemma SuffixPatternIsGlob(s: string)
    requires PlainSuffix(s)
    ensures IsGlob("*." + s)
    ensures '*' !in "." + s
  {
    var p := "*." + s;
    assert p[0] == '*' && "^"[0] == '^';
    forall i | 0 <= i < |p| ensures !IsRegexMeta(p[i]) {
      if i >= 2 { assert p[i] == s[i - 2]; }
    }
    var q := "." + s;
    forall i | 0 <= i < |q| ensures q[i] != '*' {
      if i >= 1 { assert q[i] == s[i - 1]; }
    }
  }

  /** `.` + `s` against `c` + `s`: only the first character is in question. */
  lemma DotSuffixTail(c: char, s: string, dotIsWildcard: bool)
    requires PlainSuffix(s)
    ensures GlobMatch("." + s, [c] + s, dotIsWildcard) <==> CharMatches('.', c, dotIsWildcard)
  {
    SuffixPatternIsGlob(s);
    var q := "." + s;
    var t := [c] + s;
    forall i | 1 <= i < |q| ensures CharMatches(q[i], t[i], dotIsWildcard) {
      assert q[i] == s[i - 1] && t[i] == s[i - 1];
    }
    NoStarMatch(q, t, dotIsWildcard);
  }

  /** `*.` + `s` against `host` + `c` + `s`: with the dot a wildcard it always
      matches; with the dot escaped it matches exactly when `c` is a dot. */
  lemma StarDotSuffixMatch(host: string, c: char, s: string)
    requires PlainSuffix(s) && IsAnyChar(c)
    requires forall i :: 0 <= i < |host| ==> IsAnyChar(host[i])
    ensures GlobMatch("*." + s, host + [c] + s, true)
    ensures GlobMatch("*." + s, host + [c] + s, false) <==> c == '.'
  {
    SuffixPatternIsGlob(s);
    var q := "." + s;
    var d := host + [c] + s;
    assert "*." + s == "*" + q;
    assert d[|d| - |q|..] == [c] + s;
    assert forall i :: 0 <= i < |d| - |q| ==> d[i] == host[i];
    DotSuffixTail(c, s, true);
    DotSuffixTail(c, s, false);
    LeadingStarMatch(q, d, true);
    LeadingStarMatch(q, d, false);
  }

  /** A host below the suffix, `host` + `.` + `s`, is admitted by the list
      `*.` + `s`, as written and with the dots escaped. */
  lemma SubdomainAdmitted(host: string, s: string, regexTest: RegexTest)
    requires PlainSuffix(s)
    requires forall i :: 0 <= i < |host| ==> IsAnyChar(host[i])
    ensures CheckAcl(Many(["*." + s]), host + "." + s, regexTest) == Ok(true)
    ensures CheckAclEscaped(Many(["*." + s]), host + "." + s, regexTest) == Ok(true)
  {
    assert host + "." + s == host + ['.'] + s;
    StarDotSuffixMatch(host, '.', s);
    OnePattern("*." + s, host + "." + s, regexTest);
  }

  /** The list `*.` + `s` refuses a domain whose tail does not fit the
      suffix: as written, when the domain is no longer than the suffix or one
      of its last `|s|` characters is not accepted by the suffix's character
      in its place; with the dots escaped, whenever the domain does not end
      with `.` + `s`. */
  lemma UnrelatedRefused(s: string, domain: string, regexTest: RegexTest)
    requires PlainSuffix(s)
    ensures (|domain| <= |s| || exists i :: 0 <= i < |s| && !CharMatches(s[i], domain[|domain| - |s| + i], true)) ==>
      CheckAcl(Many(["*." + s]), domain, regexTest) == Ok(false)
    ensures !(|domain| > |s| && domain[|domain| - |s| - 1..] == "." + s) ==>
      CheckAclEscaped(Many(["*." + s]), domain, regexTest) == Ok(false)
  {
    SuffixPatternIsGlob(s);
    var q := "." + s;
    assert "*." + s == "*" + q;
    OnePattern("*." + s, domain, regexTest);
    LeadingStarMatch(q, domain, true);
    if |domain| >= |q| && exists i :: 0 <= i < |s| && !CharMatches(s[i], domain[|domain| - |s| + i], true) {
      var i :| 0 <= i < |s| && !CharMatches(s[i], domain[|domain| - |s| + i], true);
      var t := domain[|domain| - |q|..];
      assert q[i + 1] == s[i] && t[i + 1] == domain[|domain| - |s| + i];
      NoStarMatch(q, t, true);
    }
    assert forall i :: 0 <= i < |q| ==> q[i] != '*' && q[i] != '?';
    EscapedSuffixPattern(q, domain);
  }

  /** The suffix of the library's own example list. */
  lemma DomainaSuffix()
    ensures PlainSuffix("domaina.com")
    ensures "*." + "domaina.com" == "*.domaina.com"
  {
    var s := "domaina.com";
    forall i | 0 <= i < |s|
      ensures s[i] != '*' && s[i] != '?' && !IsRegexMeta(s[i]) && IsAnyChar(s[i])
    {
      assert s[i] in "domain.c";
    }
  }

  /** The refusal of the library's own examples: `*.domaina.com` does not
      admit `http://foo.com`. */
  lemma ForeignHostRefused(regexTest: RegexTest)
    ensures CheckAcl(Many(["*.domaina.com"]), "http://foo.com", regexTest) == Ok(false)
  {
    DomainaSuffix();
    var d := "http://foo.com";
    assert d[3] == 'p';
    assert !CharMatches("domaina.com"[0], d[|d| - 11 + 0], true);
    UnrelatedRefused("domaina.com", d, regexTest);
  }

  /** As written, the unescaped `.` of `*.` + `s` stands for any character:
      `host` + `c` + `s` is admitted although it is no host below `s`; with
      the dots escaped it is refused. */
  lemma DotAdmitsLookalike(host: string, c: char, s: string, regexTest: RegexTest)
    requires PlainSuffix(s) && IsAnyChar(c) && c != '.'
    requires forall i :: 0 <= i < |host| ==> IsAnyChar(host[i])
    ensures CheckAcl(Many(["*." + s]), host + [c] + s, regexTest) == Ok(true)
    ensures CheckAclEscaped(Many(["*." + s]), host + [c] + s, regexTest) == Ok(false)
  {
    StarDotSuffixMatch(host, c, s);
    SuffixPatternIsGlob(s);
    OnePattern("*." + s, host + [c] + s, regexTest);
  }

  /** The suffix of the usage example. */
  lemma ExampleSuffix()
    ensures PlainSuffix("example.com")
  {
    var s := "example.com";
    forall i | 0 <= i < |s|
      ensures s[i] != '*' && s[i] != '?' && !IsRegexMeta(s[i]) && IsAnyChar(s[i])
    {
      assert s[i] in "exampl.co";
    }
  }

  /** The scheme and host label in front of the look-alike's suffix. */
  lemma LookalikeHost()
    ensures forall i :: 0 <= i < |"http://evi"| ==> IsAnyChar("http://evi"[i])
  {
    var host := "http://evi";
    assert forall i :: 0 <= i < |host| ==> host[i] in "htp:/evi";
  }

  /** The look-alike of the usage example: `*.example.com` admits
      `http://evilexample.com` as written and refuses it with the dots escaped. */
  lemma LookalikeExample(regexTest: RegexTest)
    ensures CheckAcl(Many(["*.example.com"]), "http://evilexample.com", regexTest) == Ok(true)
    ensures CheckAclEscaped(Many(["*.example.com"]), "http://evilexample.com", regexTest) == Ok(false)
  {
    ExampleSuffix();
    LookalikeHost();
    assert "*." + "example.com" == "*.example.com";
    assert "http://evi" + ['l'] + "example.com" == "http://evilexample.com";
    DotAdmitsLookalike("http://evi", 'l', "example.com", regexTest);
  }
}
