/** Domain rules: exact names, dot-aligned suffixes and keywords. */
module DomainMatching {
  import opened Options
  import opened Routing

  function LowerChar(c: char): char {
    if 'A' <= c <= 'Z' then c - 'A' + 'a' else c
  }

  /** ASCII lower case. */
  function Lower(s: string): string {
    if s == "" then "" else [LowerChar(s[0])] + Lower(s[1..])
  }

  predicate IsSpace(c: char) {
    c in {' ', '\t', '\n', '\r'} || c as int == 0x0B || c as int == 0x0C
  }

  function TrimLeft(s: string): string {
    if s != "" && IsSpace(s[0]) then TrimLeft(s[1..]) else s
  }

  function TrimRight(s: string): string {
    if s != "" && IsSpace(s[|s| - 1]) then TrimRight(s[..|s| - 1]) else s
  }

  /** `strings.TrimSpace`, for ASCII white space. */
  function Trim(s: string): string {
    TrimRight(TrimLeft(s))
  }

  function Clean(s: string): string {
    Trim(Lower(s))
  }

  lemma {:induction false} LowerAt(s: string, i: nat)
    requires i < |s|
    ensures |Lower(s)| == |s|
    ensures Lower(s)[i] as int == if 65 <= s[i] as int <= 90 then s[i] as int + 32 else s[i] as int
    ensures Lower(s[..|s| - 1]) == Lower(s)[..|s| - 1]
    decreases |s|
  {
    if |s| > 1 {
      LowerAt(s[1..], if i > 0 then i - 1 else 0);
      assert s[..|s| - 1][1..] == s[1..][..|s| - 2];
    } else {
      assert s[..0] == "";
    }
  }

  lemma {:induction false} TrimLeftLower(s: string)
    ensures TrimLeft(Lower(s)) == Lower(TrimLeft(s))
    decreases |s|
  {
    if s != "" {
      TrimLeftLower(s[1..]);
      assert Lower(s)[1..] == Lower(s[1..]);
    }
  }

  lemma {:induction false} TrimRightLower(s: string)
    ensures TrimRight(Lower(s)) == Lower(TrimRight(s))
    decreases |s|
  {
    if s != "" {
      LowerAt(s, |s| - 1);
      TrimRightLower(s[..|s| - 1]);
    }
  }

  /** Trimming twice on the left is trimming once, also with a right trim in between. */
  lemma {:induction false} TrimRightKeepsLeft(s: string)
    requires TrimLeft(s) == s
    ensures TrimLeft(TrimRight(s)) == TrimRight(s)
    decreases |s|
  {
    if s != "" && IsSpace(s[|s| - 1]) {
      assert !IsSpace(s[0]) by { TrimLeftShortens(s); }
      assert s[..|s| - 1] != "" ==> s[..|s| - 1][0] == s[0];
      TrimRightKeepsLeft(s[..|s| - 1]);
    }
  }

  lemma {:induction false} TrimLeftShortens(s: string)
    ensures |TrimLeft(s)| <= |s|
    ensures s != "" && IsSpace(s[0]) ==> |TrimLeft(s)| < |s|
    ensures TrimLeft(TrimLeft(s)) == TrimLeft(s)
    decreases |s|
  {
    if s != "" {
      TrimLeftShortens(s[1..]);
    }
  }

  lemma {:induction false} TrimRightTwice(s: string)
    ensures TrimRight(TrimRight(s)) == TrimRight(s)
    decreases |s|
  {
    if s != "" {
      TrimRightTwice(s[..|s| - 1]);
    }
  }

  /** Cleaning a trimmed name is cleaning the name. */
  lemma CleanTrim(s: string)
    ensures Clean(Trim(s)) == Clean(s)
    ensures Trim(s) == "" <==> Clean(s) == ""
  {
    var t := TrimLeft(s);
    TrimLeftLower(s);
    TrimRightLower(t);
    assert Clean(s) == Lower(TrimRight(t));
    TrimLeftLower(TrimRight(t));
    TrimLeftShortens(s);
    TrimRightKeepsLeft(t);
    TrimRightLower(TrimRight(t));
    TrimRightTwice(t);
    if Trim(s) != "" {
      LowerAt(Trim(s), 0);
    }
  }

  predicate Blank(s: string) {
    forall k :: 0 <= k < |s| ==> s[k] as int == 32 || 9 <= s[k] as int <= 13
  }

  lemma {:induction false} TrimLeftCuts(s: string) returns (i: nat)
    ensures i <= |s| && TrimLeft(s) == s[i..] && Blank(s[..i]) && (i < |s| ==> !Blank([s[i]]))
    decreases |s|
  {
    i := 0;
    if s != "" {
      if IsSpace(s[0]) {
        var j := TrimLeftCuts(s[1..]);
        i := j + 1;
        assert s[i..] == s[1..][j..] && s[..i] == [s[0]] + s[1..][..j];
      } else {
        assert [s[0]][0] == s[0];
      }
    }
  }

  lemma {:induction false} TrimRightCuts(s: string) returns (j: nat)
    ensures j <= |s| && TrimRight(s) == s[..j] && Blank(s[j..]) && (j > 0 ==> !Blank([s[j - 1]]))
    decreases |s|
  {
    j := |s|;
    if s != "" {
      var n := |s| - 1;
      var t, c := s[..n], s[n];
      if IsSpace(c) {
        j := TrimRightCuts(t);
        CutOneMore(t, c, j, s);
      } else {
        assert [c][0] == c;
      }
    }
  }

  lemma CutOneMore(t: string, c: char, j: nat, s: string)
    requires s == t + [c] && IsSpace(c) && j <= |t| && Blank(t[j..])
    ensures s[..j] == t[..j] && Blank(s[j..])
  {
    forall k | 0 <= k < |s[j..]| ensures s[j..][k] as int == 32 || 9 <= s[j..][k] as int <= 13 {
      if k < |t[j..]| {
        assert s[j..][k] == t[j..][k];
      }
    }
  }

  /** A cleaned name is the name in lower case without the white space around it: what is cut off at both ends is blank,
      and what is left neither begins nor ends with a blank. */
  lemma CleanExactly(s: string) returns (i: nat, j: nat)
    ensures i <= j <= |s| && Clean(s) == Lower(s[i..j]) && Blank(s[..i]) && Blank(s[j..])
    ensures i < j ==> !Blank([s[i]]) && !Blank([s[j - 1]])
  {
    i := TrimLeftCuts(s);
    var t := s[i..];
    var k := TrimRightCuts(t);
    j := i + k;
    TrimLeftLower(s);
    TrimRightLower(t);
    assert s[i..j] == t[..k] && s[j..] == t[k..];
  }

  /** The key under which AddSuffix stores a rule; an empty key is not stored. */
  function SuffixKey(s: string): string {
    var c := Clean(s);
    if c != "" && c[0] == '.' then c[1..] else c
  }

  /** The key is the cleaned text, without one dot if it begins with one. */
  lemma KeyExactly(s: string)
    ensures
      var c := Clean(s);
      if c != "" && c[0] as int == 46 then c == [c[0]] + SuffixKey(s) else c == SuffixKey(s)
  {
  }

  predicate OccursAt(needle: string, s: string, i: int) {
    0 <= i <= |s| - |needle| && s[i..i + |needle|] == needle
  }

  /** `strings.Contains`. */
  predicate IsSubstring(needle: string, s: string) {
    exists i :: 0 <= i <= |s| && OccursAt(needle, s, i)
  }

  /** `s` is the domain itself, or what follows one of its dots. */
  predicate DotSuffix(domain: string, s: string) {
    && |s| <= |domain| && domain[|domain| - |s|..] == s
    && (s == domain || (s != "" && domain[|domain| - |s| - 1] == '.'))
  }

  /** No longer dot-aligned suffix of the domain has a rule. */
  predicate Longest(rules: map<string, Action>, domain: string, s: string) {
    DotSuffix(domain, s) && s in rules && forall t :: t in rules && DotSuffix(domain, t) ==> |t| <= |s|
  }

  /** At most one suffix can be the longest. */
  lemma LongestUnique(rules: map<string, Action>, domain: string, s: string, t: string)
    requires Longest(rules, domain, s) && Longest(rules, domain, t)
    ensures s == t
  {
  }

  datatype Keyword = Keyword(text: string, action: Action)

  class DomainMatcher {
    var exact: map<string, Action>
    var suffixes: map<string, Action>
    var keywords: seq<Keyword>

    constructor ()
      ensures exact == map[] && suffixes == map[] && keywords == []
    {
      exact, suffixes, keywords := map[], map[], [];
    }

    method AddExact(domain: string, action: Action)
      modifies this`exact
      ensures exact == if Clean(domain) == "" then old(exact) else old(exact)[Clean(domain) := action]
    {
      var d := Clean(domain);
      if d != "" {
        exact := exact[d := action];
      }
    }

    method AddSuffix(suffix: string, action: Action)
      modifies this`suffixes
      ensures suffixes == if SuffixKey(suffix) == "" then old(suffixes) else old(suffixes)[SuffixKey(suffix) := action]
    {
      var s := Clean(suffix);
      if s != "" && s[0] == '.' {
        s := s[1..];
      }
      if s != "" {
        suffixes := suffixes[s := action];
      }
    }

    method AddKeyword(keyword: string, action: Action)
      modifies this`keywords
      ensures keywords ==
              if Clean(keyword) == "" then old(keywords) else old(keywords) + [Keyword(Clean(keyword), action)]
    {
      var k := Clean(keyword);
      if k != "" {
        keywords := keywords + [Keyword(k, action)];
      }
    }

    /** The suffix loop of Match. */
    method MatchSuffix(domain: string) returns (r: Option<Action>)
      requires domain != "" && "" !in suffixes
      ensures r.None? ==> forall t :: t in suffixes ==> !DotSuffix(domain, t)
      ensures r.Some? ==> exists s :: Longest(suffixes, domain, s) && suffixes[s] == r.value
    {
      if domain in suffixes {
        assert Longest(suffixes, domain, domain);
        return Some(suffixes[domain]);
      }
      for i := 0 to |domain|
        invariant forall t :: t in suffixes && DotSuffix(domain, t) ==> |domain| - |t| > i
      {
        if domain[i] == '.' && i + 1 < |domain| {
          var sub := domain[i + 1..];
          if sub in suffixes {
            assert Longest(suffixes, domain, sub);
            return Some(suffixes[sub]);
          }
        }
      }
      return None;
    }

    /** The keyword loop of Match. */
    method MatchKeyword(domain: string) returns (r: Option<Action>)
      ensures r.None? <==> forall i :: 0 <= i < |keywords| ==> !IsSubstring(keywords[i].text, domain)
      ensures r.Some? ==>
                exists i :: FirstKeyword(keywords, domain, i) && keywords[i].action == r.value
    {
      for i := 0 to |keywords|
        invariant forall j :: 0 <= j < i ==> !IsSubstring(keywords[j].text, domain)
      {
        if IsSubstring(keywords[i].text, domain) {
          assert FirstKeyword(keywords, domain, i);
          return Some(keywords[i].action);
        }
      }
      return None;
    }

    /** Match: an exact rule, else the longest dot-aligned suffix, else the first keyword. */
    method Match(name: string) returns (r: Option<Action>)
      requires "" !in suffixes
      ensures Matches(exact, suffixes, keywords, Clean(name), r)
    {
      var domain := Clean(name);
      if domain == "" {
        return None;
      }
      if domain in exact {
        return Some(exact[domain]);
      }
      r := MatchSuffix(domain);
      if r.None? {
        r := MatchKeyword(domain);
      }
    }
  }

  predicate FirstKeyword(keywords: seq<Keyword>, domain: string, i: int) {
    && 0 <= i < |keywords| && IsSubstring(keywords[i].text, domain)
    && forall j :: 0 <= j < i ==> !IsSubstring(keywords[j].text, domain)
  }

  predicate NoSuffix(suffixes: map<string, Action>, domain: string) {
    forall t :: t in suffixes ==> !DotSuffix(domain, t)
  }

  /** `r` is the verdict of the rules on a cleaned domain. */
  ghost predicate Matches(exact: map<string, Action>, suffixes: map<string, Action>, keywords: seq<Keyword>,
                          domain: string, r: Option<Action>)
  {
    if domain == "" then r == None
    else if domain in exact then r == Some(exact[domain])
    else if !NoSuffix(suffixes, domain) then
      r.Some? && exists s :: Longest(suffixes, domain, s) && suffixes[s] == r.value
    else if r.None? then forall i :: 0 <= i < |keywords| ==> !IsSubstring(keywords[i].text, domain)
    else exists i :: FirstKeyword(keywords, domain, i) && keywords[i].action == r.value
  }
}
