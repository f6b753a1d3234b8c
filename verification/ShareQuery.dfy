/** Query strings of share links: escaping, printing and parsing. */
module ShareQuery {
  import opened Bytes
  import opened Options

  /** A Go string: one byte per character. */
  predicate ByteString(s: string) {
    forall i :: 0 <= i < |s| ==> s[i] as int < 256
  }

  // --- url.QueryEscape and url.QueryUnescape ---

  predicate Unreserved(c: char) {
    'a' <= c <= 'z' || 'A' <= c <= 'Z' || '0' <= c <= '9' || c == '-' || c == '_' || c == '.' || c == '~'
  }

  function HexDigit(n: nat): (c: char)
    requires n < 16
    ensures '0' <= c <= '9' || 'A' <= c <= 'F'
  {
    if n < 10 then '0' + n as char else 'A' + (n - 10) as char
  }

  function UnHex(c: char): Option<nat> {
    if '0' <= c <= '9' then Some((c - '0') as nat)
    else if 'A' <= c <= 'F' then Some((c - 'A') as nat + 10)
    else if 'a' <= c <= 'f' then Some((c - 'a') as nat + 10)
    else None
  }

  function EscapeChar(c: char): string
    requires c as int < 256
  {
    if Unreserved(c) then [c]
    else if c == ' ' then "+"
    else ['%', HexDigit(c as int / 16), HexDigit(c as int % 16)]
  }

  function Escape(s: string): string
    requires ByteString(s)
  {
    if s == "" then "" else EscapeChar(s[0]) + Escape(s[1..])
  }

  /** None for a malformed escape. */
  function Unescape(s: string): Option<string>
    decreases |s|
  {
    if s == "" then Some("")
    else if s[0] == '%' then
      if |s| < 3 || UnHex(s[1]).None? || UnHex(s[2]).None? then None
      else Prepend((UnHex(s[1]).value * 16 + UnHex(s[2]).value) as char, Unescape(s[3..]))
    else Prepend(if s[0] == '+' then ' ' else s[0], Unescape(s[1..]))
  }

  function Prepend(c: char, r: Option<string>): Option<string> {
    if r.None? then None else Some([c] + r.value)
  }

  lemma HexRoundTrip(n: nat)
    requires n < 16
    ensures UnHex(HexDigit(n)) == Some(n)
  {
  }

  lemma UnescapeChar(c: char, rest: string)
    requires c as int < 256
    ensures Unescape(EscapeChar(c) + rest) == Prepend(c, Unescape(rest))
  {
    var e := EscapeChar(c);
    if Unreserved(c) || c == ' ' {
      assert (e + rest)[1..] == rest;
    } else {
      HexRoundTrip(c as int / 16);
      HexRoundTrip(c as int % 16);
      assert (e + rest)[3..] == rest;
    }
  }

  /** Unescaping inverts escaping on every byte string. */
  lemma {:induction false} EscapeRoundTrip(s: string)
    requires ByteString(s)
    ensures Unescape(Escape(s)) == Some(s)
    decreases |s|
  {
    if s != "" {
      EscapeRoundTrip(s[1..]);
      UnescapeChar(s[0], Escape(s[1..]));
      assert s == [s[0]] + s[1..];
    }
  }

  predicate Special(c: char) {
    c == '&' || c == '=' || c == ';'
  }

  /** Free of the characters that structure a query. */
  predicate Plain(s: string) {
    forall i :: 0 <= i < |s| ==> !Special(s[i])
  }

  lemma {:induction false} EscapePlain(s: string)
    requires ByteString(s)
    ensures Plain(Escape(s))
    decreases |s|
  {
    if s != "" {
      EscapePlain(s[1..]);
    }
  }

  lemma {:induction false} UnescapeBytes(s: string)
    requires ByteString(s)
    ensures Unescape(s).Some? ==> ByteString(Unescape(s).value)
    decreases |s|
  {
    if s != "" {
      if s[0] == '%' && |s| >= 3 {
        UnescapeBytes(s[3..]);
      } else {
        UnescapeBytes(s[1..]);
      }
    }
  }

  // --- parsing: url.ParseQuery, whose errors the caller ignores ---

  datatype Pair = Pair(key: string, value: string)
  type Query = seq<Pair>

  /** `strings.Cut`: what is before and after the first `c`; nothing is after it if there is none. */
  function Cut(s: string, c: char): (r: (string, string))
    ensures |r.0| + |r.1| <= |s|
    ensures s != "" ==> |r.1| < |s|
  {
    if s == "" then ("", "")
    else if s[0] == c then ("", s[1..])
    else
      var (a, b) := Cut(s[1..], c);
      ([s[0]] + a, b)
  }

  /** One part of a query: skipped if it has a semicolon, is empty, or is badly escaped. */
  function ParsePart(part: string): Query {
    if ';' in part || part == "" then []
    else
      var (k, v) := Cut(part, '=');
      var (key, value) := (Unescape(k), Unescape(v));
      if key.None? || value.None? then [] else [Pair(key.value, value.value)]
  }

  function ParseQuery(s: string): Query
    decreases |s|
  {
    if s == "" then []
    else
      var (part, rest) := Cut(s, '&');
      ParsePart(part) + ParseQuery(rest)
  }

  /** `Values.Get`: the first value of the key, or nothing. */
  function Get(q: Query, key: string): string {
    if q == [] then "" else if q[0].key == key then q[0].value else Get(q[1..], key)
  }

  // --- printing: addQuery ---

  function Encode(p: Pair): string
    requires ByteString(p.value)
  {
    p.key + "=" + Escape(p.value)
  }

  function AddQuery(query: string, p: Pair): string
    requires ByteString(p.value)
  {
    if query == "" then Encode(p) else query + "&" + Encode(p)
  }

  predicate Printable(ps: Query) {
    forall i :: 0 <= i < |ps| ==> ByteString(ps[i].value)
  }

  /** The query after printing the pairs one after the other. */
  function AddAll(query: string, ps: Query): string
    requires Printable(ps)
    decreases |ps|
  {
    if ps == [] then query else AddAll(AddQuery(query, ps[0]), ps[1..])
  }

  /** A key that needs no escaping. */
  predicate SimpleKey(k: string) {
    k != "" && forall i :: 0 <= i < |k| ==> 'a' <= k[i] <= 'z' || 'A' <= k[i] <= 'Z'
  }

  predicate SimpleKeys(ps: Query) {
    forall i :: 0 <= i < |ps| ==> SimpleKey(ps[i].key)
  }

  // --- parsing inverts printing ---

  predicate Lacks(s: string, c: char) {
    forall i :: 0 <= i < |s| ==> s[i] != c
  }

  lemma {:induction false} CutFound(a: string, c: char, b: string)
    requires Lacks(a, c)
    ensures Cut(a + [c] + b, c) == (a, b)
    decreases |a|
  {
    var s := a + [c] + b;
    if a == "" {
      assert s[1..] == b;
    } else {
      CutFound(a[1..], c, b);
      assert s[1..] == a[1..] + [c] + b;
      assert a == [a[0]] + a[1..];
    }
  }

  lemma {:induction false} CutMissing(a: string, c: char)
    requires Lacks(a, c)
    ensures Cut(a, c) == (a, "")
    decreases |a|
  {
    if a != "" {
      CutMissing(a[1..], c);
      assert a == [a[0]] + a[1..];
    }
  }

  lemma {:induction false} SimpleUnescape(k: string)
    requires forall i :: 0 <= i < |k| ==> 'a' <= k[i] <= 'z' || 'A' <= k[i] <= 'Z'
    ensures Unescape(k) == Some(k)
    decreases |k|
  {
    if k != "" {
      SimpleUnescape(k[1..]);
      assert k == [k[0]] + k[1..];
    }
  }

  lemma {:induction false} SimpleEscape(k: string)
    requires forall i :: 0 <= i < |k| ==> 'a' <= k[i] <= 'z' || 'A' <= k[i] <= 'Z'
    ensures ByteString(k) && Escape(k) == k
    decreases |k|
  {
    if k != "" {
      SimpleEscape(k[1..]);
      assert k == [k[0]] + k[1..];
    }
  }

  lemma LacksConcat(a: string, b: string, c: char)
    requires Lacks(a, c) && Lacks(b, c)
    ensures Lacks(a + b, c)
  {
  }

  /** A printed pair has no character that ends or voids a part. */
  lemma EncodedLacks(p: Pair, c: char)
    requires ByteString(p.value) && SimpleKey(p.key) && (c == '&' || c == ';')
    ensures Lacks(Encode(p), c)
  {
    EscapePlain(p.value);
    LacksConcat(p.key, "=", c);
    LacksConcat(p.key + "=", Escape(p.value), c);
  }

  lemma EncodedPart(p: Pair)
    requires ByteString(p.value) && SimpleKey(p.key)
    ensures Lacks(Encode(p), '&') && Encode(p) != ""
    ensures ParsePart(Encode(p)) == [p]
  {
    EncodedLacks(p, '&');
    EncodedLacks(p, ';');
    assert Cut(Encode(p), '=') == (p.key, Escape(p.value)) by {
      CutFound(p.key, '=', Escape(p.value));
    }
    EscapeRoundTrip(p.value);
    SimpleUnescape(p.key);
  }

  /** The pairs joined by ampersands. */
  function Join(ps: Query): string
    requires Printable(ps)
  {
    if ps == [] then "" else if |ps| == 1 then Encode(ps[0]) else Encode(ps[0]) + "&" + Join(ps[1..])
  }

  lemma {:induction false} ParseJoin(ps: Query)
    requires Printable(ps) && SimpleKeys(ps)
    ensures ParseQuery(Join(ps)) == ps
    decreases |ps|
  {
    if |ps| == 1 {
      EncodedPart(ps[0]);
      CutMissing(Encode(ps[0]), '&');
      assert ParseQuery("") == [];
    } else if |ps| > 1 {
      EncodedPart(ps[0]);
      CutFound(Encode(ps[0]), '&', Join(ps[1..]));
      ParseJoin(ps[1..]);
      assert Join(ps) == Encode(ps[0]) + ['&'] + Join(ps[1..]);
      assert ps == [ps[0]] + ps[1..];
    }
  }

  lemma JoinNonEmpty(ps: Query)
    requires Printable(ps) && ps != []
    ensures Join(ps) != ""
  {
  }

  lemma {:induction false} JoinSnoc(ps: Query, p: Pair)
    requires Printable(ps) && ByteString(p.value)
    ensures Printable(ps + [p]) && Join(ps + [p]) == AddQuery(Join(ps), p)
    decreases |ps|
  {
    if ps == [] {
      assert ps + [p] == [p];
    } else if |ps| == 1 {
      assert (ps + [p])[1..] == [p];
    } else {
      JoinSnoc(ps[1..], p);
      assert (ps + [p])[1..] == ps[1..] + [p];
      JoinNonEmpty(ps[1..]);
      Nest(Encode(ps[0]) + "&", Join(ps[1..]), "&", Encode(p));
    }
  }

  /** Printing pair by pair, as addQuery does, joins them. */
  lemma {:induction false} AddAllJoins(ps: Query, more: Query)
    requires Printable(ps) && Printable(more)
    ensures Printable(ps + more) && AddAll(Join(ps), more) == Join(ps + more)
    decreases |more|
  {
    if more == [] {
      assert ps + more == ps;
    } else {
      JoinSnoc(ps, more[0]);
      AddAllJoins(ps + [more[0]], more[1..]);
      Assoc(ps, [more[0]], more[1..]);
      assert [more[0]] + more[1..] == more;
    }
  }

  /** Printed pairs are parsed back one by one, in order. */
  lemma PrintedParses(ps: Query)
    requires Printable(ps) && SimpleKeys(ps)
    ensures ParseQuery(AddAll("", ps)) == ps
  {
    AddAllJoins([], ps);
    assert [] + ps == ps;
    ParseJoin(ps);
  }

  /** Printing in two goes is printing in one. */
  lemma {:induction false} AddAllConcat(query: string, a: Query, b: Query)
    requires Printable(a) && Printable(b)
    ensures Printable(a + b) && AddAll(query, a + b) == AddAll(AddAll(query, a), b)
    decreases |a|
  {
    if a == [] {
      assert a + b == b;
    } else {
      AddAllCons(query, a[0], a[1..] + b, a + b);
      AddAllCons(query, a[0], a[1..], a);
      AddAllConcat(AddQuery(query, a[0]), a[1..], b);
    }
  }

  lemma AddAllCons(query: string, p: Pair, rest: Query, ps: Query)
    requires Printable(ps) && ps == [p] + rest && ByteString(p.value)
    ensures Printable(rest) && AddAll(query, ps) == AddAll(AddQuery(query, p), rest)
  {
    assert ps[0] == p && ps[1..] == rest;
  }

  lemma {:induction false} AddAllSnoc(query: string, a: Query, p: Pair)
    requires Printable(a) && ByteString(p.value)
    ensures Printable(a + [p]) && AddAll(query, a + [p]) == AddQuery(AddAll(query, a), p)
  {
    AddAllConcat(query, a, [p]);
    AddAllCons(AddAll(query, a), p, [], [p]);
  }

  // --- what parsing and escaping do, part by part and byte by byte ---

  /** A query is parsed part by part, wherever it is cut at an ampersand. */
  lemma {:induction false} ParseParts(a: string, b: string)
    ensures ParseQuery(a + "&" + b) == ParseQuery(a) + ParseQuery(b)
    decreases |a|
  {
    var s := a + "&" + b;
    if '&' in a {
      var i := FirstIn(a, '&');
      var part, rest := a[..i], a[i + 1..];
      assert a == part + "&" + rest;
      CutFound(part, '&', rest);
      CutFound(part, '&', rest + "&" + b);
      assert s == part + "&" + (rest + "&" + b);
      ParseParts(rest, b);
      Assoc(ParsePart(part), ParseQuery(rest), ParseQuery(b));
    } else {
      CutFound(a, '&', b);
      OnePart(a);
    }
  }

  lemma FirstIn(s: string, c: char) returns (i: nat)
    requires c in s
    ensures i < |s| && s[i] == c && Lacks(s[..i], c)
  {
    i := 0;
    while s[i] != c
      invariant i < |s| && Lacks(s[..i], c) && c in s[i..]
      decreases |s| - i
    {
      i := i + 1;
    }
  }

  lemma OnePart(a: string)
    requires Lacks(a, '&')
    ensures ParseQuery(a) == ParsePart(a)
  {
    if a != "" {
      CutMissing(a, '&');
      assert ParsePart(a) + [] == ParsePart(a);
    }
  }

  /** One part: key and value are what is before and behind its first equals sign, unescaped; it counts for nothing if
      it has a semicolon or one of the two is badly escaped. */
  lemma PartParsed(k: string, v: string)
    requires Lacks(k, '&') && Lacks(v, '&') && Lacks(k, '=')
    ensures
      ParseQuery(k + "=" + v) ==
      if ';' in k || ';' in v || Unescape(k).None? || Unescape(v).None? then []
      else [Pair(Unescape(k).value, Unescape(v).value)]
  {
    var part := k + "=" + v;
    OnePart(part);
    CutFound(k, '=', v);
    assert ';' in part <==> ';' in k || ';' in v;
  }

  /** A part without an equals sign is a key with an empty value. */
  lemma BareKeyParsed(k: string)
    requires Lacks(k, '&') && Lacks(k, '=')
    ensures ParseQuery(k) == if k == "" || ';' in k || Unescape(k).None? then [] else [Pair(Unescape(k).value, "")]
  {
    OnePart(k);
    CutMissing(k, '=');
  }

  /** The value of a key is that of its first pair. */
  lemma {:induction false} GetFirst(q: Query, key: string, i: nat)
    requires i < |q| && q[i].key == key && forall j :: 0 <= j < i ==> q[j].key != key
    ensures Get(q, key) == q[i].value
    decreases i
  {
    if i > 0 {
      GetFirst(q[1..], key, i - 1);
    }
  }

  lemma {:induction false} GetNone(q: Query, key: string)
    requires forall j :: 0 <= j < |q| ==> q[j].key != key
    ensures Get(q, key) == ""
    decreases |q|
  {
    if q != [] {
      GetNone(q[1..], key);
    }
  }

  /** Escaping, byte by byte: letters, digits and four signs stay, a space becomes a plus sign, and any other byte a
      percent sign with two upper-case hexadecimal digits. */
  lemma EscapedByte(c: char)
    requires c as int < 256
    ensures
      var hex := "0123456789ABCDEF";
      Escape([c]) ==
      if 'a' <= c <= 'z' || 'A' <= c <= 'Z' || '0' <= c <= '9' || c == '-' || c == '_' || c == '.' || c == '~' then [c]
      else if c == ' ' then "+"
      else ['%', hex[c as int / 16], hex[c as int % 16]]
  {
    assert [c][1..] == "";
    assert EscapeChar(c) + "" == EscapeChar(c);
    Hex(c as int / 16);
    Hex(c as int % 16);
  }

  lemma Hex(n: nat)
    requires n < 16
    ensures HexDigit(n) == "0123456789ABCDEF"[n]
  {
  }

  lemma {:induction false} EscapeConcat(a: string, b: string)
    requires ByteString(a) && ByteString(b)
    ensures ByteString(a + b) && Escape(a + b) == Escape(a) + Escape(b)
    decreases |a|
  {
    if a == "" {
      assert a + b == b;
    } else {
      EscapeConcat(a[1..], b);
      assert (a + b)[0] == a[0] && (a + b)[1..] == a[1..] + b;
      Assoc(EscapeChar(a[0]), Escape(a[1..]), Escape(b));
    }
  }

  /** Two pairs of letters, written out. */
  lemma TwoPairsParse(p: Pair, q: Pair)
    requires SimpleKey(p.key) && SimpleKey(p.value) && SimpleKey(q.key) && SimpleKey(q.value)
    ensures ParseQuery(p.key + "=" + p.value + "&" + (q.key + "=" + q.value)) == [p, q]
  {
    SimpleEscape(p.value);
    SimpleEscape(q.value);
    AddAllCons("", p, [q], [p, q]);
    AddAllCons(Encode(p), q, [], [q]);
    PrintedParses([p, q]);
  }

  lemma {:induction false} CutBytes(s: string, c: char)
    requires ByteString(s)
    ensures ByteString(Cut(s, c).0) && ByteString(Cut(s, c).1)
    decreases |s|
  {
    if s != "" && s[0] != c {
      CutBytes(s[1..], c);
    }
  }

  lemma {:induction false} ParsedBytes(s: string)
    requires ByteString(s)
    ensures Printable(ParseQuery(s))
    decreases |s|
  {
    if s != "" {
      var (part, rest) := Cut(s, '&');
      CutBytes(s, '&');
      ParsedBytes(rest);
      CutBytes(part, '=');
      UnescapeBytes(Cut(part, '=').1);
    }
  }

  lemma {:induction false} GetBytes(q: Query, key: string)
    requires Printable(q)
    ensures ByteString(Get(q, key))
    decreases |q|
  {
    if q != [] {
      GetBytes(q[1..], key);
    }
  }
}
