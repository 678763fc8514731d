/** GET query assembly: percent-encoded parameters appended to a base url that is already in wire form. */
module QueryUrl {
  // Parameter names and values are the UTF-8 octets of their string form.
  type Octet = n: int | 0 <= n < 256
  type Octets = seq<Octet>

  datatype Param = Param(name: Octets, value: Octets)

  // ---------- Percent-encoding (sections 2.1 and 2.3 of RFC 3986) ----------

  predicate Unreserved(c: char) {
    'a' <= c <= 'z' || 'A' <= c <= 'Z' || '0' <= c <= '9' || c == '_' || c == '.' || c == '-' || c == '~'
  }

  function HexDigit(n: int): (c: char)
    requires 0 <= n < 16
    ensures Unreserved(c)
  {
    if n < 10 then (n + '0' as int) as char else (n - 10 + 'A' as int) as char
  }

  // Uppercase as well as lowercase digits decode.
  function HexValue(c: char): (n: int)
    ensures -1 <= n < 16
  {
    if '0' <= c <= '9' then c as int - '0' as int
    else if 'A' <= c <= 'F' then c as int - 'A' as int + 10
    else if 'a' <= c <= 'f' then c as int - 'a' as int + 10
    else -1
  }

  function EncodeOctet(b: Octet): string {
    if b < 128 && Unreserved(b as char) then [b as char] else ['%', HexDigit(b / 16), HexDigit(b % 16)]
  }

  // quote(s, safe="")
  function Quote(s: Octets): (r: string)
    ensures forall c :: c in r ==> Unreserved(c) || c == '%'
  {
    if s == [] then "" else EncodeOctet(s[0]) + Quote(s[1..])
  }

  // Percent-decoding of printed text; other characters stand for themselves.
  function Unquote(r: string): Octets {
    if r == "" then []
    else if r[0] == '%' && |r| >= 3 && HexValue(r[1]) >= 0 && HexValue(r[2]) >= 0 then
      [16 * HexValue(r[1]) + HexValue(r[2])] + Unquote(r[3..])
    else [if r[0] as int < 256 then r[0] as int else 0] + Unquote(r[1..])
  }

  lemma HexRoundTrip(n: int)
    requires 0 <= n < 16
    ensures HexValue(HexDigit(n)) == n
  {
  }

  lemma {:induction false} QuoteRoundTrip(s: Octets)
    ensures Unquote(Quote(s)) == s
  {
    if s != [] {
      QuoteRoundTrip(s[1..]);
      var b, rest := s[0], Quote(s[1..]);
      var r := EncodeOctet(b) + rest;
      if b < 128 && Unreserved(b as char) {
        assert r[0] == b as char && r[1..] == rest;
      } else {
        HexRoundTrip(b / 16);
        HexRoundTrip(b % 16);
        assert r[0] == '%' && r[1] == HexDigit(b / 16) && r[2] == HexDigit(b % 16) && r[3..] == rest;
      }
    }
  }

  /** Any other octet is sent as a percent sign and two uppercase hexadecimal digits. */
  lemma ReservedIsHex(b: Octet)
    requires b >= 128 || !Unreserved(b as char)
    ensures Quote([b]) == ['%', "0123456789ABCDEF"[b / 16], "0123456789ABCDEF"[b % 16]]
  {
    assert [b][1..] == [];
    forall n | 0 <= n < 16 ensures HexDigit(n) == "0123456789ABCDEF"[n] {}
  }

  /** A plain value is sent as it is. */
  lemma {:induction false} PlainStaysPlain(s: Octets)
    requires forall i :: 0 <= i < |s| ==> s[i] < 128 && Unreserved(s[i] as char)
    ensures |Quote(s)| == |s| && forall i :: 0 <= i < |s| ==> Quote(s)[i] as int == s[i]
  {
    if s != [] {
      PlainStaysPlain(s[1..]);
      assert Quote(s)[1..] == Quote(s[1..]);
    }
  }

  // ---------- The query ----------

  function PrintParam(p: Param): string {
    Quote(p.name) + "=" + Quote(p.value)
  }

  // "&".join(...)
  function PrintQuery(params: seq<Param>): string
    requires params != []
  {
    if |params| == 1 then PrintParam(params[0]) else PrintParam(params[0]) + "&" + PrintQuery(params[1..])
  }

  function BuildGetUrl(url: string, params: seq<Param>): string {
    if params == [] then url else url + (if '?' in url then "&" else "?") + PrintQuery(params)
  }

  // ---------- Reading it back ----------

  // s.split(sep): always at least one part.
  function Split(s: string, sep: char): (parts: seq<string>)
    ensures parts != []
  {
    if s == "" then [""]
    else if s[0] == sep then [""] + Split(s[1..], sep)
    else
      var rest := Split(s[1..], sep);
      [[s[0]] + rest[0]] + rest[1..]
  }

  function ParseParam(s: string): Param {
    var parts := Split(s, '=');
    Param(Unquote(parts[0]), if |parts| > 1 then Unquote(parts[1]) else [])
  }

  function ParseParams(parts: seq<string>): seq<Param> {
    if parts == [] then [] else [ParseParam(parts[0])] + ParseParams(parts[1..])
  }

  function ParseQuery(s: string): seq<Param> {
    ParseParams(Split(s, '&'))
  }

  lemma {:induction false} SplitAtFirst(a: string, sep: char, b: string)
    requires sep !in a
    ensures Split(a + [sep] + b, sep) == [a] + Split(b, sep)
  {
    var s := a + [sep] + b;
    if a == "" {
      assert s[0] == sep && s[1..] == b;
    } else {
      assert s[0] == a[0] && s[1..] == a[1..] + [sep] + b;
      assert a[0] in a;
      SplitAtFirst(a[1..], sep, b);
      assert [a[0]] + a[1..] == a;
    }
  }

  lemma {:induction false} SplitWhole(a: string, sep: char)
    requires sep !in a
    ensures Split(a, sep) == [a]
  {
    if a != "" {
      assert a[0] in a;
      SplitWhole(a[1..], sep);
      assert [a[0]] + a[1..] == a;
    }
  }

  lemma ParamRoundTrip(p: Param)
    ensures ParseParam(PrintParam(p)) == p
    ensures '&' !in PrintParam(p)
  {
    hide Quote, Unquote, Split;
    SplitAtFirst(Quote(p.name), '=', Quote(p.value));
    SplitWhole(Quote(p.value), '=');
    QuoteRoundTrip(p.name);
    QuoteRoundTrip(p.value);
  }

  lemma {:induction false} QueryRoundTrip(params: seq<Param>)
    requires params != []
    ensures ParseQuery(PrintQuery(params)) == params
  {
    hide PrintParam, ParseParam, Split;
    ParamRoundTrip(params[0]);
    var head := PrintParam(params[0]);
    if |params| == 1 {
      SplitWhole(head, '&');
      assert ParseParams([head][1..]) == [];
      assert params == [params[0]];
    } else {
      QueryRoundTrip(params[1..]);
      var tail := PrintQuery(params[1..]);
      SplitAtFirst(head, '&', tail);
      assert ([head] + Split(tail, '&'))[1..] == Split(tail, '&');
    }
  }

  /** MAIN: for every parameter list, the base url stays a verbatim prefix and what is appended is a
      separator and a query that splits and decodes back to the parameters, in order.  The separator
      opens the query exactly when the base url has none. */
  lemma UrlRoundTrip(url: string, params: seq<Param>)
    ensures var built := BuildGetUrl(url, params);
      && url <= built
      && (params == [] ==> built == url)
      && (params != [] ==>
            && |built| > |url|
            && built[|url|] == (if '?' in url then '&' else '?')
            && ParseQuery(built[|url| + 1..]) == params)
  {
    hide PrintQuery, ParseQuery;
    if params != [] {
      QueryRoundTrip(params);
      assert BuildGetUrl(url, params)[|url| + 1..] == PrintQuery(params);
    }
  }

  /** Every value travels inside its own parameter: the query has no separator or '?' that a name or
      value brought along. */
  lemma {:induction false} QueryAlphabet(params: seq<Param>)
    requires params != []
    ensures forall c :: c in PrintQuery(params) ==> Unreserved(c) || c == '%' || c == '=' || c == '&'
    ensures '?' !in PrintQuery(params) && '#' !in PrintQuery(params)
  {
    hide Quote;
    if |params| > 1 { QueryAlphabet(params[1..]); }
  }
}
