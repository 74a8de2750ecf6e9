/** `encodeURIComponent` and the `key=value&...` query strings the services build. */
module Uri {
  import opened JsText

  /** The characters `encodeURIComponent` leaves as they are: letters, digits and - _ . ! ~ * ' ( ). */
  predicate IsUnreserved(c: char) {
    || ('A' <= c <= 'Z') || ('a' <= c <= 'z') || ('0' <= c <= '9')
    || c == '-' || c == '_' || c == '.' || c == '!' || c == '~' || c == '*' || c == '\'' || c == '(' || c == ')'
  }

  function HexDigit(d: nat): (c: char)
    requires d < 16
    ensures IsUnreserved(c)
  {
    if d < 10 then ('0' as int + d) as char else ('A' as int + d - 10) as char
  }

  /** The UTF-8 encoding of a Unicode scalar value. */
  function Utf8(c: char): (bytes: seq<nat>)
    ensures 1 <= |bytes| <= 4
    ensures forall i :: 0 <= i < |bytes| ==> bytes[i] < 256
  {
    var n := c as int;
    if n < 0x80 then [n]
    else if n < 0x800 then [0xC0 + n / 0x40, 0x80 + n % 0x40]
    else if n < 0x1_0000 then [0xE0 + n / 0x1000, 0x80 + (n / 0x40) % 0x40, 0x80 + n % 0x40]
    else [0xF0 + n / 0x4_0000, 0x80 + (n / 0x1000) % 0x40, 0x80 + (n / 0x40) % 0x40, 0x80 + n % 0x40]
  }

  /** `%XX` for each byte, with upper-case hexadecimal digits. */
  function PercentEncode(bytes: seq<nat>): (r: string)
    requires forall i :: 0 <= i < |bytes| ==> bytes[i] < 256
    ensures |r| == 3 * |bytes|
    ensures forall i :: 0 <= i < |r| ==> IsUnreserved(r[i]) || r[i] == '%'
  {
    if bytes == [] then []
    else ['%', HexDigit(bytes[0] / 16), HexDigit(bytes[0] % 16)] + PercentEncode(bytes[1..])
  }

  /** `encodeURIComponent(s)`: unreserved characters are kept, every other character becomes
      the percent-encoding of its UTF-8 bytes. */
  function EncodeURIComponent(s: string): string {
    if s == [] then []
    else (if IsUnreserved(s[0]) then [s[0]] else PercentEncode(Utf8(s[0]))) + EncodeURIComponent(s[1..])
  }

  /** Every character of an encoded component is unreserved or a `%`. */
  lemma {:induction false} EncodedCharacters(s: string)
    ensures forall c :: c in EncodeURIComponent(s) ==> IsUnreserved(c) || c == '%'
  {
    if s != [] {
      EncodedCharacters(s[1..]);
      var head := if IsUnreserved(s[0]) then [s[0]] else PercentEncode(Utf8(s[0]));
      var r := EncodeURIComponent(s);
      assert r == head + EncodeURIComponent(s[1..]);
      forall c | c in r ensures IsUnreserved(c) || c == '%' {
        if c !in head { assert c in EncodeURIComponent(s[1..]); }
      }
    }
  }

  /** A component made only of unreserved characters is sent as it is. */
  lemma {:induction false} EncodeUnreservedIsIdentity(s: string)
    requires forall i :: 0 <= i < |s| ==> IsUnreserved(s[i])
    ensures EncodeURIComponent(s) == s
  {
    if s != [] {
      EncodeUnreservedIsIdentity(s[1..]);
      assert [s[0]] + s[1..] == s;
    }
  }

  /** An encoded component never holds a query-string delimiter. */
  lemma EncodedHasNoDelimiters(s: string)
    ensures '&' !in EncodeURIComponent(s) && '=' !in EncodeURIComponent(s)
  {
    EncodedCharacters(s);
  }

  /** `key=value`. */
  function Pair(p: (string, string)): string {
    p.0 + "=" + p.1
  }

  function Pairs(params: seq<(string, string)>): (parts: seq<string>)
    ensures |parts| == |params|
    ensures forall i :: 0 <= i < |params| ==> parts[i] == Pair(params[i])
  {
    if params == [] then [] else [Pair(params[0])] + Pairs(params[1..])
  }

  /** The query string `k1=v1&k2=v2&...` of a list of parameters. */
  function Render(params: seq<(string, string)>): string {
    Join(Pairs(params), '&')
  }

  /** One `key=value` piece cut at its first `=`; a piece without `=` has the empty value. */
  function SplitPair(piece: string): (string, string) {
    if piece == [] then ("", "")
    else if piece[0] == '=' then ("", piece[1..])
    else
      var kv := SplitPair(piece[1..]);
      ([piece[0]] + kv.0, kv.1)
  }

  function SplitPairs(pieces: seq<string>): (params: seq<(string, string)>)
    ensures |params| == |pieces|
    ensures forall i :: 0 <= i < |pieces| ==> params[i] == SplitPair(pieces[i])
  {
    if pieces == [] then [] else [SplitPair(pieces[0])] + SplitPairs(pieces[1..])
  }

  /** How a server reads a query string: pieces between `&`, each cut at its first `=`. */
  function Parse(query: string): seq<(string, string)> {
    SplitPairs(Split(query, '&'))
  }

  /** A parameter whose key holds neither `&` nor `=`, and whose value holds no `&`. */
  predicate WellFormed(p: (string, string)) {
    '&' !in p.0 && '=' !in p.0 && '&' !in p.1
  }

  predicate AllWellFormed(params: seq<(string, string)>) {
    forall i :: 0 <= i < |params| ==> WellFormed(params[i])
  }

  /** A key without delimiters and a rendered integer form a well-formed parameter. */
  lemma IntToStringWellFormed(key: string, n: int)
    requires '&' !in key && '=' !in key
    ensures WellFormed((key, IntToString(n)))
  {
  }

  lemma AllWellFormedConcat(a: seq<(string, string)>, b: seq<(string, string)>)
    requires AllWellFormed(a) && AllWellFormed(b)
    ensures AllWellFormed(a + b)
  {
    forall i | 0 <= i < |a + b| ensures WellFormed((a + b)[i]) {
      if i < |a| { assert (a + b)[i] == a[i]; } else { assert (a + b)[i] == b[i - |a|]; }
    }
  }

  lemma {:induction false} SplitPairOfPair(k: string, v: string)
    requires '=' !in k
    ensures SplitPair(k + "=" + v) == (k, v)
  {
    if k == [] {
      assert (k + "=" + v)[1..] == v;
    } else {
      assert (k + "=" + v)[1..] == k[1..] + "=" + v;
      assert '=' !in k[1..];
      SplitPairOfPair(k[1..], v);
      assert [k[0]] + k[1..] == k;
    }
  }

  /** Parsing a rendered query string gives back its parameters, in order,
      when every parameter is well formed. */
  lemma ParseRender(params: seq<(string, string)>)
    requires |params| >= 1
    requires AllWellFormed(params)
    ensures Parse(Render(params)) == params
  {
    var parts := Pairs(params);
    forall i | 0 <= i < |parts|
      ensures '&' !in parts[i]
    {
      assert WellFormed(params[i]);
    }
    SplitJoin(parts, '&');
    forall i | 0 <= i < |params|
      ensures SplitPair(parts[i]) == params[i]
    {
      SplitPairOfPair(params[i].0, params[i].1);
    }
  }

  lemma {:induction false} JoinSnoc(parts: seq<string>, x: string, sep: char)
    requires |parts| >= 1
    ensures Join(parts + [x], sep) == Join(parts, sep) + [sep] + x
  {
    if |parts| > 1 {
      assert (parts + [x])[1..] == parts[1..] + [x];
      JoinSnoc(parts[1..], x, sep);
    }
  }

  /** Appending `&key=value` to a rendered query string renders one more parameter. */
  lemma RenderSnoc(params: seq<(string, string)>, p: (string, string))
    requires |params| >= 1
    ensures Render(params + [p]) == Render(params) + "&" + Pair(p)
  {
    assert Pairs(params + [p]) == Pairs(params) + [Pair(p)];
    JoinSnoc(Pairs(params), Pair(p), '&');
  }

  /** A URL ending in a rendered query string, extended by `&key=value`, ends in the query string with
      that parameter appended. */
  lemma ExtendQuery(url: string, path: string, params: seq<(string, string)>, infix: string, key: string, value: string)
    requires |params| >= 1
    requires url == path + Render(params)
    requires infix == "&" + key + "="
    ensures url + infix + value == path + Render(params + [(key, value)])
  {
    RenderSnoc(params, (key, value));
    assert Pair((key, value)) == key + "=" + value;
    assert url + infix + value == path + (Render(params) + "&" + (key + "=" + value));
  }

  /** Appending `&key=value` under a condition extends the query by that parameter under the same
      condition. */
  lemma ExtendQueryIf(cond: bool, prev: string, url: string, path: string, params: seq<(string, string)>,
                      infix: string, key: string, value: string)
    requires |params| >= 1
    requires prev == path + Render(params)
    requires infix == "&" + key + "="
    requires url == if cond then prev + infix + value else prev
    ensures url == path + Render(params + (if cond then [(key, value)] else []))
  {
    if cond {
      ExtendQuery(prev, path, params, infix, key, value);
    } else {
      assert params + [] == params;
    }
  }
}
