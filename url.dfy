/** The parts of `urllib.parse` the router uses: `urlparse` for the request target and
    `parse_qs` (with `unquote`) for its query string. */
module Url {
  import opened Py
  import Utf8

  /** The components of `urlparse(target)` for a target without a scheme (scheme detection is
      not modelled). */
  datatype Parsed = Parsed(netloc: string, path: string, params: string, query: string, fragment: string)

  /** `s.split(c, 1)` when `c` occurs in `s`: the text before the first `c` and after it. */
  function Before(s: string, c: char): (r: string)
    ensures c !in r && StartsWith(s, r)
  {
    s[..Find(s, c)]
  }

  function After(s: string, c: char): (r: string)
    ensures c in s ==> s == Before(s, c) + [c] + r
  {
    var k := Find(s, c);
    if k < |s| then s[k + 1..] else ""
  }

  /** `s.rfind('/')`, with -1 when there is no slash. */
  function LastSlash(s: string): (k: int)
    ensures -1 <= k < |s|
    ensures k >= 0 ==> s[k] == '/'
    ensures forall j :: k < j < |s| ==> s[j] != '/'
  {
    if s == [] then -1
    else if s[|s| - 1] == '/' then |s| - 1
    else LastSlash(s[..|s| - 1])
  }

  /** `_splitnetloc(url, 2)`: the authority runs to the first `/`, `?` or `#`. */
  function NetlocEnd(url: string, from: nat): (k: nat)
    requires from <= |url|
    ensures from <= k <= |url|
    ensures forall j :: from <= j < k ==> url[j] !in "/?#"
    ensures k < |url| ==> url[k] in "/?#"
    decreases |url| - from
  {
    if from == |url| || url[from] in "/?#" then from else NetlocEnd(url, from + 1)
  }

  /** `_splitparams(path)`: parameters start at the first `;` of the last segment. */
  function SplitParams(path: string): (r: (string, string))
    ensures r == (path, "") || path == r.0 + ";" + r.1
    ensures ';' !in path ==> r == (path, "")
  {
    if ';' !in path then (path, "")
    else
      var last := LastSlash(path);
      var i := if last >= 0 then Find(path, ';', last) else Find(path, ';');
      if i == |path| then (path, "")
      else (path[..i], path[i + 1..])
  }

  /** `urlparse(target)` for a target without a scheme. */
  function UrlParse(target: string): Parsed
  {
    var (netloc, rest) :=
      if StartsWith(target, "//") then
        var k := NetlocEnd(target, 2);
        (target[2..k], target[k..])
      else ("", target);
    var fragment := if '#' in rest then After(rest, '#') else "";
    var rest1 := if '#' in rest then Before(rest, '#') else rest;
    var query := if '?' in rest1 then After(rest1, '?') else "";
    var rest2 := if '?' in rest1 then Before(rest1, '?') else rest1;
    var (path, params) := SplitParams(rest2);
    Parsed(netloc, path, params, query, fragment)
  }

  // ---------------------------------------------------------------------------------------
  // Query strings

  predicate IsHexDigit(c: char) {
    '0' <= c <= '9' || 'a' <= c <= 'f' || 'A' <= c <= 'F'
  }

  function HexValue(c: char): (v: nat)
    requires IsHexDigit(c)
    ensures v < 16
  {
    if '0' <= c <= '9' then (c - '0') as nat
    else if 'a' <= c <= 'f' then (c - 'a') as nat + 10
    else (c - 'A') as nat + 10
  }

  predicate IsAscii(c: char) {
    c as int < 0x80
  }

  /** `unquote_to_bytes` of an ASCII run: `%XX` with two hex digits is that byte, any other
      character (a lone `%` included) is its own code. */
  function PercentBytes(s: string): (r: seq<byte>)
    requires forall k :: 0 <= k < |s| ==> IsAscii(s[k])
    ensures '%' !in s ==> |r| == |s|
  {
    if s == [] then []
    else if s[0] == '%' && |s| >= 3 && IsHexDigit(s[1]) && IsHexDigit(s[2]) then
      [16 * HexValue(s[1]) + HexValue(s[2])] + PercentBytes(s[3..])
    else
      assert IsAscii(s[0]);
      var b: byte := s[0] as int;
      [b] + PercentBytes(s[1..])
  }

  /** The length of the run of ASCII characters at the front of `s`. */
  function AsciiRun(s: string): (n: nat)
    ensures n <= |s|
    ensures forall k :: 0 <= k < n ==> IsAscii(s[k])
    ensures n < |s| ==> !IsAscii(s[n])
  {
    if s == [] || !IsAscii(s[0]) then 0 else 1 + AsciiRun(s[1..])
  }

  /** `unquote(s)` past its shortcut: each run of ASCII characters is percent-decoded to
      bytes and decoded as UTF-8 with replacement; other characters are kept. */
  function UnquoteRuns(s: string): string
    decreases |s|
  {
    if s == [] then []
    else
      var n := AsciiRun(s);
      if n == 0 then [s[0]] + UnquoteRuns(s[1..])
      else Utf8.DecodeReplace(PercentBytes(s[..n])) + UnquoteRuns(s[n..])
  }

  /** `urllib.parse.unquote(s)` with `encoding='utf-8'`, `errors='replace'`. */
  function Unquote(s: string): string
  {
    if '%' !in s then s else UnquoteRuns(s)
  }

  /** `s.replace('+', ' ')`. */
  function PlusToSpace(s: string): (r: string)
    ensures |r| == |s|
    ensures forall k :: 0 <= k < |s| ==> r[k] == if s[k] == '+' then ' ' else s[k]
  {
    if s == [] then [] else [if s[0] == '+' then ' ' else s[0]] + PlusToSpace(s[1..])
  }

  /** One `name=value` field of `parse_qsl` with `keep_blank_values=False`: fields without
      `=` or with an empty value are dropped. */
  function Field(field: string): Option<(string, string)>
  {
    if '=' !in field then None
    else
      var name := Before(field, '=');
      var value := After(field, '=');
      if value == "" then None
      else Some((Unquote(PlusToSpace(name)), Unquote(PlusToSpace(value))))
  }

  function Fields(fields: seq<string>): seq<(string, string)>
  {
    if fields == [] then []
    else
      match Field(fields[0])
      case None => Fields(fields[1..])
      case Some(nv) => [nv] + Fields(fields[1..])
  }

  /** `parse_qsl(qs)`; `parse_qs` groups these pairs by name, keeping their order. */
  function ParseQsl(qs: string): seq<(string, string)>
  {
    if qs == "" then [] else Fields(Split(qs, '&'))
  }

  /** `parse_qs(qs).get(name, [''])[0]`: the first value given for `name`, or `""`. */
  function FirstValue(pairs: seq<(string, string)>, name: string): (v: string)
    ensures (forall k :: 0 <= k < |pairs| ==> pairs[k].0 != name) ==> v == ""
    ensures forall k :: (0 <= k < |pairs| && pairs[k].0 == name &&
              (forall j :: 0 <= j < k ==> pairs[j].0 != name)) ==> v == pairs[k].1
  {
    if pairs == [] then ""
    else if pairs[0].0 == name then pairs[0].1
    else FirstValue(pairs[1..], name)
  }

  // ---------------------------------------------------------------------------------------
  // Percent-encoding, the inverse a client applies

  /** The upper-case hexadecimal digit of `d`. */
  function HexChar(d: nat): (c: char)
    requires d < 16
    ensures IsAscii(c) && IsHexDigit(c) && HexValue(c) == d
  {
    if d < 10 then '0' + d as char else 'A' + (d - 10) as char
  }

  /** `quote(s, safe='')`-style encoding of every UTF-8 byte as `%XX`. */
  function PercentEncodeBytes(bs: seq<byte>): (r: string)
    ensures |r| == 3 * |bs|
    ensures forall k :: 0 <= k < |r| ==> IsAscii(r[k])
    ensures forall k :: 0 <= k < |r| ==> r[k] == '%' || IsHexDigit(r[k])
  {
    if bs == [] then ""
    else "%" + [HexChar(bs[0] / 16), HexChar(bs[0] % 16)] + PercentEncodeBytes(bs[1..])
  }

  function Quote(s: string): string
  {
    PercentEncodeBytes(Utf8.Encode(s))
  }

  lemma {:induction false} PercentBytesOfEncoded(bs: seq<byte>)
    ensures PercentBytes(PercentEncodeBytes(bs)) == bs
  {
    if bs != [] {
      var b := bs[0];
      var e := PercentEncodeBytes(bs);
      var rest := PercentEncodeBytes(bs[1..]);
      assert e == "%" + [HexChar(b / 16), HexChar(b % 16)] + rest;
      assert e[3..] == rest;
      PercentBytesOfEncoded(bs[1..]);
    }
  }

  /** Percent-decoding undoes percent-encoding: a value the browser quoted arrives at the
      controller as it was typed. */
  lemma UnquoteQuote(s: string)
    ensures Unquote(Quote(s)) == s
  {
    var q := Quote(s);
    if s == [] {
      assert Utf8.Encode(s) == [];
    } else {
      var e := Utf8.Encode(s);
      assert e != [] by {
        assert |Utf8.EncodeChar(s[0])| >= 1;
      }
      assert q[0] == '%' && q[0] in q;
      assert AsciiRun(q) == |q| by {
        AsciiRunAll(q);
      }
      assert q[..|q|] == q;
      assert q[|q|..] == [];
      PercentBytesOfEncoded(e);
      Utf8.DecodeReplaceEncode(s);
      assert UnquoteRuns(q) == Utf8.DecodeReplace(PercentBytes(q)) + UnquoteRuns([]);
    }
  }

  lemma {:induction false} AsciiRunAll(s: string)
    requires forall k :: 0 <= k < |s| ==> IsAscii(s[k])
    ensures AsciiRun(s) == |s|
  {
    if s != [] {
      AsciiRunAll(s[1..]);
    }
  }

  // ---------------------------------------------------------------------------------------
  // Parsing what a client sends

  /** Splitting at the first `c` recovers the two sides when the left one holds no `c`. */
  lemma SplitFirst(x: string, c: char, y: string)
    requires c !in x
    ensures c in x + [c] + y
    ensures Before(x + [c] + y, c) == x && After(x + [c] + y, c) == y
  {
    var s := x + [c] + y;
    assert s[|x|] == c;
    forall j | 0 <= j < |x| ensures s[j] != c {
      assert s[j] == x[j] && x[j] in x;
    }
    assert Find(s, c) == |x|;
    assert s[..|x|] == x;
    assert s[|x| + 1..] == y;
  }

  /** A target made of a path and a query, with none of `?`, `#`, `;` in the path, no `//` at
      its start and no `#` in the query, parses into exactly that path and that query. */
  lemma ParsePathQuery(p: string, q: string)
    requires '?' !in p && '#' !in p && ';' !in p && '#' !in q
    requires |p| >= 2 ==> p[1] != '/'
    ensures UrlParse(p + "?" + q) == Parsed("", p, "", q, "")
  {
    var t := p + "?" + q;
    forall k | 0 <= k < |t| ensures t[k] != '#' {
      if k < |p| {
        assert t[k] == p[k] && p[k] in p;
      } else if k > |p| {
        assert t[k] == q[k - |p| - 1] && q[k - |p| - 1] in q;
      }
    }
    SplitFirst(p, '?', q);
    assert !StartsWith(t, "//") by {
      if |p| >= 2 {
        assert t[1] == p[1];
        assert t[..2][1] != "//"[1];
      } else if |p| == 1 {
        assert t[1] == '?';
        assert t[..2][1] != "//"[1];
      } else if |t| >= 2 {
        assert t[0] == '?';
        assert t[..2][0] != "//"[0];
      }
    }
    assert '#' !in t;
    assert SplitParams(p) == (p, "");
  }

  /** A target that is only a path, with none of `?`, `#`, `;`, parses into that path. */
  lemma ParsePath(p: string)
    requires '?' !in p && '#' !in p && ';' !in p
    requires |p| >= 2 ==> p[1] != '/'
    ensures UrlParse(p) == Parsed("", p, "", "", "")
  {
  }

  /** `x.replace('+', ' ')` leaves text without `+` alone. */
  lemma PlusToSpaceNoPlus(s: string)
    requires '+' !in s
    ensures PlusToSpace(s) == s
  {
    forall k | 0 <= k < |s| ensures PlusToSpace(s)[k] == s[k] {
      assert s[k] in s;
    }
  }

  /** The quoted form of a string is empty only for the empty string. */
  lemma QuoteEmpty(s: string)
    ensures Quote(s) == "" <==> s == ""
  {
    UnquoteQuote(s);
    assert Utf8.Encode("") == [];
  }

  /** A quoted value holds only `%` and hexadecimal digits. */
  lemma QuoteAlphabet(s: string)
    ensures '#' !in Quote(s) && '&' !in Quote(s) && '+' !in Quote(s)
  {
    var q := Quote(s);
    forall k | 0 <= k < |q| ensures q[k] != '#' && q[k] != '&' && q[k] != '+' {
      assert q[k] == '%' || IsHexDigit(q[k]);
    }
  }

  /** A query `name=<quoted value>` gives the value back as typed: `parse_qs` undoes what the
      client's percent-encoding did, including for the empty value, which it drops and
      `.get(name, [''])[0]` restores as `""`. */
  lemma QueryRoundTrip(name: string, value: string)
    requires name != "" && '&' !in name && '=' !in name && '%' !in name && '+' !in name
    ensures FirstValue(ParseQsl(name + "=" + Quote(value)), name) == value
  {
    var q := Quote(value);
    var qs := name + "=" + q;
    QuoteAlphabet(value);
    forall k | 0 <= k < |qs| ensures qs[k] != '&' {
      if k < |name| {
        assert qs[k] == name[k] && name[k] in name;
      } else if k > |name| {
        assert qs[k] == q[k - |name| - 1] && q[k - |name| - 1] in q;
      }
    }
    SplitNoSep(qs, '&');
    SplitFirst(name, '=', q);
    assert Fields([qs]) == Fields([qs][1..]) || Fields([qs]) == [Field(qs).value] + Fields([qs][1..]);
    assert [qs][1..] == [];
    QuoteEmpty(value);
    if q != "" {
      PlusToSpaceNoPlus(name);
      PlusToSpaceNoPlus(q);
      UnquoteQuote(value);
      assert Field(qs) == Some((name, value));
    }
  }
}
