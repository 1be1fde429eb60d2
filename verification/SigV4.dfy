/**
  The canonical forms of AWS Signature Version 4 in boto.auth: query string,
  S3 URI, and headers. A string stands for its UTF-8 bytes, one char each.
*/
module SigV4 {
  import opened Wrappers
  import opened Text
  import opened Ordering

  // ---- percent-encoding, as in sections 2.1 and 2.3 of RFC 3986 ----

  predicate Bytes(s: string) {
    forall i :: 0 <= i < |s| ==> s[i] as int < 256
  }

  predicate Unreserved(c: char) {
    'a' <= c <= 'z' || 'A' <= c <= 'Z' || '0' <= c <= '9' || c == '-' || c == '_' || c == '.' || c == '~'
  }

  predicate UnreservedOrSlash(c: char) {
    Unreserved(c) || c == '/'
  }

  function HexDigit(n: nat): (c: char)
    requires n < 16
    ensures HexValue(c) == Some(n) && Unreserved(c)
  {
    if n < 10 then (48 + n) as char else (55 + n) as char
  }

  function HexValue(c: char): (v: Option<nat>)
    ensures v.Some? ==> v.value < 16
  {
    if '0' <= c <= '9' then Some(c as int - 48)
    else if 'A' <= c <= 'F' then Some(c as int - 55)
    else if 'a' <= c <= 'f' then Some(c as int - 87)
    else None
  }

  function QuoteChar(c: char, keep: char -> bool): string
    requires c as int < 256
  {
    if keep(c) then [c] else ['%', HexDigit(c as int / 16), HexDigit(c as int % 16)]
  }

  // urllib quote
  function Quote(s: string, keep: char -> bool): string
    requires Bytes(s)
  {
    if s == [] then [] else QuoteChar(s[0], keep) + Quote(s[1..], keep)
  }

  predicate Escape(s: string) {
    |s| >= 3 && s[0] == '%' && HexValue(s[1]).Some? && HexValue(s[2]).Some?
  }

  // urllib unquote: a '%' without two hex digits after it is left alone.
  function Unquote(s: string): string {
    if s == [] then []
    else if Escape(s) then [(16 * HexValue(s[1]).value + HexValue(s[2]).value) as char] + Unquote(s[3..])
    else [s[0]] + Unquote(s[1..])
  }

  lemma {:induction false} UnquoteBytes(s: string)
    requires Bytes(s)
    ensures Bytes(Unquote(s))
    decreases |s|
  {
    if Escape(s) {
      UnquoteBytes(s[3..]);
    } else if s != [] {
      UnquoteBytes(s[1..]);
    }
  }

  // Unquoting undoes quoting.
  lemma {:induction false} UnquoteOfQuote(s: string, keep: char -> bool)
    requires Bytes(s) && !keep('%')
    ensures Unquote(Quote(s, keep)) == s
  {
    if s == [] {
    } else {
      UnquoteOfQuote(s[1..], keep);
      var q, rest := QuoteChar(s[0], keep), Quote(s[1..], keep);
      if keep(s[0]) {
        assert (q + rest)[1..] == rest;
      } else {
        assert (q + rest)[3..] == rest;
        var n := s[0] as int;
        assert 16 * (n / 16) + n % 16 == n;
      }
      assert s == [s[0]] + s[1..];
    }
  }

  // Quoted text holds only kept characters, '%' and hex digits.
  lemma {:induction false} QuotedChars(s: string, keep: char -> bool, c: char)
    requires Bytes(s) && !keep(c) && !Unreserved(c) && c != '%'
    ensures c !in Quote(s, keep)
  {
    if s == [] {
    } else {
      QuotedChars(s[1..], keep, c);
    }
  }

  // S3HmacAuthV4Handler.canonical_uri, on the path component.
  function CanonicalUri(path: string): string
    requires Bytes(path)
  {
    UnquoteBytes(path);
    Quote(Unquote(path), UnreservedOrSlash)
  }

  lemma {:induction false} QuoteBytes(s: string, keep: char -> bool)
    requires Bytes(s)
    ensures Bytes(Quote(s, keep))
  {
    if s == [] {
    } else {
      QuoteBytes(s[1..], keep);
    }
  }

  // Two paths have the same canonical form iff they decode to the same path,
  // and canonicalising again changes nothing.
  lemma CanonicalUriIsCanonical(p: string, q: string)
    requires Bytes(p) && Bytes(q)
    ensures CanonicalUri(p) == CanonicalUri(q) <==> Unquote(p) == Unquote(q)
    ensures Bytes(CanonicalUri(p)) && CanonicalUri(CanonicalUri(p)) == CanonicalUri(p)
  {
    UnquoteBytes(p);
    UnquoteBytes(q);
    UnquoteOfQuote(Unquote(p), UnreservedOrSlash);
    UnquoteOfQuote(Unquote(q), UnreservedOrSlash);
    QuoteBytes(Unquote(p), UnreservedOrSlash);
  }

  // ---- what quoting writes ----

  const HEX := "0123456789ABCDEF"
  const SMALL_HEX := "0123456789abcdef"

  lemma HexAt(n: nat)
    requires n < 16
    ensures HexDigit(n) == HEX[n] && HexValue(HEX[n]) == Some(n) && HexValue(SMALL_HEX[n]) == Some(n)
  {}

  // Letters, digits and -_.~ stand for themselves; a slash does in a path; any
  // other byte becomes a percent sign and its two hex digits, in capitals.
  lemma QuoteOne(c: char)
    requires c as int < 256
    ensures var hex := ['%', HEX[c as int / 16], HEX[c as int % 16]];
      var plain := c in CAPITALS || c in SMALL_LETTERS || c in "0123456789" || c in "-_.~";
      && Quote([c], Unreserved) == (if plain then [c] else hex)
      && Quote([c], UnreservedOrSlash) == if plain || c == '/' then [c] else hex
  {
    HexAt(c as int / 16);
    HexAt(c as int % 16);
    LetterIff(c);
    DigitIff(c);
    assert [c][1..] == [];
  }

  // One byte after the other.
  lemma {:induction false} QuoteAppend(s: string, t: string, keep: char -> bool)
    requires Bytes(s) && Bytes(t)
    ensures Bytes(s + t) && Quote(s + t, keep) == Quote(s, keep) + Quote(t, keep)
  {
    if s == [] {
      assert s + t == t;
    } else {
      assert (s + t)[1..] == s[1..] + t;
      QuoteAppend(s[1..], t, keep);
      Regroup(QuoteChar(s[0], keep), Quote(s[1..], keep), Quote(t, keep));
    }
  }

  // Unquoting turns two hex digits after a percent sign, capital or not, into
  // a byte, and leaves all else alone.
  lemma {:induction false} UnquoteEscape(a: string, hi: nat, lo: nat, h: char, l: char, b: string)
    requires '%' !in a && hi < 16 && lo < 16
    requires (h == HEX[hi] || h == SMALL_HEX[hi]) && (l == HEX[lo] || l == SMALL_HEX[lo])
    ensures Unquote(a + ['%', h, l] + b) == a + [(16 * hi + lo) as char] + Unquote(b)
  {
    HexAt(hi);
    HexAt(lo);
    var s := ['%', h, l] + b;
    assert s[3..] == b;
    assert Unquote(s) == [(16 * hi + lo) as char] + Unquote(b);
    UnquotePlain(a, s);
    assert a + ['%', h, l] + b == a + s;
    Regroup(a, [(16 * hi + lo) as char], Unquote(b));
  }

  lemma {:induction false} UnquotePlain(a: string, s: string)
    requires '%' !in a
    ensures Unquote(a + s) == a + Unquote(s)
  {
    if a == [] {
      assert a + s == s;
    } else {
      assert (a + s)[1..] == a[1..] + s;
      UnquotePlain(a[1..], s);
      assert a == [a[0]] + a[1..];
      Regroup([a[0]], a[1..], Unquote(s));
    }
  }

  lemma UnquotePercent(s: string)
    requires |s| < 2 || HexValue(s[0]).None? || HexValue(s[1]).None?
    ensures Unquote("%" + s) == "%" + Unquote(s)
  {
    assert ("%" + s)[1..] == s;
  }

  lemma HexValueIff(c: char)
    ensures HexValue(c).Some? <==> c in HEX || c in SMALL_HEX
  {
    forall n | 0 <= n < 16 ensures HexValue(HEX[n]).Some? && HexValue(SMALL_HEX[n]).Some? {
      HexAt(n);
    }
    if HexValue(c).Some? {
      var n := HexValue(c).value;
      assert c == HEX[n] || c == SMALL_HEX[n];
    }
  }

  // In quoted text a percent sign has two hex digits after it, in capitals.
  lemma {:induction false} QuoteEscapes(s: string, keep: char -> bool, i: nat)
    requires Bytes(s) && !keep('%') && i < |Quote(s, keep)| && Quote(s, keep)[i] == '%'
    ensures var q := Quote(s, keep); i + 2 < |q| && q[i + 1] in HEX && q[i + 2] in HEX
  {
    var q, rest := QuoteChar(s[0], keep), Quote(s[1..], keep);
    HexAt(s[0] as int / 16);
    HexAt(s[0] as int % 16);
    if i >= |q| {
      assert Quote(s, keep)[i] == rest[i - |q|];
      QuoteEscapes(s[1..], keep, i - |q|);
    } else {
      assert (q + rest)[i] == q[i];
      assert i == 0;
    }
  }

  lemma UriEscapes(p: string, i: nat)
    requires Bytes(p) && i < |CanonicalUri(p)| && CanonicalUri(p)[i] == '%'
    ensures var q := CanonicalUri(p); i + 2 < |q| && q[i + 1] in HEX && q[i + 2] in HEX
  {
    UnquoteBytes(p);
    QuoteEscapes(Unquote(p), UnreservedOrSlash, i);
  }

  // It makes no difference whether a byte of a path was already escaped, and
  // in which hex digits: a plus sign is signed as %2B, for one.
  lemma EscapedOrNot(a: string, hi: nat, lo: nat, h: char, l: char, b: string)
    requires Bytes(a) && Bytes(b) && '%' !in a && '%' !in b && hi < 16 && lo < 16 && (hi, lo) != (2, 5)
    requires (h == HEX[hi] || h == SMALL_HEX[hi]) && (l == HEX[lo] || l == SMALL_HEX[lo])
    ensures var c := [(16 * hi + lo) as char]; var escape := ['%', h, l];
      && Bytes(a + c + b) && Bytes(a + escape + b)
      && CanonicalUri(a + escape + b) == CanonicalUri(a + c + b)
      && CanonicalUri(a + c + b) == Quote(a, UnreservedOrSlash) + Quote(c, UnreservedOrSlash) + Quote(b, UnreservedOrSlash)
  {
    var c := [(16 * hi + lo) as char];
    HexAt(hi);
    HexAt(lo);
    BytesAppend(a, ['%', h, l], b);
    BytesAppend(a, c, b);
    UnquoteEscape(a, hi, lo, h, l, b);
    UnquoteSelf(b);
    UnquoteSelf(a + c + b);
    QuoteThree(a, c, b);
  }

  lemma BytesAppend(a: string, s: string, b: string)
    requires Bytes(a) && Bytes(b) && Bytes(s)
    ensures Bytes(a + s + b)
  {}

  lemma QuoteThree(a: string, s: string, b: string)
    requires Bytes(a) && Bytes(b) && Bytes(s) && Bytes(a + s + b)
    ensures Quote(a + s + b, UnreservedOrSlash) ==
      Quote(a, UnreservedOrSlash) + Quote(s, UnreservedOrSlash) + Quote(b, UnreservedOrSlash)
  {
    QuoteAppend(a + s, b, UnreservedOrSlash);
    QuoteAppend(a, s, UnreservedOrSlash);
  }

  lemma UnquoteSelf(s: string)
    requires '%' !in s
    ensures Unquote(s) == s
  {
    UnquotePlain(s, "");
    assert s + "" == s;
  }

  // ---- the canonical query string ----

  // A dict of parameters in its iteration order.
  ghost predicate Enumerates(order: seq<string>, params: map<string, string>) {
    && (forall k :: k in order <==> k in params)
    && (forall i, j :: 0 <= i < j < |order| ==> order[i] != order[j])
  }

  predicate ByteParams(params: map<string, string>) {
    forall k :: k in params ==> Bytes(k) && Bytes(params[k])
  }

  function Pair(k: string, v: string): string
    requires Bytes(k) && Bytes(v)
  {
    Quote(k, Unreserved) + "=" + Quote(v, Unreserved)
  }

  function Pairs(keys: seq<string>, params: map<string, string>): (ps: seq<string>)
    requires ByteParams(params) && forall i :: 0 <= i < |keys| ==> keys[i] in params
    ensures |ps| == |keys|
  {
    if keys == [] then [] else Pairs(keys[..|keys| - 1], params) + [Pair(keys[|keys| - 1], params[keys[|keys| - 1]])]
  }

  ghost function Query(keys: seq<string>, params: map<string, string>): string
    requires ByteParams(params) && forall i :: 0 <= i < |keys| ==> keys[i] in params
  {
    Join(Pairs(keys, params), '&')
  }

  // HmacAuthV4Handler.canonical_query_string; the S3 handler does the same for
  // every HTTP method, POST included.
  method CanonicalQueryString(httpMethod: string, isS3: bool, order: seq<string>, params: map<string, string>) returns (s: string)
    requires ByteParams(params) && Enumerates(order, params)
    ensures s == if httpMethod == "POST" && !isS3 then "" else CanonicalQuery(order, params)
  {
    if httpMethod == "POST" && !isS3 {
      return "";
    }
    var l: seq<string> := [];
    var keys := Sort(order);
    SortedMembers(order);
    for i := 0 to |keys|
      invariant l == Pairs(keys[..i], params)
    {
      assert keys[i] in order;
      assert keys[..i + 1][..i] == keys[..i];
      l := l + [Quote(keys[i], Unreserved) + "=" + Quote(params[keys[i]], Unreserved)];
    }
    assert keys[..|keys|] == keys;
    s := Join(l, '&');
  }

  lemma SortedMembers(order: seq<string>)
    ensures forall k :: k in Sort(order) <==> k in order
  {
    forall k ensures k in Sort(order) <==> k in order {
      assert k in multiset(Sort(order)) <==> k in multiset(order);
    }
  }

  ghost function CanonicalQuery(order: seq<string>, params: map<string, string>): string
    requires ByteParams(params) && Enumerates(order, params)
  {
    SortedMembers(order);
    Query(Sort(order), params)
  }

  // Reading a query string back: split on '&', then on the first '='.
  function KeyOf(part: string): string {
    Unquote(Split(part, '=')[0])
  }

  function ValueOf(part: string): string {
    var parts := Split(part, '=');
    if |parts| > 1 then Unquote(parts[1]) else ""
  }

  function DecodeParts(parts: seq<string>): map<string, string> {
    if parts == [] then map[]
    else DecodeParts(parts[..|parts| - 1])[KeyOf(parts[|parts| - 1]) := ValueOf(parts[|parts| - 1])]
  }

  function Decode(s: string): map<string, string> {
    if s == "" then map[] else DecodeParts(Split(s, '&'))
  }

  lemma PairDecodes(k: string, v: string)
    requires Bytes(k) && Bytes(v)
    ensures KeyOf(Pair(k, v)) == k && ValueOf(Pair(k, v)) == v
    ensures '&' !in Pair(k, v) && Pair(k, v) != ""
  {
    var a, b := Quote(k, Unreserved), Quote(v, Unreserved);
    QuotedChars(k, Unreserved, '=');
    QuotedChars(v, Unreserved, '=');
    QuotedChars(k, Unreserved, '&');
    QuotedChars(v, Unreserved, '&');
    SplitFirst(a, '=', b);
    SplitWhole(b, '=');
    assert Pair(k, v) == a + ['='] + b;
    UnquoteOfQuote(k, Unreserved);
    UnquoteOfQuote(v, Unreserved);
  }

  lemma {:induction false} PartsDecode(keys: seq<string>, params: map<string, string>)
    requires ByteParams(params) && forall i :: 0 <= i < |keys| ==> keys[i] in params
    ensures DecodeParts(Pairs(keys, params)) == map k | k in keys :: params[k]
  {
    if keys == [] {
    } else {
      var n := |keys| - 1;
      PartsDecode(keys[..n], params);
      PairDecodes(keys[n], params[keys[n]]);
      assert Pairs(keys, params)[..n] == Pairs(keys[..n], params);
      OneMoreKey(keys, params);
    }
  }

  lemma OneMoreKey(keys: seq<string>, params: map<string, string>)
    requires keys != [] && forall i :: 0 <= i < |keys| ==> keys[i] in params
    ensures var n := |keys| - 1;
      (map k | k in keys[..n] :: params[k])[keys[n] := params[keys[n]]] == map k | k in keys :: params[k]
  {
    assert keys == keys[..|keys| - 1] + [keys[|keys| - 1]];
  }

  lemma {:induction false} PartsClean(keys: seq<string>, params: map<string, string>)
    requires ByteParams(params) && forall i :: 0 <= i < |keys| ==> keys[i] in params
    ensures forall i :: 0 <= i < |keys| ==> '&' !in Pairs(keys, params)[i] && Pairs(keys, params)[i] != ""
  {
    if keys == [] {
    } else {
      PartsClean(keys[..|keys| - 1], params);
      PairDecodes(keys[|keys| - 1], params[keys[|keys| - 1]]);
    }
  }

  lemma NonEmptyJoin(parts: seq<string>, c: char)
    requires parts != [] && parts[0] != ""
    ensures Join(parts, c) != ""
  {}

  // The canonical query string decodes back to the parameters.
  lemma QueryDecodes(order: seq<string>, params: map<string, string>)
    requires ByteParams(params) && Enumerates(order, params)
    ensures Decode(CanonicalQuery(order, params)) == params
  {
    SortedMembers(order);
    var keys := Sort(order);
    var ps := Pairs(keys, params);
    PartsDecode(keys, params);
    PartsClean(keys, params);
    assert (map k | k in keys :: params[k]) == params;
    if ps != [] {
      SplitOfJoin(ps, '&');
      NonEmptyJoin(ps, '&');
    }
  }

  // It depends only on the parameter map, and tells different maps apart.
  lemma QueryIsCanonical(order: seq<string>, params: map<string, string>, order': seq<string>, params': map<string, string>)
    requires ByteParams(params) && Enumerates(order, params)
    requires ByteParams(params') && Enumerates(order', params')
    ensures CanonicalQuery(order, params) == CanonicalQuery(order', params') <==> params == params'
  {
    QueryDecodes(order, params);
    QueryDecodes(order', params');
    if params == params' {
      SameMultiset(order, order');
      SortIgnoresOrder(order, order');
    }
  }

  // Part i of the query string is for the i-th parameter, in order of the
  // unencoded names.
  lemma QueryInOrder(order: seq<string>, params: map<string, string>)
    requires ByteParams(params) && Enumerates(order, params) && order != []
    ensures var parts := Split(CanonicalQuery(order, params), '&');
      && |parts| == |order|
      && (forall i :: 0 <= i < |parts| ==> KeyOf(parts[i]) in params && ValueOf(parts[i]) == params[KeyOf(parts[i])])
      && (forall i, j :: 0 <= i < j < |parts| ==> Leq(KeyOf(parts[i]), KeyOf(parts[j])) && KeyOf(parts[i]) != KeyOf(parts[j]))
  {
    SortedMembers(order);
    var keys := Sort(order);
    PartsClean(keys, params);
    SplitOfJoin(Pairs(keys, params), '&');
    SortSorted(order);
    forall i | 0 <= i < |keys| ensures Pairs(keys, params)[i] == Pair(keys[i], params[keys[i]]) {
      PairAt(keys, params, i);
    }
    forall i | 0 <= i < |keys| ensures KeyOf(Pairs(keys, params)[i]) == keys[i] && ValueOf(Pairs(keys, params)[i]) == params[keys[i]] {
      PairDecodes(keys[i], params[keys[i]]);
    }
    forall i, j | 0 <= i < j < |keys| ensures Leq(keys[i], keys[j]) && keys[i] != keys[j] {
      SortedIndices(keys, i, j);
      KeysDiffer(order, i, j);
    }
  }

  lemma {:induction false} PairAt(keys: seq<string>, params: map<string, string>, i: nat)
    requires ByteParams(params) && i < |keys| && forall j :: 0 <= j < |keys| ==> keys[j] in params
    ensures Pairs(keys, params)[i] == Pair(keys[i], params[keys[i]])
  {
    if i < |keys| - 1 {
      PairAt(keys[..|keys| - 1], params, i);
    }
  }

  // Sorting keeps different names apart.
  lemma KeysDiffer(order: seq<string>, i: nat, j: nat)
    requires i < j < |order| && forall k, l :: 0 <= k < l < |order| ==> order[k] != order[l]
    ensures Sort(order)[i] != Sort(order)[j]
  {
    var keys := Sort(order);
    OnceAtMost(order, keys[i]);
    assert multiset(keys)[keys[i]] <= 1;
    if keys[i] == keys[j] {
      Twice(keys, i, j);
    }
  }

  lemma Twice(s: seq<string>, i: nat, j: nat)
    requires i < j < |s| && s[i] == s[j]
    ensures multiset(s)[s[i]] > 1
  {
    assert s == s[..j] + [s[j]] + s[j + 1..];
    assert s[i] in multiset(s[..j]) by { assert s[..j][i] == s[i]; }
  }

  lemma SameMultiset(s: seq<string>, t: seq<string>)
    requires forall k :: k in s <==> k in t
    requires forall i, j :: 0 <= i < j < |s| ==> s[i] != s[j]
    requires forall i, j :: 0 <= i < j < |t| ==> t[i] != t[j]
    ensures multiset(s) == multiset(t)
  {
    forall k ensures multiset(s)[k] == multiset(t)[k] {
      OnceAtMost(s, k);
      OnceAtMost(t, k);
      assert k in s <==> k in t;
    }
  }

  lemma {:induction false} OnceAtMost(s: seq<string>, k: string)
    requires forall i, j :: 0 <= i < j < |s| ==> s[i] != s[j]
    ensures multiset(s)[k] == if k in s then 1 else 0
  {
    if s == [] {
    } else {
      OnceAtMost(s[1..], k);
      assert s == [s[0]] + s[1..];
    }
  }

  // ---- canonical headers and signed headers ----

  // A header as the caller gave it.
  datatype Header = Header(name: string, value: string)

  function CanonicalName(name: string): string {
    Strip(Lower(name))
  }

  // The characters before the first white space.
  function Word(s: string): (w: string)
    ensures w <= s && (s != [] && !IsSpace(s[0]) ==> w != [])
  {
    if s == [] || IsSpace(s[0]) then [] else [s[0]] + Word(s[1..])
  }

  // s.split()
  function Words(s: string): seq<string> {
    if s == [] then []
    else if IsSpace(s[0]) then Words(s[1..])
    else [Word(s)] + Words(s[|Word(s)|..])
  }

  function CanonicalValue(raw: string): string {
    if '"' in raw then Strip(raw) else Join(Words(Strip(raw)), ' ')
  }

  ghost predicate IsWord(w: string) {
    w != [] && forall c :: c in w ==> !IsSpace(c)
  }

  lemma {:induction false} WordIsWord(s: string)
    requires s != [] && !IsSpace(s[0])
    ensures IsWord(Word(s))
  {
    if |s| > 1 && !IsSpace(s[1]) {
      WordIsWord(s[1..]);
    }
  }

  lemma {:induction false} WordsAreWords(s: string)
    ensures forall i :: 0 <= i < |Words(s)| ==> IsWord(Words(s)[i])
    decreases |s|
  {
    if s == [] {
    } else {
      if IsSpace(s[0]) {
        WordsAreWords(s[1..]);
      } else {
        WordIsWord(s);
        WordsAreWords(s[|Word(s)|..]);
      }
    }
  }

  lemma {:induction false} WordBefore(w: string, rest: string)
    requires IsWord(w) && (rest == [] || IsSpace(rest[0]))
    ensures Word(w + rest) == w
  {
    assert (w + rest)[0] in w;
    assert (w + rest)[1..] == w[1..] + rest;
    if |w| > 1 {
      WordBefore(w[1..], rest);
    } else {
      assert w[1..] + rest == rest;
    }
    assert w == [w[0]] + w[1..];
  }

  lemma WordsHead(w: string, rest: string)
    requires IsWord(w) && (rest == [] || IsSpace(rest[0]))
    ensures Words(w + rest) == [w] + Words(rest)
  {
    WordBefore(w, rest);
    assert (w + rest)[0] in w;
    assert (w + rest)[|w|..] == rest;
  }

  lemma WordsAfterSpace(s: string)
    ensures Words([' '] + s) == Words(s)
  {
    assert ([' '] + s)[1..] == s;
  }

  lemma {:induction false} WordsOfJoin(ws: seq<string>)
    requires forall i :: 0 <= i < |ws| ==> IsWord(ws[i])
    ensures Words(Join(ws, ' ')) == ws
  {
    if |ws| == 1 {
      WordsHead(ws[0], []);
      assert ws[0] + [] == ws[0];
    } else if ws != [] {
      var t := Join(ws[1..], ' ');
      WordsOfJoin(ws[1..]);
      WordsAfterSpace(t);
      WordsHead(ws[0], [' '] + t);
      assert ws[0] + ([' '] + t) == ws[0] + [' '] + t;
    }
  }

  // Unquoted values have the same canonical form iff they have the same words.
  lemma ValueIsCanonical(v: string, v': string)
    requires '"' !in v && '"' !in v'
    ensures CanonicalValue(v) == CanonicalValue(v') <==> Words(Strip(v)) == Words(Strip(v'))
  {
    WordsAreWords(Strip(v));
    WordsAreWords(Strip(v'));
    WordsOfJoin(Words(Strip(v)));
    WordsOfJoin(Words(Strip(v')));
  }

  // ws with white space between them
  function Spaced(ws: seq<string>, gaps: seq<string>): string
    requires |gaps| + 1 == |ws|
  {
    if gaps == [] then ws[0] else ws[0] + (gaps[0] + Spaced(ws[1..], gaps[1..]))
  }

  predicate Solid(w: string) {
    w != "" && forall i :: 0 <= i < |w| ==> w[i] as int !in WHITE
  }

  // Whatever white space is around and between the words of an unquoted value,
  // one space between them is left.
  lemma SpacedValue(a: string, ws: seq<string>, gaps: seq<string>, b: string)
    requires |gaps| + 1 == |ws| && AllWhite(a) && AllWhite(b)
    requires forall i :: 0 <= i < |ws| ==> Solid(ws[i]) && '"' !in ws[i]
    requires forall i :: 0 <= i < |gaps| ==> gaps[i] != "" && AllWhite(gaps[i])
    ensures CanonicalValue(a + Spaced(ws, gaps) + b) == Join(ws, ' ')
  {
    SpacedWords(ws, gaps);
    StripUnique(a, Spaced(ws, gaps), b);
    NoQuote(a);
    NoQuote(b);
  }

  lemma NoQuote(a: string)
    requires AllWhite(a)
    ensures '"' !in a
  {
    forall i | 0 <= i < |a| ensures a[i] != '"' {
      assert a[i] as int in WHITE;
    }
  }

  lemma {:induction false} SpacedWords(ws: seq<string>, gaps: seq<string>)
    requires |gaps| + 1 == |ws|
    requires forall i :: 0 <= i < |ws| ==> Solid(ws[i]) && '"' !in ws[i]
    requires forall i :: 0 <= i < |gaps| ==> gaps[i] != "" && AllWhite(gaps[i])
    ensures var s := Spaced(ws, gaps); Words(s) == ws && s != "" && Bare(s) && '"' !in s
  {
    SolidIsWord(ws[0]);
    if gaps == [] {
      WordsHead(ws[0], []);
      assert ws[0] + [] == ws[0];
      assert ws == [ws[0]];
    } else {
      var rest := Spaced(ws[1..], gaps[1..]);
      SpacedWords(ws[1..], gaps[1..]);
      WordsAfterWhite(gaps[0], rest);
      SpaceIsWhite(gaps[0][0]);
      WordsHead(ws[0], gaps[0] + rest);
      NoQuote(gaps[0]);
      assert ws == [ws[0]] + ws[1..];
      SpacedEnds(ws[0], gaps[0], rest);
    }
  }

  lemma SpacedEnds(w: string, gap: string, rest: string)
    requires Solid(w) && rest != "" && Bare(rest)
    ensures Bare(w + (gap + rest))
  {
    var s := w + (gap + rest);
    assert s[0] == w[0];
    assert s[|s| - 1] == rest[|rest| - 1];
  }

  lemma SolidIsWord(w: string)
    requires Solid(w)
    ensures IsWord(w)
  {
    forall c | c in w ensures !IsSpace(c) {
      SpaceIsWhite(c);
    }
  }

  lemma {:induction false} WordsAfterWhite(a: string, s: string)
    requires AllWhite(a)
    ensures Words(a + s) == Words(s)
  {
    if a == [] {
      assert a + s == s;
    } else {
      SpaceIsWhite(a[0]);
      assert (a + s)[1..] == a[1..] + s;
      WordsAfterWhite(a[1..], s);
    }
  }

  // A value with a quote in it only loses the white space around it, and a
  // name that too, and its capitals.
  lemma QuotedValue(a: string, v: string, b: string)
    requires AllWhite(a) && AllWhite(b) && Bare(v) && '"' in v
    ensures CanonicalValue(a + v + b) == v
  {
    StripUnique(a, v, b);
    assert '"' in a + v + b;
  }

  lemma TrimmedName(a: string, n: string, b: string)
    requires AllWhite(a) && AllWhite(b) && Bare(n)
    ensures CanonicalName(a + n + b) == Lower(n)
  {
    LowerWhite(a);
    LowerWhite(b);
    assert Lower(a + n + b) == a + Lower(n) + b;
    if n != "" {
      LowerSolid(n[0]);
      LowerSolid(n[|n| - 1]);
    }
    StripUnique(a, Lower(n), b);
  }

  lemma LowerSolid(c: char)
    ensures LowerChar(c) as int in WHITE <==> c as int in WHITE
  {}

  lemma LowerWhite(a: string)
    requires AllWhite(a)
    ensures Lower(a) == a
  {
    forall i | 0 <= i < |a| ensures LowerChar(a[i]) == a[i] {
      assert a[i] as int in WHITE;
    }
  }

  // '%s:%s' % (c_name, c_value)
  function LineOf(h: Header): string {
    CanonicalName(h.name) + ":" + CanonicalValue(h.value)
  }

  function NameOf(h: Header): string {
    CanonicalName(h.name)
  }

  function Lines(hs: seq<Header>): seq<string> {
    Map(LineOf, hs)
  }

  function Names(hs: seq<Header>): seq<string> {
    Map(NameOf, hs)
  }

  // HmacAuthV4Handler.canonical_headers
  method CanonicalHeaders(hs: seq<Header>) returns (s: string)
    ensures s == Join(Sort(Lines(hs)), '\n')
  {
    var canonical: seq<string> := [];
    for i := 0 to |hs|
      invariant canonical == Lines(hs[..i])
    {
      canonical := canonical + [CanonicalName(hs[i].name) + ":" + CanonicalValue(hs[i].value)];
      MapPrefix(LineOf, hs, i);
    }
    assert hs[..|hs|] == hs;
    s := Join(Sort(canonical), '\n');
  }

  // HmacAuthV4Handler.signed_headers
  function SignedHeaders(hs: seq<Header>): string {
    Join(Sort(Names(hs)), ';')
  }

  // Both depend only on the collection of headers, not on the dict's order.
  lemma HeadersIgnoreOrder(hs: seq<Header>, gs: seq<Header>)
    requires multiset(hs) == multiset(gs)
    ensures Sort(Lines(hs)) == Sort(Lines(gs)) && SignedHeaders(hs) == SignedHeaders(gs)
  {
    MapKeepsMultiset(LineOf, hs, gs);
    MapKeepsMultiset(NameOf, hs, gs);
    SortIgnoresOrder(Lines(hs), Lines(gs));
    SortIgnoresOrder(Names(hs), Names(gs));
  }

  // The line of a header, whatever its white space.
  lemma HeaderLine(h: Header, a: string, n: string, b: string, c: string, ws: seq<string>, gaps: seq<string>, d: string)
    requires AllWhite(a) && AllWhite(b) && Bare(n) && h.name == a + n + b
    requires |gaps| + 1 == |ws| && AllWhite(c) && AllWhite(d) && h.value == c + Spaced(ws, gaps) + d
    requires forall i :: 0 <= i < |ws| ==> Solid(ws[i]) && '"' !in ws[i]
    requires forall i :: 0 <= i < |gaps| ==> gaps[i] != "" && AllWhite(gaps[i])
    ensures LineOf(h) == Lower(n) + ":" + Join(ws, ' ')
  {
    TrimmedName(a, n, b);
    SpacedValue(c, ws, gaps, d);
  }

  // The canonical names, sorted, with a semicolon between them.
  lemma SignedHeadersAre(hs: seq<Header>)
    requires hs != [] && forall h :: h in hs ==> ';' !in NameOf(h)
    ensures var names := Split(SignedHeaders(hs), ';');
      && multiset(names) == multiset(Names(hs))
      && forall i, j :: 0 <= i < j < |names| ==> Leq(names[i], names[j])
  {
    var names := Sort(Names(hs));
    forall i | 0 <= i < |names| ensures ';' !in names[i] {
      NameIsOfHeader(hs, names[i]);
    }
    SplitOfJoin(names, ';');
    SortSorted(Names(hs));
    forall i, j | 0 <= i < j < |names| ensures Leq(names[i], names[j]) {
      SortedIndices(names, i, j);
    }
  }

  lemma NameIsOfHeader(hs: seq<Header>, name: string)
    requires name in Sort(Names(hs))
    ensures exists h :: h in hs && name == NameOf(h)
  {
    assert name in multiset(Names(hs)) by { assert name in multiset(Sort(Names(hs))); }
    var i :| 0 <= i < |hs| && Names(hs)[i] == name;
    assert hs[i] in hs;
  }

  // The name a canonical line is for: what stands before its first colon.
  function LineName(line: string): string {
    Split(line, ':')[0]
  }

  predicate ColonFree(hs: seq<Header>) {
    forall h :: h in hs ==> ':' !in NameOf(h)
  }

  // a is a proper prefix of b, and b goes on with a character before ':'.
  predicate Overtakes(b: string, a: string) {
    |a| < |b| && b[..|a|] == a && b[|a|] < ':'
  }

  ghost predicate NoneOvertakes(hs: seq<Header>) {
    forall g, h :: g in hs && h in hs ==> !Overtakes(NameOf(g), NameOf(h))
  }

  lemma LineNameOfLine(h: Header)
    requires ':' !in NameOf(h)
    ensures LineName(LineOf(h)) == NameOf(h)
  {
    SplitFirst(NameOf(h), ':', CanonicalValue(h.value));
    assert LineOf(h) == NameOf(h) + [':'] + CanonicalValue(h.value);
  }

  // One step of comparing two strings.
  lemma LeqStep(c: char, s: string, d: char, t: string)
    ensures Leq([c] + s, [d] + t) <==> c < d || (c == d && Leq(s, t))
  {
    assert ([c] + s)[1..] == s && ([d] + t)[1..] == t;
  }

  // How two lines compare, one character of the names at a time.
  predicate LineLeq(a: string, va: string, b: string, vb: string) {
    Leq(a + ([':'] + va), b + ([':'] + vb))
  }

  lemma LineLeqStep(a: string, va: string, b: string, vb: string)
    ensures a == [] && b != [] ==> LineLeq(a, va, b, vb) == (':' < b[0] || (':' == b[0] && Leq(va, b[1..] + ([':'] + vb))))
    ensures a != [] && b == [] ==> LineLeq(a, va, b, vb) == (a[0] < ':' || (a[0] == ':' && Leq(a[1..] + ([':'] + va), vb)))
    ensures a != [] && b != [] ==>
      LineLeq(a, va, b, vb) == (a[0] < b[0] || (a[0] == b[0] && LineLeq(a[1..], va, b[1..], vb)))
  {
    Cons(a, va);
    Cons(b, vb);
    if a == [] && b != [] {
      LeqStep(':', va, b[0], b[1..] + ([':'] + vb));
    } else if a != [] && b == [] {
      LeqStep(a[0], a[1..] + ([':'] + va), ':', vb);
    } else if a != [] {
      LeqStep(a[0], a[1..] + ([':'] + va), b[0], b[1..] + ([':'] + vb));
    }
  }

  lemma Cons(a: string, va: string)
    ensures a == [] ==> a + ([':'] + va) == [':'] + va
    ensures a != [] ==> a + ([':'] + va) == [a[0]] + (a[1..] + ([':'] + va))
  {}

  lemma OvertakesStep(b: string, a: string)
    requires a != [] && b != [] && a[0] == b[0]
    ensures Overtakes(b, a) <==> Overtakes(b[1..], a[1..])
  {
    if |a| < |b| {
      assert b[..|a|] == [b[0]] + b[1..][..|a| - 1];
      assert a == [a[0]] + a[1..];
    }
  }

  // For two different names the lines compare as the names do, except that a
  // name that overtakes another one comes first although it is the longer.
  lemma {:induction false} LinesCompare(a: string, va: string, b: string, vb: string)
    requires ':' !in a && ':' !in b && a != b
    ensures LineLeq(a, va, b, vb) <==> (Leq(a, b) && !Overtakes(b, a)) || Overtakes(a, b)
  {
    LineLeqStep(a, va, b, vb);
    if a == [] {
      assert b[0] in b;
    } else if b == [] {
      assert a[0] in a;
    } else if a[0] == b[0] {
      OvertakesStep(a, b);
      OvertakesStep(b, a);
      assert a == [a[0]] + a[1..] && b == [b[0]] + b[1..];
      LinesCompare(a[1..], va, b[1..], vb);
    }
  }

  lemma HeadersCompare(g: Header, h: Header)
    requires ':' !in NameOf(g) && ':' !in NameOf(h)
    ensures Leq(LineOf(g), LineOf(h)) && !Overtakes(NameOf(g), NameOf(h)) ==> Leq(NameOf(g), NameOf(h))
    ensures Overtakes(NameOf(g), NameOf(h)) ==> !Leq(LineOf(h), LineOf(g)) && !Leq(NameOf(g), NameOf(h))
  {
    var a, va, b, vb := NameOf(g), CanonicalValue(g.value), NameOf(h), CanonicalValue(h.value);
    assert LineOf(g) == a + ([':'] + va) && LineOf(h) == b + ([':'] + vb);
    if a == b {
      LeqTotal(a, b);
    } else {
      LinesCompare(a, va, b, vb);
      LinesCompare(b, vb, a, va);
      PrefixLeq(a, b);
      if Leq(a, b) && Leq(b, a) {
        LeqAntisymmetric(a, b);
      }
    }
  }

  lemma {:induction false} PrefixLeq(b: string, a: string)
    ensures Overtakes(b, a) ==> Leq(a, b)
  {
    if a != [] && Overtakes(b, a) {
      assert a[0] == b[..|a|][0];
      OvertakesStep(b, a);
      PrefixLeq(b[1..], a[1..]);
    }
  }

  // The sorted lines, read as names.
  ghost function LineNames(hs: seq<Header>): seq<string> {
    Map(LineName, Sort(Lines(hs)))
  }

  lemma LineIsOfHeader(hs: seq<Header>, line: string) returns (h: Header)
    requires line in Sort(Lines(hs))
    ensures h in hs && line == LineOf(h)
  {
    assert line in multiset(Lines(hs)) by { assert line in multiset(Sort(Lines(hs))); }
    var i :| 0 <= i < |hs| && Lines(hs)[i] == line;
    h := hs[i];
  }

  lemma SameNames(hs: seq<Header>)
    requires ColonFree(hs)
    ensures multiset(LineNames(hs)) == multiset(Names(hs))
  {
    MapKeepsMultiset(LineName, Sort(Lines(hs)), Lines(hs));
    forall i | 0 <= i < |hs| ensures Map(LineName, Lines(hs))[i] == Names(hs)[i] {
      LineNameOfLine(hs[i]);
    }
    assert Map(LineName, Lines(hs)) == Names(hs);
  }

  // Line i of canonical_headers is the line for name i of signed_headers, for
  // every i, exactly when no signed name overtakes another one.
  lemma HeadersAligned(hs: seq<Header>)
    requires ColonFree(hs)
    ensures LineNames(hs) == Sort(Names(hs)) <==> NoneOvertakes(hs)
  {
    SameNames(hs);
    SortSorted(Names(hs));
    if NoneOvertakes(hs) {
      NamesInOrder(hs);
      SortedUnique(LineNames(hs), Sort(Names(hs)));
    } else {
      var g, h :| g in hs && h in hs && Overtakes(NameOf(g), NameOf(h));
      OutOfOrder(hs, g, h);
    }
  }

  lemma NamesInOrder(hs: seq<Header>)
    requires ColonFree(hs) && NoneOvertakes(hs)
    ensures Sorted(LineNames(hs))
  {
    var ls, ns := Sort(Lines(hs)), LineNames(hs);
    SortSorted(Lines(hs));
    forall i, j | 0 <= i < j < |ns| ensures Leq(ns[i], ns[j]) {
      SortedIndices(ls, i, j);
      var g := LineIsOfHeader(hs, ls[i]);
      var h := LineIsOfHeader(hs, ls[j]);
      HeadersCompare(g, h);
      LineNameOfLine(g);
      LineNameOfLine(h);
    }
    SortedByIndices(ns);
  }

  lemma OutOfOrder(hs: seq<Header>, g: Header, h: Header)
    requires ColonFree(hs) && g in hs && h in hs && Overtakes(NameOf(g), NameOf(h))
    ensures !Sorted(LineNames(hs))
  {
    var i := LinePlace(hs, g);
    var j := LinePlace(hs, h);
    HeadersCompare(g, h);
    if j <= i {
      LinesSorted(hs, j, i);
    } else if Sorted(LineNames(hs)) {
      SortedIndices(LineNames(hs), i, j);
    }
  }

  lemma LinesSorted(hs: seq<Header>, i: nat, j: nat)
    requires i <= j < |hs|
    ensures Leq(Sort(Lines(hs))[i], Sort(Lines(hs))[j])
  {
    SortSorted(Lines(hs));
    if i < j {
      SortedIndices(Sort(Lines(hs)), i, j);
    } else {
      LeqTotal(Sort(Lines(hs))[i], Sort(Lines(hs))[i]);
    }
  }

  lemma LinePlace(hs: seq<Header>, h: Header) returns (i: nat)
    requires h in hs && ':' !in NameOf(h)
    ensures i < |hs| && Sort(Lines(hs))[i] == LineOf(h) && LineNames(hs)[i] == NameOf(h)
  {
    var k :| 0 <= k < |hs| && hs[k] == h;
    assert Lines(hs)[k] in multiset(Lines(hs));
    assert LineOf(h) in multiset(Sort(Lines(hs)));
    i :| 0 <= i < |Sort(Lines(hs))| && Sort(Lines(hs))[i] == LineOf(h);
    LineNameOfLine(h);
  }

  lemma NameOfLower(h: Header)
    requires h.name != [] && forall i :: 0 <= i < |h.name| ==> 'a' <= h.name[i] <= 'z' || h.name[i] == '-'
    ensures NameOf(h) == h.name
  {
    assert Lower(h.name) == h.name;
  }

  // It happens: the line for x-amz-a-b comes before the one for x-amz-a, whose
  // name comes first among the signed headers.
  lemma PrefixNamesMisalign(v: string, w: string)
    ensures var hs := [Header("x-amz-a", v), Header("x-amz-a-b", w)];
      LineNames(hs) != Sort(Names(hs))
  {
    var g, h := Header("x-amz-a", v), Header("x-amz-a-b", w);
    var hs := [g, h];
    NameOfLower(g);
    NameOfLower(h);
    assert "x-amz-a-b"[..7] == "x-amz-a";
    assert Overtakes(NameOf(h), NameOf(g));
    assert g in hs && h in hs;
    HeadersAligned(hs);
  }
}
