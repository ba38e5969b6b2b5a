/** The canonical query string of internal/auth/sigv4.go, and why signing it
    signs the query: it determines the query, up to the order of a key's values. */
module CanonicalQuery {
  import opened Strings

  type Query = map<string, seq<string>>

  //// Percent-encoding (section 2.1 of RFC 3986)

  /** The unreserved characters of section 2.3 of RFC 3986. */
  predicate IsUnreserved(c: char) {
    'A' <= c <= 'Z' || 'a' <= c <= 'z' || '0' <= c <= '9' || c == '-' || c == '_' || c == '.' || c == '~'
  }

  predicate IsBytes(s: string) {
    forall i :: 0 <= i < |s| ==> s[i] as int < 256
  }

  function UpperHex(d: nat): char
    requires d < 16
  {
    if d < 10 then ('0' as int + d) as char else ('A' as int + d - 10) as char
  }

  function UpperHexValue(c: char): int {
    if '0' <= c <= '9' then c as int - '0' as int
    else if 'A' <= c <= 'F' then c as int - 'A' as int + 10
    else 0
  }

  function EscapeByte(c: char): string {
    if IsUnreserved(c) then [c]
    else ['%', UpperHex(c as int / 16 % 16), UpperHex(c as int % 16)]
  }

  function Escape(s: string): string {
    if s == "" then "" else EscapeByte(s[0]) + Escape(s[1..])
  }

  function Unescape(s: string): string {
    if |s| >= 3 && s[0] == '%' then
      [(UpperHexValue(s[1]) * 16 + UpperHexValue(s[2])) as char] + Unescape(s[3..])
    else if s == "" then ""
    else [s[0]] + Unescape(s[1..])
  }

  lemma EscapeStep(b: string, s: string, i: nat)
    requires i < |s|
    ensures b + Escape(s[i..]) == b + EscapeByte(s[i]) + Escape(s[i + 1..])
  {
    hide EscapeByte;
    assert s[i..][1..] == s[i + 1..];
  }

  /** uriEncodeQuery. */
  method UriEncodeQuery(s: string) returns (b: string)
    ensures b == Escape(s)
  {
    b := "";
    var i := 0;
    while i < |s|
      invariant 0 <= i <= |s|
      invariant b + Escape(s[i..]) == Escape(s)
    {
      var c := s[i];
      EscapeStep(b, s, i);
      if IsUnreserved(c) {
        b := b + [c];
      } else {
        b := b + ['%', UpperHex(c as int / 16 % 16), UpperHex(c as int % 16)];
      }
      i := i + 1;
    }
    assert b + "" == b;
  }

  lemma UnescapeByte(c: char, rest: string)
    requires c as int < 256
    ensures Unescape(EscapeByte(c) + rest) == [c] + Unescape(rest)
  {
    var s := EscapeByte(c) + rest;
    if IsUnreserved(c) {
      assert s[1..] == rest;
    } else {
      assert s[3..] == rest;
      assert UpperHexValue(s[1]) == c as int / 16 && UpperHexValue(s[2]) == c as int % 16;
    }
  }

  lemma {:induction false} UnescapeOfEscape(s: string)
    requires IsBytes(s)
    ensures Unescape(Escape(s)) == s
  {
    if s != "" {
      UnescapeOfEscape(s[1..]);
      UnescapeByte(s[0], Escape(s[1..]));
    }
  }

  lemma {:induction false} EscapeAvoids(s: string, c: char)
    requires !IsUnreserved(c) && c != '%'
    ensures c !in Escape(s)
  {
    if s != "" { EscapeAvoids(s[1..], c); }
  }

  //// The pairs of a query, in canonical order

  ghost function SortedKeys(q: Query): seq<string> {
    Sort(Enumerate(q.Keys))
  }

  function PairsOfKey(k: string, vals: seq<string>): seq<(string, string)> {
    if vals == [] then [] else [(k, vals[0])] + PairsOfKey(k, vals[1..])
  }

  function PairsOfKeys(q: Query, keys: seq<string>): seq<(string, string)> {
    if keys == [] then []
    else PairsOfKey(keys[0], Sort(Values(q, keys[0]))) + PairsOfKeys(q, keys[1..])
  }

  /** q[k], which in Go is empty for a missing key. */
  function Values(q: Query, k: string): seq<string> {
    if k in q then q[k] else []
  }

  ghost function Pairs(q: Query): seq<(string, string)> {
    PairsOfKeys(q, SortedKeys(q))
  }

  function PairText(p: (string, string)): string {
    Escape(p.0) + "=" + Escape(p.1)
  }

  function Texts(ps: seq<(string, string)>): seq<string> {
    if ps == [] then [] else [PairText(ps[0])] + Texts(ps[1..])
  }

  ghost function Canonical(q: Query): string {
    Join(Texts(Pairs(q)), "&")
  }

  lemma {:induction false} TextsConcat(a: seq<(string, string)>, b: seq<(string, string)>)
    ensures Texts(a + b) == Texts(a) + Texts(b)
  {
    if a == [] {
      assert a + b == b;
    } else {
      assert (a + b)[1..] == a[1..] + b;
      TextsConcat(a[1..], b);
    }
  }

  lemma PairsOfKeyStep(k: string, vals: seq<string>, i: nat)
    requires i < |vals|
    ensures PairsOfKey(k, vals[i..]) == [(k, vals[i])] + PairsOfKey(k, vals[i + 1..])
  {
    assert vals[i..][1..] == vals[i + 1..];
  }

  lemma TextsOfKeys(q: Query, keys: seq<string>, i: nat)
    requires i < |keys|
    ensures Texts(PairsOfKeys(q, keys[i..]))
            == Texts(PairsOfKey(keys[i], Sort(Values(q, keys[i])))) + Texts(PairsOfKeys(q, keys[i + 1..]))
  {
    hide SortBy, Texts;
    assert keys[i..][1..] == keys[i + 1..];
    TextsConcat(PairsOfKey(keys[i], Sort(Values(q, keys[i]))), PairsOfKeys(q, keys[i + 1..]));
  }

  /** canonicalQuery. The keys come out of the map in an arbitrary order. */
  method CanonicalQueryString(q: Query) returns (r: string)
    ensures r == Canonical(q)
  {
    hide SortBy;
    if |q| == 0 {
      NoKeys(q);
      return "";
    }
    var keys := CollectKeys(q.Keys);
    keys := Sort(keys);
    KeysSorted(q);
    var parts := TextsOfSorted(q, keys);
    r := Join(parts, "&");
  }

  lemma NoKeys(q: Query)
    requires |q| == 0
    ensures Canonical(q) == ""
  {
    assert q.Keys == {};
  }

  method TextsOfSorted(q: Query, keys: seq<string>) returns (parts: seq<string>)
    requires forall k :: k in keys ==> k in q
    ensures parts == Texts(PairsOfKeys(q, keys))
  {
    hide SortBy, Texts, PairsOfKeys;
    parts := [];
    var i := 0;
    assert keys[0..] == keys;
    while i < |keys|
      invariant 0 <= i <= |keys|
      invariant parts + Texts(PairsOfKeys(q, keys[i..])) == Texts(PairsOfKeys(q, keys))
    {
      var k := keys[i];
      TextsOfKeys(q, keys, i);
      var more := PartsOfKey(k, q[k]);
      ghost var rest := Texts(PairsOfKeys(q, keys[i + 1..]));
      assert parts + (more + rest) == (parts + more) + rest;
      parts := parts + more;
      i := i + 1;
    }
    NoTexts(q, keys[|keys|..]);
    assert parts + [] == parts;
  }

  lemma NoTexts(q: Query, keys: seq<string>)
    requires keys == []
    ensures Texts(PairsOfKeys(q, keys)) == []
  {
  }

  lemma KeysSorted(q: Query)
    ensures forall k :: k in SortedKeys(q) <==> k in q
    ensures Ordered(SortedKeys(q), Self)
    ensures multiset(SortedKeys(q)) == multiset(q.Keys)
  {
    SortByOrdered(Enumerate(q.Keys), Self);
    assert forall k :: k in SortedKeys(q) <==> k in multiset(SortedKeys(q));
  }

  /** The inner loop of canonicalQuery over one key's sorted values. */
  method PartsOfKey(k: string, values: seq<string>) returns (parts: seq<string>)
    ensures parts == Texts(PairsOfKey(k, Sort(values)))
  {
    var vals := Sort(values);
    parts := [];
    var i := 0;
    while i < |vals|
      invariant 0 <= i <= |vals|
      invariant parts + Texts(PairsOfKey(k, vals[i..])) == Texts(PairsOfKey(k, vals))
    {
      PairsOfKeyStep(k, vals, i);
      var ek := UriEncodeQuery(k);
      var ev := UriEncodeQuery(vals[i]);
      ghost var rest := PairsOfKey(k, vals[i + 1..]);
      assert ([(k, vals[i])] + rest)[1..] == rest;
      assert parts + ([PairText((k, vals[i]))] + Texts(rest)) == (parts + [PairText((k, vals[i]))]) + Texts(rest);
      parts := parts + [ek + "=" + ev];
      i := i + 1;
    }
    assert vals[|vals|..] == [];
    assert parts + [] == parts;
  }

  //// Reading the string back

  function DecodePart(s: string): (string, string) {
    var i := IndexByte(s, '=');
    if i < 0 then (Unescape(s), "") else (Unescape(s[..i]), Unescape(s[i + 1..]))
  }

  function DecodeParts(ps: seq<string>): seq<(string, string)> {
    if ps == [] then [] else [DecodePart(ps[0])] + DecodeParts(ps[1..])
  }

  function DecodeQuery(s: string): seq<(string, string)> {
    if s == "" then [] else DecodeParts(Split(s, '&'))
  }

  predicate BytePairs(ps: seq<(string, string)>) {
    forall i :: 0 <= i < |ps| ==> IsBytes(ps[i].0) && IsBytes(ps[i].1)
  }

  lemma DecodePairText(p: (string, string))
    requires IsBytes(p.0) && IsBytes(p.1)
    ensures DecodePart(PairText(p)) == p
    ensures '&' !in PairText(p) && PairText(p) != ""
  {
    hide Unescape;
    var k, v := Escape(p.0), Escape(p.1);
    var s := k + "=" + v;
    EscapeAvoids(p.0, '=');
    EscapeAvoids(p.0, '&');
    EscapeAvoids(p.1, '&');
    assert s[..|k|] == k;
    IndexByteUnique(s, '=', |k|);
    assert s[|k| + 1..] == v;
    UnescapeOfEscape(p.0);
    UnescapeOfEscape(p.1);
  }

  lemma {:induction false} DecodeTexts(ps: seq<(string, string)>)
    requires BytePairs(ps)
    ensures DecodeParts(Texts(ps)) == ps
    ensures |Texts(ps)| == |ps|
    ensures forall t :: t in Texts(ps) ==> '&' !in t && t != ""
  {
    hide DecodePart, PairText;
    if ps != [] {
      DecodePairText(ps[0]);
      DecodeTexts(ps[1..]);
      assert Texts(ps)[1..] == Texts(ps[1..]);
      assert ps == [ps[0]] + ps[1..];
    }
  }

  lemma JoinNonEmpty(parts: seq<string>)
    requires parts != [] && parts[0] != ""
    ensures Join(parts, "&") != ""
  {
  }

  lemma DecodeJoined(ps: seq<(string, string)>)
    requires BytePairs(ps)
    ensures DecodeQuery(Join(Texts(ps), "&")) == ps
  {
    hide DecodeParts, Split;
    DecodeTexts(ps);
    if ps != [] {
      JoinNonEmpty(Texts(ps));
      SplitOfJoin(Texts(ps), '&');
    }
  }

  //// Injectivity

  predicate ByteQuery(q: Query) {
    forall k :: k in q ==> IsBytes(k) && forall i :: 0 <= i < |q[k]| ==> IsBytes(q[k][i])
  }

  lemma {:induction false} BytePairsOfKey(k: string, vals: seq<string>)
    requires IsBytes(k) && forall v :: v in vals ==> IsBytes(v)
    ensures BytePairs(PairsOfKey(k, vals))
  {
    if vals != [] { BytePairsOfKey(k, vals[1..]); }
  }

  lemma {:induction false} BytePairsOfKeys(q: Query, keys: seq<string>)
    requires ByteQuery(q) && forall k :: k in keys ==> k in q
    ensures BytePairs(PairsOfKeys(q, keys))
  {
    hide SortBy;
    if keys != [] {
      var k := keys[0];
      SortByOrdered(q[k], Self);
      forall v | v in Sort(q[k]) ensures IsBytes(v) {
        assert v in multiset(Sort(q[k]));
        assert v in q[k];
      }
      BytePairsOfKey(k, Sort(q[k]));
      BytePairsOfKeys(q, keys[1..]);
    }
  }

  /** The canonical string decodes to the query's sorted pairs. */
  lemma DecodeCanonical(q: Query)
    requires ByteQuery(q)
    ensures DecodeQuery(Canonical(q)) == Pairs(q)
  {
    hide DecodeQuery, Join, SortBy;
    KeysSorted(q);
    BytePairsOfKeys(q, SortedKeys(q));
    DecodeJoined(Pairs(q));
  }

  function ValuesIn(ps: seq<(string, string)>, k: string): seq<string> {
    if ps == [] then []
    else (if ps[0].0 == k then [ps[0].1] else []) + ValuesIn(ps[1..], k)
  }

  lemma {:induction false} ValuesInConcat(a: seq<(string, string)>, b: seq<(string, string)>, k: string)
    ensures ValuesIn(a + b, k) == ValuesIn(a, k) + ValuesIn(b, k)
  {
    if a == [] {
      assert a + b == b;
    } else {
      assert (a + b)[1..] == a[1..] + b;
      ValuesInConcat(a[1..], b, k);
    }
  }

  lemma {:induction false} ValuesInOfKey(k: string, vals: seq<string>, k': string)
    ensures ValuesIn(PairsOfKey(k, vals), k') == if k == k' then vals else []
  {
    if vals != [] {
      ValuesInOfKey(k, vals[1..], k');
      assert PairsOfKey(k, vals)[1..] == PairsOfKey(k, vals[1..]);
      assert vals == [vals[0]] + vals[1..];
    }
  }

  lemma {:induction false} ValuesInOfKeys(q: Query, keys: seq<string>, k: string)
    requires Distinct(keys)
    ensures ValuesIn(PairsOfKeys(q, keys), k) == if k in keys then Sort(Values(q, k)) else []
  {
    hide SortBy;
    if keys != [] {
      var h, t := keys[0], keys[1..];
      ValuesInConcat(PairsOfKey(h, Sort(Values(q, h))), PairsOfKeys(q, t), k);
      ValuesInOfKey(h, Sort(Values(q, h)), k);
      ValuesInOfKeys(q, t, k);
      assert keys == [h] + t;
    }
  }

  /** The values of a key can be read off the pairs. */
  lemma PairsDetermine(q: Query, k: string)
    ensures ValuesIn(Pairs(q), k) == Sort(Values(q, k))
  {
    hide SortBy;
    KeysSorted(q);
    DistinctOfSet(SortedKeys(q), q.Keys);
    ValuesInOfKeys(q, SortedKeys(q), k);
    if k !in q { SortEmpty(); }
  }

  lemma SortEmpty()
    ensures Sort([]) == []
  {
  }

  function Used(q: Query, keys: seq<string>): seq<string> {
    if keys == [] then []
    else (if Values(q, keys[0]) != [] then [keys[0]] else []) + Used(q, keys[1..])
  }

  lemma {:induction false} UsedElements(q: Query, keys: seq<string>)
    ensures forall k :: k in Used(q, keys) <==> k in keys && Values(q, k) != []
  {
    if keys != [] {
      UsedElements(q, keys[1..]);
      assert keys == [keys[0]] + keys[1..];
    }
  }

  lemma {:induction false} UsedPairs(q: Query, keys: seq<string>)
    ensures PairsOfKeys(q, Used(q, keys)) == PairsOfKeys(q, keys)
  {
    hide SortBy;
    if keys != [] {
      var h, t := keys[0], keys[1..];
      UsedPairs(q, t);
      if Values(q, h) != [] {
        assert Used(q, keys)[1..] == Used(q, t);
      } else {
        SortEmpty();
        assert Used(q, keys) == Used(q, t);
      }
    }
  }

  lemma {:induction false} UsedOrdered(q: Query, keys: seq<string>)
    requires Ordered(keys, Self) && Distinct(keys)
    ensures Ordered(Used(q, keys), Self) && Distinct(Used(q, keys))
  {
    if keys != [] {
      var h, t := keys[0], keys[1..];
      UsedOrdered(q, t);
      UsedElements(q, t);
      var u := Used(q, t);
      forall j | 0 <= j < |u| ensures AtMost(Self(h), Self(u[j])) && h != u[j] {
        assert u[j] in t;
      }
    }
  }

  lemma {:induction false} SamePairs(q: Query, r: Query, keys: seq<string>)
    requires forall k :: multiset(Values(q, k)) == multiset(Values(r, k))
    ensures PairsOfKeys(q, keys) == PairsOfKeys(r, keys)
  {
    hide SortBy;
    if keys != [] {
      SortCanonical(Values(q, keys[0]), Values(r, keys[0]));
      SamePairs(q, r, keys[1..]);
    }
  }

  /** The keys that contribute to the canonical string, in order. */
  lemma UsedSorted(q: Query) returns (used: seq<string>)
    ensures Ordered(used, Self) && Distinct(used)
    ensures forall k :: k in used <==> Values(q, k) != []
    ensures Pairs(q) == PairsOfKeys(q, used)
  {
    hide SortBy, PairsOfKeys, Used, Ordered, Distinct;
    var keys := SortedKeys(q);
    KeysSorted(q);
    DistinctOfSet(keys, q.Keys);
    UsedElements(q, keys);
    UsedPairs(q, keys);
    UsedOrdered(q, keys);
    used := Used(q, keys);
  }

  lemma SameValuesSamePairs(q: Query, r: Query)
    requires forall k :: multiset(Values(q, k)) == multiset(Values(r, k))
    ensures Pairs(q) == Pairs(r)
  {
    hide SortBy, PairsOfKeys, Pairs, Ordered, Distinct;
    var a := UsedSorted(q);
    var b := UsedSorted(r);
    forall k ensures k in a <==> k in b {
      assert |multiset(Values(q, k))| == |multiset(Values(r, k))|;
    }
    SameKeys(a, b);
    SamePairs(q, r, a);
  }

  /** Two queries have the same canonical string exactly when every key has the
      same multiset of values. A key with no values counts as absent. */
  lemma CanonicalInjective(q: Query, r: Query)
    requires ByteQuery(q) && ByteQuery(r)
    ensures Canonical(q) == Canonical(r) <==> forall k :: multiset(Values(q, k)) == multiset(Values(r, k))
  {
    hide SortBy, Pairs;
    if Canonical(q) == Canonical(r) {
      DecodeCanonical(q);
      DecodeCanonical(r);
      forall k ensures multiset(Values(q, k)) == multiset(Values(r, k)) {
        PairsDetermine(q, k);
        PairsDetermine(r, k);
        SortCanonical(Values(q, k), Values(r, k));
      }
    } else if forall k :: multiset(Values(q, k)) == multiset(Values(r, k)) {
      SameValuesSamePairs(q, r);
    }
  }
}
