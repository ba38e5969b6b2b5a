/** Go string and slice operations that several parts of the server rely on.
    A Go string is modelled as a sequence of chars, one char per byte. */
module Strings {

  datatype Option<+T> = None | Some(value: T)

  //// Searching

  /** Position of the first `c` in `s`, or -1. */
  function IndexByte(s: string, c: char): (i: int)
    ensures -1 <= i < |s|
    ensures i == -1 <==> c !in s
    ensures i >= 0 ==> s[i] == c && c !in s[..i]
  {
    if s == [] then -1
    else if s[0] == c then 0
    else
      var k := IndexByte(s[1..], c);
      if k < 0 then -1 else k + 1
  }

  /** Position of the first occurrence of `sub` in `s`, or -1. */
  function Index(s: string, sub: string): (i: int)
    ensures -1 <= i <= |s|
    ensures i >= 0 ==> i + |sub| <= |s| && s[i..i + |sub|] == sub
  {
    if sub <= s then 0
    else if s == [] then -1
    else
      var k := Index(s[1..], sub);
      if k < 0 then -1 else k + 1
  }

  lemma IndexByteUnique(s: string, c: char, i: nat)
    requires i < |s| && s[i] == c && c !in s[..i]
    ensures IndexByte(s, c) == i
  {
    var k := IndexByte(s, c);
    assert forall j :: 0 <= j < i ==> s[j] in s[..i];
    assert k >= 0;
    assert forall j :: 0 <= j < k ==> s[j] in s[..k];
  }

  //// Splitting and joining

  /** strings.Split with a one-byte separator. */
  function Split(s: string, sep: char): (parts: seq<string>)
    ensures |parts| >= 1
    ensures forall p :: p in parts ==> sep !in p
    decreases |s|
  {
    var i := IndexByte(s, sep);
    if i < 0 then [s] else [s[..i]] + Split(s[i + 1..], sep)
  }

  function Join(parts: seq<string>, sep: string): string {
    if parts == [] then ""
    else if |parts| == 1 then parts[0]
    else parts[0] + sep + Join(parts[1..], sep)
  }

  lemma {:induction false} SplitOfJoin(parts: seq<string>, sep: char)
    requires |parts| >= 1
    requires forall p :: p in parts ==> sep !in p
    ensures Split(Join(parts, [sep]), sep) == parts
  {
    var s := Join(parts, [sep]);
    if |parts| == 1 {
      assert s == parts[0] && parts[0] in parts;
    } else {
      var h, t := parts[0], parts[1..];
      assert s == h + [sep] + Join(t, [sep]);
      assert h in parts;
      assert s[..|h|] == h;
      IndexByteUnique(s, sep, |h|);
      assert s[|h| + 1..] == Join(t, [sep]);
      SplitOfJoin(t, sep);
    }
  }

  function Breaks(s: string, sep: char): nat {
    if s == [] then 0 else (if s[0] == sep then 1 else 0) + Breaks(s[1..], sep)
  }

  lemma {:induction false} BreaksConcat(a: string, b: string, sep: char)
    ensures Breaks(a + b, sep) == Breaks(a, sep) + Breaks(b, sep)
  {
    if a == [] {
      assert a + b == b;
    } else {
      assert (a + b)[1..] == a[1..] + b;
      BreaksConcat(a[1..], b, sep);
    }
  }

  lemma {:induction false} NoBreaks(s: string, sep: char)
    ensures Breaks(s, sep) == 0 <==> sep !in s
  {
    if s != [] {
      NoBreaks(s[1..], sep);
      assert s == [s[0]] + s[1..];
    }
  }

  /** Joined parts have a separator between each two, and those inside the parts. */
  lemma {:induction false} BreaksOfJoin(parts: seq<string>, sep: char)
    requires |parts| >= 1
    ensures Breaks(Join(parts, [sep]), sep) >= |parts| - 1
    ensures Breaks(Join(parts, [sep]), sep) == |parts| - 1 <==> forall p :: p in parts ==> sep !in p
  {
    NoBreaks(parts[0], sep);
    if |parts| > 1 {
      var rest := parts[1..];
      BreaksOfJoin(rest, sep);
      assert parts == [parts[0]] + rest;
      assert Breaks([sep], sep) == 1 by { assert [sep][1..] == []; }
      BreaksConcat(parts[0], [sep], sep);
      BreaksConcat(parts[0] + [sep], Join(rest, [sep]), sep);
      hide Breaks;
      assert (forall p :: p in parts ==> sep !in p) <==> sep !in parts[0] && forall p :: p in rest ==> sep !in p;
    } else {
      assert parts == [parts[0]];
    }
  }

  /** Separator-free parts can be told from any other list of at least as many parts. */
  lemma JoinInjective(a: seq<string>, b: seq<string>, sep: char)
    requires 1 <= |a| <= |b| && (forall p :: p in a ==> sep !in p)
    ensures Join(a, [sep]) == Join(b, [sep]) <==> a == b
  {
    hide Join, Breaks, Split;
    if Join(a, [sep]) == Join(b, [sep]) {
      BreaksOfJoin(a, sep);
      BreaksOfJoin(b, sep);
      SplitOfJoin(a, sep);
      SplitOfJoin(b, sep);
    }
  }

  predicate OneLine(s: string) {
    '\n' !in s
  }

  //// Trimming and letter case (ASCII)

  predicate IsSpace(c: char) {
    c == ' ' || '\t' <= c <= '\r'
  }

  predicate IsQuote(c: char) {
    c == '"'
  }

  /** What hex.EncodeToString writes. */
  predicate IsLowerHexDigit(c: char) {
    '0' <= c <= '9' || 'a' <= c <= 'f'
  }

  predicate IsLowerHex(s: string) {
    s != "" && forall i :: 0 <= i < |s| ==> IsLowerHexDigit(s[i])
  }

  function TrimLeft(s: string, cut: char -> bool): (r: string) {
    if s != [] && cut(s[0]) then TrimLeft(s[1..], cut) else s
  }

  function TrimRight(s: string, cut: char -> bool): (r: string) {
    if s != [] && cut(s[|s| - 1]) then TrimRight(s[..|s| - 1], cut) else s
  }

  function Trim(s: string, cut: char -> bool): string {
    TrimRight(TrimLeft(s, cut), cut)
  }

  function TrimSpace(s: string): string {
    Trim(s, IsSpace)
  }

  lemma TrimUntouched(s: string, cut: char -> bool)
    requires s == [] || (!cut(s[0]) && !cut(s[|s| - 1]))
    ensures Trim(s, cut) == s
  {
  }

  function LowerChar(c: char): char {
    if 'A' <= c <= 'Z' then (c as int + 32) as char else c
  }

  function ToLower(s: string): (r: string)
    ensures |r| == |s|
  {
    if s == [] then [] else [LowerChar(s[0])] + ToLower(s[1..])
  }

  predicate EqualFold(a: string, b: string) {
    ToLower(a) == ToLower(b)
  }

  //// Byte order

  /** The order of Go's `<` on strings. */
  predicate Less(a: string, b: string) {
    if b == [] then false
    else if a == [] then true
    else if a[0] != b[0] then a[0] < b[0]
    else Less(a[1..], b[1..])
  }

  predicate AtMost(a: string, b: string) {
    a == b || Less(a, b)
  }

  lemma LessIrreflexive(a: string)
    ensures !Less(a, a)
  {
  }

  lemma {:induction false} LessTransitive(a: string, b: string, c: string)
    requires Less(a, b) && Less(b, c)
    ensures Less(a, c)
    decreases |a|
  {
    if a != [] && a[0] == b[0] == c[0] {
      LessTransitive(a[1..], b[1..], c[1..]);
    }
  }

  lemma {:induction false} LessTotal(a: string, b: string)
    ensures Less(a, b) || a == b || Less(b, a)
    decreases |a|
  {
    if a != [] && b != [] && a[0] == b[0] {
      LessTotal(a[1..], b[1..]);
      assert a == [a[0]] + a[1..] && b == [b[0]] + b[1..];
    }
  }

  lemma LessAsymmetric(a: string, b: string)
    requires Less(a, b)
    ensures !Less(b, a) && a != b
  {
    LessIrreflexive(a);
    if Less(b, a) { LessTransitive(a, b, a); }
  }

  //// Sorting

  ghost predicate Ordered<T>(s: seq<T>, key: T -> string) {
    forall i, j :: 0 <= i < j < |s| ==> AtMost(key(s[i]), key(s[j]))
  }

  function Insert<T>(x: T, s: seq<T>, key: T -> string): seq<T> {
    if s == [] || !Less(key(s[0]), key(x)) then [x] + s
    else [s[0]] + Insert(x, s[1..], key)
  }

  /** sort.Slice by a string key. Equal keys keep some order; the callers never
      depend on which. */
  function SortBy<T>(s: seq<T>, key: T -> string): seq<T> {
    if s == [] then [] else Insert(s[0], SortBy(s[1..], key), key)
  }

  function Self(s: string): string { s }

  /** sort.Strings. */
  function Sort(s: seq<string>): seq<string> {
    SortBy(s, Self)
  }

  lemma {:induction false} InsertOrdered<T>(x: T, s: seq<T>, key: T -> string)
    requires Ordered(s, key)
    ensures Ordered(Insert(x, s, key), key)
    ensures multiset(Insert(x, s, key)) == multiset(s) + multiset{x}
  {
    if s == [] {
    } else if !Less(key(s[0]), key(x)) {
      LessTotal(key(s[0]), key(x));
      forall j | 0 <= j < |s| ensures AtMost(key(x), key(s[j])) {
        if j > 0 { AtMostTransitive(key(x), key(s[0]), key(s[j])); }
      }
    } else {
      var t := Insert(x, s[1..], key);
      InsertOrdered(x, s[1..], key);
      assert s == [s[0]] + s[1..];
      forall j | 0 <= j < |t| ensures AtMost(key(s[0]), key(t[j])) {
        assert t[j] in multiset(t);
        assert t[j] == x || t[j] in s[1..];
      }
    }
  }

  lemma AtMostTransitive(a: string, b: string, c: string)
    requires AtMost(a, b) && AtMost(b, c)
    ensures AtMost(a, c)
  {
    if Less(a, b) && Less(b, c) { LessTransitive(a, b, c); }
  }

  lemma {:induction false} SortByOrdered<T>(s: seq<T>, key: T -> string)
    ensures Ordered(SortBy(s, key), key)
    ensures multiset(SortBy(s, key)) == multiset(s)
    ensures |SortBy(s, key)| == |s|
  {
    if s != [] {
      SortByOrdered(s[1..], key);
      InsertOrdered(s[0], SortBy(s[1..], key), key);
      assert s == [s[0]] + s[1..];
    }
    assert |multiset(SortBy(s, key))| == |multiset(s)|;
  }

  lemma SmallestFirst(a: seq<string>, b: seq<string>)
    requires Ordered(a, Self) && Ordered(b, Self)
    requires a != [] && b != [] && a[0] in b && b[0] in a
    ensures a[0] == b[0]
  {
    var i :| 0 <= i < |b| && b[i] == a[0];
    var j :| 0 <= j < |a| && a[j] == b[0];
    assert i > 0 ==> AtMost(Self(b[0]), Self(b[i]));
    assert j > 0 ==> AtMost(Self(a[0]), Self(a[j]));
    if Less(a[0], b[0]) { LessAsymmetric(a[0], b[0]); }
  }

  lemma TailMultiset(a: seq<string>)
    requires a != []
    ensures multiset(a) == multiset{a[0]} + multiset(a[1..])
    ensures Ordered(a, Self) ==> Ordered(a[1..], Self)
  {
    assert a == [a[0]] + a[1..];
  }

  /** A sorted list of strings is determined by its elements. */
  lemma {:induction false} SortedUnique(a: seq<string>, b: seq<string>)
    requires Ordered(a, Self) && Ordered(b, Self)
    requires multiset(a) == multiset(b)
    ensures a == b
  {
    hide Ordered;
    assert |a| == |multiset(a)| == |multiset(b)| == |b|;
    if a != [] {
      assert a[0] in multiset(b) && b[0] in multiset(a);
      SmallestFirst(a, b);
      TailMultiset(a);
      TailMultiset(b);
      assert multiset(a[1..]) == multiset(a) - multiset{a[0]} == multiset(b[1..]);
      SortedUnique(a[1..], b[1..]);
      assert a == [a[0]] + a[1..] && b == [b[0]] + b[1..];
    }
  }

  /** Sorting forgets the input order and nothing else. */
  lemma SortCanonical(a: seq<string>, b: seq<string>)
    ensures Sort(a) == Sort(b) <==> multiset(a) == multiset(b)
  {
    SortByOrdered(a, Self);
    SortByOrdered(b, Self);
    if multiset(a) == multiset(b) { SortedUnique(Sort(a), Sort(b)); }
  }

  //// Sorted lists of a set

  /** Some enumeration of a map's keys: Go leaves the order open. */
  ghost function Enumerate(keys: set<string>): (r: seq<string>)
    ensures multiset(r) == multiset(keys)
  {
    if keys == {} then []
    else
      var k :| k in keys;
      assert multiset(keys) == multiset(keys - {k}) + multiset{k};
      [k] + Enumerate(keys - {k})
  }

  ghost predicate Distinct(keys: seq<string>) {
    forall i, j :: 0 <= i < j < |keys| ==> keys[i] != keys[j]
  }

  lemma KeysCanonical(keys: set<string>, r: seq<string>)
    requires multiset(r) == multiset(keys)
    ensures Sort(r) == Sort(Enumerate(keys))
  {
    SortCanonical(r, Enumerate(keys));
  }

  /** Appending the keys of a map or set to a slice, in whatever order they come. */
  method CollectKeys(keys: set<string>) returns (r: seq<string>)
    ensures Sort(r) == Sort(Enumerate(keys))
  {
    r := [];
    var todo := keys;
    while todo != {}
      invariant todo <= keys
      invariant multiset(r) + multiset(todo) == multiset(keys)
      decreases todo
    {
      var k :| k in todo;
      assert multiset(todo) == multiset(todo - {k}) + multiset{k};
      r := r + [k];
      todo := todo - {k};
    }
    KeysCanonical(keys, r);
  }

  lemma {:induction false} DistinctOfSet(keys: seq<string>, s: set<string>)
    requires multiset(keys) == multiset(s)
    ensures Distinct(keys)
  {
    forall i, j | 0 <= i < j < |keys| ensures keys[i] != keys[j] {
      assert keys == keys[..i] + [keys[i]] + keys[i + 1..];
      assert keys[j] in keys[i + 1..];
      assert multiset(keys) == multiset(keys[..i]) + multiset{keys[i]} + multiset(keys[i + 1..]);
      assert multiset(s)[keys[i]] <= 1;
      assert keys[j] in multiset(keys[i + 1..]) && keys[i] !in multiset(keys[i + 1..]);
    }
  }

  lemma SameKeys(a: seq<string>, b: seq<string>)
    requires Ordered(a, Self) && Ordered(b, Self) && Distinct(a) && Distinct(b)
    requires forall k :: k in a <==> k in b
    ensures a == b
  {
    DistinctCounts(a);
    DistinctCounts(b);
    forall k ensures multiset(a)[k] == multiset(b)[k] {}
    assert multiset(a) == multiset(b);
    SortedUnique(a, b);
  }

  lemma {:induction false} DistinctCounts(a: seq<string>)
    requires Distinct(a)
    ensures forall k :: multiset(a)[k] == if k in a then 1 else 0
  {
    if a != [] {
      assert a == [a[0]] + a[1..];
      DistinctCounts(a[1..]);
      assert a[0] !in a[1..];
    }
  }

  ghost function SortedSet(s: set<string>): seq<string> {
    Sort(Enumerate(s))
  }

  lemma SortedSetFacts(s: set<string>)
    ensures Ordered(SortedSet(s), Self) && Distinct(SortedSet(s))
    ensures multiset(SortedSet(s)) == multiset(s)
    ensures forall k :: k in SortedSet(s) <==> k in s
  {
    SortByOrdered(Enumerate(s), Self);
    DistinctOfSet(SortedSet(s), s);
    assert forall k :: k in SortedSet(s) <==> k in multiset(SortedSet(s));
  }

  function Elements(s: seq<string>): set<string> {
    set k | k in s
  }

  lemma {:induction false} DistinctSize(s: seq<string>)
    requires Distinct(s)
    ensures |Elements(s)| == |s|
  {
    if s != [] {
      DistinctSize(s[1..]);
      assert Elements(s) == {s[0]} + Elements(s[1..]) by { assert s == [s[0]] + s[1..]; }
    }
  }
}
