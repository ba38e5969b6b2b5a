/** Conversions between bytes and integers. */
module UlidBits {
  lemma RoundTrip(x: int)
    requires 0 <= x < 256
    ensures x as bv8 as int == x
  {
  }
}

/** The ULID encoder of internal/events/event.go: 128 bits as 26 base-32 digits. */
module Ulid {
  import Strings
  import UlidBits

  const CROCKFORD := "0123456789ABCDEFGHJKMNPQRSTVWXYZ"

  //// Positional numerals, most significant digit first

  function Pow(base: nat, n: nat): nat {
    if n == 0 then 1 else base * Pow(base, n - 1)
  }

  ghost predicate DigitsOf(base: nat, ds: seq<nat>) {
    forall i :: 0 <= i < |ds| ==> ds[i] < base
  }

  function Value(base: nat, ds: seq<nat>): nat {
    if ds == [] then 0 else ds[0] * Pow(base, |ds| - 1) + Value(base, ds[1..])
  }

  ghost predicate LexLess(a: seq<nat>, b: seq<nat>) {
    if b == [] then false
    else if a == [] then true
    else if a[0] != b[0] then a[0] < b[0]
    else LexLess(a[1..], b[1..])
  }

  lemma LeadingDigit(x: nat, y: nat, p: nat, r: nat, s: nat)
    requires x < y && r < p
    ensures x * p + r < y * p + s
  {
    assert (x + 1) * p <= y * p;
  }

  lemma {:induction false} ValueBound(base: nat, ds: seq<nat>)
    requires DigitsOf(base, ds)
    ensures Value(base, ds) < Pow(base, |ds|)
  {
    if ds != [] {
      var t := ds[1..];
      ValueBound(base, t);
      LeadingDigit(ds[0], base, Pow(base, |t|), Value(base, t), 0);
    }
  }

  /** Same-length numerals compare digit by digit as their values compare. */
  lemma {:induction false} LexIsNumeric(base: nat, a: seq<nat>, b: seq<nat>)
    requires |a| == |b| && DigitsOf(base, a) && DigitsOf(base, b)
    ensures LexLess(a, b) <==> Value(base, a) < Value(base, b)
    decreases |a|
  {
    if a != [] {
      var p, ta, tb := Pow(base, |a| - 1), a[1..], b[1..];
      ValueBound(base, ta);
      ValueBound(base, tb);
      if a[0] < b[0] {
        LeadingDigit(a[0], b[0], p, Value(base, ta), Value(base, tb));
      } else if b[0] < a[0] {
        LeadingDigit(b[0], a[0], p, Value(base, tb), Value(base, ta));
      } else {
        LexIsNumeric(base, ta, tb);
      }
    }
  }

  lemma {:induction false} ValueInjective(base: nat, a: seq<nat>, b: seq<nat>)
    requires |a| == |b| && DigitsOf(base, a) && DigitsOf(base, b)
    requires Value(base, a) == Value(base, b)
    ensures a == b
    decreases |a|
  {
    if a != [] {
      var p, ta, tb := Pow(base, |a| - 1), a[1..], b[1..];
      ValueBound(base, ta);
      ValueBound(base, tb);
      if a[0] < b[0] {
        LeadingDigit(a[0], b[0], p, Value(base, ta), Value(base, tb));
      } else if b[0] < a[0] {
        LeadingDigit(b[0], a[0], p, Value(base, tb), Value(base, ta));
      }
      ValueInjective(base, ta, tb);
      assert a == [a[0]] + ta && b == [b[0]] + tb;
    }
  }

  lemma Associate(x: nat, y: nat, z: nat)
    ensures x * (y * z) == (x * y) * z
  {
  }

  lemma {:induction false} PowAdd(base: nat, m: nat, n: nat)
    ensures Pow(base, m + n) == Pow(base, m) * Pow(base, n)
    decreases m
  {
    if m > 0 {
      PowAdd(base, m - 1, n);
      Associate(base, Pow(base, m - 1), Pow(base, n));
    }
  }

  lemma Distribute(x: nat, p: nat, v: nat, q: nat)
    ensures (x * p + v) * q == x * (p * q) + v * q
  {
  }

  lemma {:induction false} ValueConcat(base: nat, a: seq<nat>, b: seq<nat>)
    ensures Value(base, a + b) == Value(base, a) * Pow(base, |b|) + Value(base, b)
    decreases |a|
  {
    if a == [] {
      assert a + b == b;
    } else {
      var s := a + b;
      var p, q, v := Pow(base, |a| - 1), Pow(base, |b|), Value(base, a[1..]);
      assert s[1..] == a[1..] + b;
      ValueConcat(base, a[1..], b);
      PowAdd(base, |a| - 1, |b|);
      assert Value(base, s) == a[0] * Pow(base, |a| - 1 + |b|) + Value(base, s[1..]);
      Distribute(a[0], p, v, q);
    }
  }

  //// The encoding, as the ULID specification gives it

  function ByteValues(id: seq<bv8>): seq<nat> {
    seq(|id|, i requires 0 <= i < |id| => id[i] as nat)
  }

  function Symbol(d: nat): char
    requires d < 32
  {
    CROCKFORD[d]
  }

  function Symbols(ds: seq<nat>): string
    requires DigitsOf(32, ds)
  {
    seq(|ds|, i requires 0 <= i < |ds| => Symbol(ds[i]))
  }

  function Numeral(base: nat, len: nat, n: nat): (ds: seq<nat>)
    requires base > 0
    ensures |ds| == len && DigitsOf(base, ds)
  {
    if len == 0 then [] else Numeral(base, len - 1, n / base) + [n % base]
  }

  lemma ValueSnoc(base: nat, ds: seq<nat>, d: nat)
    ensures Value(base, ds + [d]) == Value(base, ds) * base + d
  {
    ValueConcat(base, ds, [d]);
    assert [d][1..] == [] && Pow(base, 0) == 1 && Pow(base, 1) == base * Pow(base, 0);
  }

  lemma {:induction false} ValueOfNumeral(base: nat, len: nat, n: nat)
    requires base > 0 && n < Pow(base, len)
    ensures Value(base, Numeral(base, len, n)) == n
    decreases len
  {
    if len > 0 {
      var q, r := n / base, n % base;
      Quotient(n, base, Pow(base, len - 1));
      ValueOfNumeral(base, len - 1, q);
      ValueSnoc(base, Numeral(base, len - 1, q), r);
    }
  }

  lemma Quotient(n: nat, base: nat, p: nat)
    requires base > 0 && n < base * p
    ensures n / base < p && n / base * base + n % base == n
  {
  }

  /** The 26 base-32 digits of the 128-bit number the bytes spell. */
  function Encode(id: seq<bv8>): string {
    Symbols(Numeral(32, 26, Value(256, ByteValues(id))))
  }

  //// The hand-unrolled encoder

  // The parts of one byte between digit boundaries.

  function Part(b: bv8, mask: bv8, shift: nat): nat
    requires shift < 8
  {
    ((b & mask) >> shift) as nat
  }

  // The digits that take their bits from two bytes.

  function Digit32(a: bv8, b: bv8): nat { (((a & 7) << 2) | ((b & 192) >> 6)) as nat }
  function Digit14(a: bv8, b: bv8): nat { (((a & 1) << 4) | ((b & 240) >> 4)) as nat }
  function Digit41(a: bv8, b: bv8): nat { (((a & 15) << 1) | ((b & 128) >> 7)) as nat }
  function Digit23(a: bv8, b: bv8): nat { (((a & 3) << 3) | ((b & 224) >> 5)) as nat }

  lemma Split53(b: bv8)
    ensures b as nat == 8 * Part(b, 248, 3) + Part(b, 7, 0)
  {
  }

  lemma Split251(b: bv8)
    ensures b as nat == 64 * Part(b, 192, 6) + 2 * Part(b, 62, 1) + Part(b, 1, 0)
  {
  }

  lemma Split44(b: bv8)
    ensures b as nat == 16 * Part(b, 240, 4) + Part(b, 15, 0)
  {
  }

  lemma Split152(b: bv8)
    ensures b as nat == 128 * Part(b, 128, 7) + 4 * Part(b, 124, 2) + Part(b, 3, 0)
  {
  }

  lemma Split35(b: bv8)
    ensures b as nat == 32 * Part(b, 224, 5) + Part(b, 31, 0)
  {
  }

  lemma Join32(a: bv8, b: bv8)
    ensures Digit32(a, b) == 4 * Part(a, 7, 0) + Part(b, 192, 6)
  {
    JoinShifted2(a & 7, (b & 192) >> 6);
  }

  lemma JoinShifted2(x: bv8, y: bv8)
    requires x < 8 && y < 4
    ensures ((x << 2) | y) as nat == 4 * (x as nat) + y as nat
  {
  }

  lemma Join14(a: bv8, b: bv8)
    ensures Digit14(a, b) == 16 * Part(a, 1, 0) + Part(b, 240, 4)
  {
    JoinShifted4(a & 1, (b & 240) >> 4);
  }

  lemma JoinShifted4(x: bv8, y: bv8)
    requires x < 2 && y < 16
    ensures ((x << 4) | y) as nat == 16 * (x as nat) + y as nat
  {
  }

  lemma Join41(a: bv8, b: bv8)
    ensures Digit41(a, b) == 2 * Part(a, 15, 0) + Part(b, 128, 7)
  {
    JoinShifted1(a & 15, (b & 128) >> 7);
  }

  lemma JoinShifted1(x: bv8, y: bv8)
    requires x < 16 && y < 2
    ensures ((x << 1) | y) as nat == 2 * (x as nat) + y as nat
  {
  }

  lemma Join23(a: bv8, b: bv8)
    ensures Digit23(a, b) == 8 * Part(a, 3, 0) + Part(b, 224, 5)
  {
    JoinShifted3(a & 3, (b & 224) >> 5);
  }

  lemma JoinShifted3(x: bv8, y: bv8)
    requires x < 4 && y < 8
    ensures ((x << 3) | y) as nat == 8 * (x as nat) + y as nat
  {
  }

  /** The eight digits that five bytes fill. */
  function Group(a: bv8, b: bv8, c: bv8, d: bv8, e: bv8): seq<nat> {
    [Part(a, 248, 3), Digit32(a, b), Part(b, 62, 1), Digit14(b, c),
     Digit41(c, d), Part(d, 124, 2), Digit23(d, e), Part(e, 31, 0)]
  }

  lemma ValueOfFive(x: nat, y: nat, z: nat, u: nat, v: nat)
    ensures Value(256, [x, y, z, u, v]) == (((x * 256 + y) * 256 + z) * 256 + u) * 256 + v
  {
    assert [x, y, z, u, v] == [] + [x] + [y] + [z] + [u] + [v];
    ValueSnoc(256, [], x);
    ValueSnoc(256, [] + [x], y);
    ValueSnoc(256, [] + [x] + [y], z);
    ValueSnoc(256, [] + [x] + [y] + [z], u);
    ValueSnoc(256, [] + [x] + [y] + [z] + [u], v);
  }

  lemma ValueOfEight(p: nat, q: nat, r: nat, s: nat, t: nat, u: nat, v: nat, w: nat)
    ensures Value(32, [p, q, r, s, t, u, v, w])
            == ((((((p * 32 + q) * 32 + r) * 32 + s) * 32 + t) * 32 + u) * 32 + v) * 32 + w
  {
    var ds := [p, q, r, s, t, u, v, w];
    assert ds == [] + [p] + [q] + [r] + [s] + [t] + [u] + [v] + [w];
    ValueSnoc(32, [], p);
    ValueSnoc(32, [] + [p], q);
    ValueSnoc(32, [] + [p] + [q], r);
    ValueSnoc(32, [] + [p] + [q] + [r], s);
    ValueSnoc(32, [] + [p] + [q] + [r] + [s], t);
    ValueSnoc(32, [] + [p] + [q] + [r] + [s] + [t], u);
    ValueSnoc(32, [] + [p] + [q] + [r] + [s] + [t] + [u], v);
    ValueSnoc(32, [] + [p] + [q] + [r] + [s] + [t] + [u] + [v], w);
  }

  lemma Regroup(a1: nat, a2: nat, b1: nat, b2: nat, b3: nat, c1: nat, c2: nat,
                d1: nat, d2: nat, d3: nat, e1: nat, e2: nat)
    ensures Value(32, [a1, 4 * a2 + b1, b2, 16 * b3 + c1, 2 * c2 + d1, d2, 8 * d3 + e1, e2])
            == Value(256, [8 * a1 + a2, 64 * b1 + 2 * b2 + b3, 16 * c1 + c2, 128 * d1 + 4 * d2 + d3, 32 * e1 + e2])
  {
    hide Value;
    ValueOfEight(a1, 4 * a2 + b1, b2, 16 * b3 + c1, 2 * c2 + d1, d2, 8 * d3 + e1, e2);
    ValueOfFive(8 * a1 + a2, 64 * b1 + 2 * b2 + b3, 16 * c1 + c2, 128 * d1 + 4 * d2 + d3, 32 * e1 + e2);
  }

  /** Five bytes and their eight digits are the same number. */
  lemma GroupValue(a: bv8, b: bv8, c: bv8, d: bv8, e: bv8)
    ensures Value(32, Group(a, b, c, d, e)) == Value(256, [a as nat, b as nat, c as nat, d as nat, e as nat])
  {
    hide Value, Part, Digit32, Digit14, Digit41, Digit23;
    Split53(a); Split251(b); Split44(c); Split152(d); Split35(e);
    Join32(a, b); Join14(b, c); Join41(c, d); Join23(d, e);
    Regroup(Part(a, 248, 3), Part(a, 7, 0), Part(b, 192, 6), Part(b, 62, 1), Part(b, 1, 0), Part(c, 240, 4),
            Part(c, 15, 0), Part(d, 128, 7), Part(d, 124, 2), Part(d, 3, 0), Part(e, 224, 5), Part(e, 31, 0));
  }

  lemma PartBounds(b: bv8)
    ensures Part(b, 248, 3) < 32 && Part(b, 62, 1) < 32 && Part(b, 124, 2) < 32 && Part(b, 31, 0) < 32
    ensures Part(b, 224, 5) < 32
  {
    assert (b & 248) >> 3 < 32 && (b & 62) >> 1 < 32 && (b & 124) >> 2 < 32;
    assert (b & 31) >> 0 < 32 && (b & 224) >> 5 < 32;
  }

  lemma DigitBounds(a: bv8, b: bv8)
    ensures Digit32(a, b) < 32 && Digit14(a, b) < 32 && Digit41(a, b) < 32 && Digit23(a, b) < 32
  {
    assert ((a & 7) << 2) | ((b & 192) >> 6) < 32;
    assert ((a & 1) << 4) | ((b & 240) >> 4) < 32;
    assert ((a & 15) << 1) | ((b & 128) >> 7) < 32;
    assert ((a & 3) << 3) | ((b & 224) >> 5) < 32;
  }

  lemma GroupBounds(a: bv8, b: bv8, c: bv8, d: bv8, e: bv8)
    ensures DigitsOf(32, Group(a, b, c, d, e))
  {
    hide Part, Digit32, Digit14, Digit41, Digit23;
    PartBounds(a); PartBounds(b); PartBounds(d); PartBounds(e);
    DigitBounds(a, b); DigitBounds(b, c); DigitBounds(c, d); DigitBounds(d, e);
  }

  function GroupAt(id: seq<bv8>, i: nat): seq<nat>
    requires i + 5 <= |id|
  {
    Group(id[i], id[i + 1], id[i + 2], id[i + 3], id[i + 4])
  }

  /** The encoder's 26 digits. */
  function Digits(id: seq<bv8>): (ds: seq<nat>)
    requires |id| == 16
    ensures |ds| == 26 && DigitsOf(32, ds)
  {
    GroupBounds(id[1], id[2], id[3], id[4], id[5]);
    GroupBounds(id[6], id[7], id[8], id[9], id[10]);
    GroupBounds(id[11], id[12], id[13], id[14], id[15]);
    PartBounds(id[0]);
    [Part(id[0], 224, 5), Part(id[0], 31, 0)] + GroupAt(id, 1) + GroupAt(id, 6) + GroupAt(id, 11)
  }

  lemma HeadValue(b: bv8)
    ensures Value(32, [Part(b, 224, 5), Part(b, 31, 0)]) == Value(256, [b as nat])
  {
    hide Part, Value;
    var x, y := Part(b, 224, 5), Part(b, 31, 0);
    assert Value(32, []) == 0 && Value(256, []) == 0 by { ValueEmpty(32); ValueEmpty(256); }
    ValueSnoc(32, [], x);
    ValueSnoc(32, [] + [x], y);
    ValueSnoc(256, [], b as nat);
    assert [] + [x] + [y] == [x, y] && [] + [b as nat] == [b as nat];
    Split35(b);
  }

  lemma ValueEmpty(base: nat)
    ensures Value(base, []) == 0
  {
  }

  lemma PowersAgree()
    ensures Pow(32, 8) == Pow(256, 5) == 0x100_0000_0000
  {
    assert Pow(32, 4) == 0x10_0000 by { assert Pow(32, 2) == 1024; PowAdd(32, 2, 2); }
    PowAdd(32, 4, 4);
    assert Pow(256, 2) == 0x1_0000 by { assert Pow(256, 1) == 256; PowAdd(256, 1, 1); }
    PowAdd(256, 2, 2);
    PowAdd(256, 4, 1);
  }

  lemma AppendGroup(ds: seq<nat>, bytes: seq<nat>, a: bv8, b: bv8, c: bv8, d: bv8, e: bv8)
    requires Value(32, ds) == Value(256, bytes)
    ensures Value(32, ds + Group(a, b, c, d, e))
            == Value(256, bytes + [a as nat, b as nat, c as nat, d as nat, e as nat])
  {
    hide Value, Part, Digit32, Digit14, Digit41, Digit23;
    PowersAgree();
    GroupValue(a, b, c, d, e);
    ValueConcat(32, ds, Group(a, b, c, d, e));
    ValueConcat(256, bytes, [a as nat, b as nat, c as nat, d as nat, e as nat]);
  }

  /** The encoder changes the base and nothing else. */
  lemma DigitsValue(id: seq<bv8>)
    requires |id| == 16
    ensures Value(32, Digits(id)) == Value(256, ByteValues(id))
  {
    hide Value, Part, Group;
    var d0, b0 := [Part(id[0], 224, 5), Part(id[0], 31, 0)], [id[0] as nat];
    HeadValue(id[0]);
    AppendGroup(d0, b0, id[1], id[2], id[3], id[4], id[5]);
    var d1, b1 := d0 + GroupAt(id, 1), b0 + [id[1] as nat, id[2] as nat, id[3] as nat, id[4] as nat, id[5] as nat];
    AppendGroup(d1, b1, id[6], id[7], id[8], id[9], id[10]);
    var d2, b2 := d1 + GroupAt(id, 6), b1 + [id[6] as nat, id[7] as nat, id[8] as nat, id[9] as nat, id[10] as nat];
    AppendGroup(d2, b2, id[11], id[12], id[13], id[14], id[15]);
    var b3 := b2 + [id[11] as nat, id[12] as nat, id[13] as nat, id[14] as nat, id[15] as nat];
    assert ByteValues(id) == b3;
  }

  lemma EncodedValue(id: seq<bv8>)
    requires |id| == 16
    ensures Value(256, ByteValues(id)) < Pow(32, 26)
    ensures Numeral(32, 26, Value(256, ByteValues(id))) == Digits(id)
  {
    hide Value, Part, Pow, Digits, Numeral;
    var n := Value(256, ByteValues(id));
    DigitsValue(id);
    ValueBound(32, Digits(id));
    ValueOfNumeral(32, 26, n);
    ValueInjective(32, Numeral(32, 26, n), Digits(id));
  }

  lemma DigitAt0(id: seq<bv8>)
    requires |id| == 16
    ensures var ds := Digits(id);
            && ds[0] == Part(id[0], 224, 5)
            && ds[1] == Part(id[0], 31, 0)
            && ds[2] == Part(id[1], 248, 3)
            && ds[3] == Digit32(id[1], id[2])
            && ds[4] == Part(id[2], 62, 1)
            && ds[5] == Digit14(id[2], id[3])
            && ds[6] == Digit41(id[3], id[4])
            && ds[7] == Part(id[4], 124, 2)
            && ds[8] == Digit23(id[4], id[5])
            && ds[9] == Part(id[5], 31, 0)
  {
    hide Part, Digit32, Digit14, Digit41, Digit23;
  }

  lemma DigitAt10(id: seq<bv8>)
    requires |id| == 16
    ensures var ds := Digits(id);
            && ds[10] == Part(id[6], 248, 3)
            && ds[11] == Digit32(id[6], id[7])
            && ds[12] == Part(id[7], 62, 1)
            && ds[13] == Digit14(id[7], id[8])
            && ds[14] == Digit41(id[8], id[9])
            && ds[15] == Part(id[9], 124, 2)
            && ds[16] == Digit23(id[9], id[10])
            && ds[17] == Part(id[10], 31, 0)
  {
    hide Part, Digit32, Digit14, Digit41, Digit23;
  }

  lemma DigitAt18(id: seq<bv8>)
    requires |id| == 16
    ensures var ds := Digits(id);
            && ds[18] == Part(id[11], 248, 3)
            && ds[19] == Digit32(id[11], id[12])
            && ds[20] == Part(id[12], 62, 1)
            && ds[21] == Digit14(id[12], id[13])
            && ds[22] == Digit41(id[13], id[14])
            && ds[23] == Part(id[14], 124, 2)
            && ds[24] == Digit23(id[14], id[15])
            && ds[25] == Part(id[15], 31, 0)
  {
    hide Part, Digit32, Digit14, Digit41, Digit23;
  }

  /** The ten digits of the millisecond clock. */
  method WriteTime(dst: array<char>, id: seq<bv8>)
    requires |id| == 16 && dst.Length == 26
    modifies dst
    ensures forall k :: 0 <= k < 10 ==> dst[k] == Symbol(Digits(id)[k])
    ensures forall k :: 0 <= k < 26 && !(0 <= k < 10) ==> dst[k] == old(dst[k])
  {
    hide Part, Digit32, Digit14, Digit41, Digit23, Digits, Symbol;
    DigitAt0(id);
    dst[0] := Symbol(Part(id[0], 224, 5));
    dst[1] := Symbol(Part(id[0], 31, 0));
    dst[2] := Symbol(Part(id[1], 248, 3));
    dst[3] := Symbol(Digit32(id[1], id[2]));
    dst[4] := Symbol(Part(id[2], 62, 1));
    dst[5] := Symbol(Digit14(id[2], id[3]));
    dst[6] := Symbol(Digit41(id[3], id[4]));
    dst[7] := Symbol(Part(id[4], 124, 2));
    dst[8] := Symbol(Digit23(id[4], id[5]));
    dst[9] := Symbol(Part(id[5], 31, 0));
  }

  /** The first forty random bits. */
  method WriteRandomHigh(dst: array<char>, id: seq<bv8>)
    requires |id| == 16 && dst.Length == 26
    modifies dst
    ensures forall k :: 10 <= k < 18 ==> dst[k] == Symbol(Digits(id)[k])
    ensures forall k :: 0 <= k < 26 && !(10 <= k < 18) ==> dst[k] == old(dst[k])
  {
    hide Part, Digit32, Digit14, Digit41, Digit23, Digits, Symbol;
    DigitAt10(id);
    dst[10] := Symbol(Part(id[6], 248, 3));
    dst[11] := Symbol(Digit32(id[6], id[7]));
    dst[12] := Symbol(Part(id[7], 62, 1));
    dst[13] := Symbol(Digit14(id[7], id[8]));
    dst[14] := Symbol(Digit41(id[8], id[9]));
    dst[15] := Symbol(Part(id[9], 124, 2));
    dst[16] := Symbol(Digit23(id[9], id[10]));
    dst[17] := Symbol(Part(id[10], 31, 0));
  }

  /** The last forty random bits. */
  method WriteRandomLow(dst: array<char>, id: seq<bv8>)
    requires |id| == 16 && dst.Length == 26
    modifies dst
    ensures forall k :: 18 <= k < 26 ==> dst[k] == Symbol(Digits(id)[k])
    ensures forall k :: 0 <= k < 26 && !(18 <= k < 26) ==> dst[k] == old(dst[k])
  {
    hide Part, Digit32, Digit14, Digit41, Digit23, Digits, Symbol;
    DigitAt18(id);
    dst[18] := Symbol(Part(id[11], 248, 3));
    dst[19] := Symbol(Digit32(id[11], id[12]));
    dst[20] := Symbol(Part(id[12], 62, 1));
    dst[21] := Symbol(Digit14(id[12], id[13]));
    dst[22] := Symbol(Digit41(id[13], id[14]));
    dst[23] := Symbol(Part(id[14], 124, 2));
    dst[24] := Symbol(Digit23(id[14], id[15]));
    dst[25] := Symbol(Part(id[15], 31, 0));
  }

  /** encodeULID. */
  method EncodeULID(id: seq<bv8>) returns (s: string)
    requires |id| == 16
    ensures s == Encode(id)
  {
    hide Part, Digits, Value, Pow, Numeral;
    EncodedValue(id);
    var dst := new char[26];
    WriteTime(dst, id);
    WriteRandomHigh(dst, id);
    WriteRandomLow(dst, id);
    s := dst[..];
  }

  //// Sorting

  lemma AlphabetOrder(i: nat, j: nat)
    requires i < 32 && j < 32
    ensures Symbol(i) < Symbol(j) <==> i < j
  {
  }

  /** The symbols are the digits and the capital letters but I, L, O and U. */
  lemma AlphabetIs(c: char)
    ensures (exists d :: 0 <= d < 32 && Symbol(d) == c) <==>
              '0' <= c <= '9' || ('A' <= c <= 'Z' && c != 'I' && c != 'L' && c != 'O' && c != 'U')
  {
    var n := c as int;
    var d := n - (if c <= '9' then 48 else if c <= 'H' then 55 else if c <= 'K' then 56 else if c <= 'N' then 57
                  else if c <= 'T' then 58 else 59);
    if '0' <= c <= '9' || ('A' <= c <= 'Z' && c != 'I' && c != 'L' && c != 'O' && c != 'U') {
      assert 0 <= d < 32 && Symbol(d) == c;
    }
  }

  lemma {:induction false} SymbolOrder(a: seq<nat>, b: seq<nat>)
    requires |a| == |b| && DigitsOf(32, a) && DigitsOf(32, b)
    ensures Strings.Less(Symbols(a), Symbols(b)) <==> LexLess(a, b)
    decreases |a|
  {
    if a != [] {
      assert Symbols(a)[1..] == Symbols(a[1..]) && Symbols(b)[1..] == Symbols(b[1..]);
      AlphabetOrder(a[0], b[0]);
      AlphabetOrder(b[0], a[0]);
      SymbolOrder(a[1..], b[1..]);
    }
  }

  /** Order embedding: ids sort as strings exactly as their bytes sort. */
  lemma OrderEmbedding(a: seq<bv8>, b: seq<bv8>)
    requires |a| == 16 && |b| == 16
    ensures Strings.Less(Encode(a), Encode(b)) <==> LexLess(ByteValues(a), ByteValues(b))
  {
    hide Value, Part, Digits, Numeral, Symbols, Pow;
    EncodedValue(a);
    EncodedValue(b);
    SymbolOrder(Digits(a), Digits(b));
    LexIsNumeric(32, Digits(a), Digits(b));
    DigitsValue(a);
    DigitsValue(b);
    LexIsNumeric(256, ByteValues(a), ByteValues(b));
  }

  lemma EncodeInjective(a: seq<bv8>, b: seq<bv8>)
    requires |a| == 16 && |b| == 16 && Encode(a) == Encode(b)
    ensures a == b
  {
    hide Value, Part, Digits, Numeral, Symbols, Pow;
    OrderEmbedding(a, b);
    OrderEmbedding(b, a);
    Strings.LessIrreflexive(Encode(a));
    LexIsNumeric(256, ByteValues(a), ByteValues(b));
    LexIsNumeric(256, ByteValues(b), ByteValues(a));
    ValueInjective(256, ByteValues(a), ByteValues(b));
    SameBytes(a, b);
  }

  lemma SameBytes(a: seq<bv8>, b: seq<bv8>)
    requires |a| == |b| && ByteValues(a) == ByteValues(b)
    ensures a == b
  {
    forall i | 0 <= i < |a| ensures a[i] == b[i] {
      assert ByteValues(a)[i] == a[i] as nat && ByteValues(b)[i] == b[i] as nat;
      assert a[i] as nat as bv8 == a[i] && b[i] as nat as bv8 == b[i];
    }
  }

  //// Time prefix

  const TIME_RANGE := 0x1_0000_0000_0000   // 2^48

  function Truncated(x: nat): bv8
    requires x < 256
  {
    x as bv8
  }

  /** Go's byte(x). */
  function Byte(x: nat): bv8 {
    Truncated(x % 256)
  }

  /** The six bytes of a millisecond clock, most significant first. */
  function TimeBytes(ms: int): (bs: seq<bv8>)
    ensures |bs| == 6
  {
    var ds := Numeral(256, 6, ms % TIME_RANGE);
    seq(6, i requires 0 <= i < 6 => Truncated(ds[i]))
  }

  lemma ByteOf(x: nat)
    requires x < 256
    ensures Truncated(x) as nat == x
  {
    UlidBits.RoundTrip(x);
  }

  lemma PowTime()
    ensures Pow(256, 6) == TIME_RANGE
  {
    PowersAgree();
    PowAdd(256, 5, 1);
    assert Pow(256, 1) == 256 * Pow(256, 0);
  }

  lemma TimeValue(ms: int)
    ensures ByteValues(TimeBytes(ms)) == Numeral(256, 6, ms % TIME_RANGE)
    ensures Value(256, ByteValues(TimeBytes(ms))) == ms % TIME_RANGE
  {
    hide Value, Numeral, Pow;
    var ds := Numeral(256, 6, ms % TIME_RANGE);
    forall i | 0 <= i < 6 ensures ByteValues(TimeBytes(ms))[i] == ds[i] { ByteOf(ds[i]); }
    PowTime();
    ValueOfNumeral(256, 6, ms % TIME_RANGE);
  }

  lemma ValueOfSix(a: nat, b: nat, c: nat, d: nat, e: nat, f: nat)
    ensures Value(256, [a, b, c, d, e, f]) == ((((a * 256 + b) * 256 + c) * 256 + d) * 256 + e) * 256 + f
  {
    hide Value;
    ValueOfFive(a, b, c, d, e);
    ValueSnoc(256, [a, b, c, d, e], f);
    assert [a, b, c, d, e] + [f] == [a, b, c, d, e, f];
  }

  lemma ShiftPast32(u: nat)
    ensures u / 0x1_0000_0000 == u / 0x100_0000_0000 * 256 + u / 0x1_0000_0000 % 256
  {
  }

  lemma ShiftPast24(u: nat)
    ensures u / 0x100_0000 == u / 0x1_0000_0000 * 256 + u / 0x100_0000 % 256
  {
  }

  lemma ShiftPast16(u: nat)
    ensures u / 0x1_0000 == u / 0x100_0000 * 256 + u / 0x1_0000 % 256
  {
  }

  lemma ShiftPast8(u: nat)
    ensures u / 0x100 == u / 0x1_0000 * 256 + u / 0x100 % 256
  {
  }

  lemma ShiftSteps(u: nat)
    ensures u / 0x1_0000_0000 == u / 0x100_0000_0000 * 256 + u / 0x1_0000_0000 % 256
    ensures u / 0x100_0000 == u / 0x1_0000_0000 * 256 + u / 0x100_0000 % 256
    ensures u / 0x1_0000 == u / 0x100_0000 * 256 + u / 0x1_0000 % 256
    ensures u / 0x100 == u / 0x1_0000 * 256 + u / 0x100 % 256
    ensures u == u / 0x100 * 256 + u % 256
  {
    ShiftPast32(u);
    ShiftPast24(u);
    ShiftPast16(u);
    ShiftPast8(u);
  }

  lemma ShiftedValue(u: nat)
    ensures var a, b, c := u / 0x100_0000_0000 % 256, u / 0x1_0000_0000 % 256, u / 0x100_0000 % 256;
            var d, e, f := u / 0x1_0000 % 256, u / 0x100 % 256, u % 256;
            u == u / 0x100_0000_0000 / 256 * TIME_RANGE
                 + (((((a * 256 + b) * 256 + c) * 256 + d) * 256 + e) * 256 + f)
  {
    ShiftSteps(u);
  }

  lemma SixBytes(a: nat, b: nat, c: nat, d: nat, e: nat, f: nat, q: nat, u: nat)
    requires a < 256 && b < 256 && c < 256 && d < 256 && e < 256 && f < 256
    requires u == q * TIME_RANGE + (((((a * 256 + b) * 256 + c) * 256 + d) * 256 + e) * 256 + f)
    ensures [a, b, c, d, e, f] == Numeral(256, 6, u % TIME_RANGE)
  {
    hide Value, Numeral, Pow;
    var ds := [a, b, c, d, e, f];
    ValueOfSix(a, b, c, d, e, f);
    PowTime();
    ValueBound(256, ds);
    SameRemainder(u, q, Value(256, ds));
    ValueOfNumeral(256, 6, u % TIME_RANGE);
    ValueInjective(256, ds, Numeral(256, 6, u % TIME_RANGE));
  }

  lemma Wrap64(ms: int)
    ensures ms % 0x1_0000_0000_0000_0000 % TIME_RANGE == ms % TIME_RANGE
  {
    var u, q := ms % 0x1_0000_0000_0000_0000, ms / 0x1_0000_0000_0000_0000;
    var r, v := u % TIME_RANGE, u / TIME_RANGE;
    SameRemainder(ms, q * 0x1_0000 + v, r);
  }

  lemma SameRemainder(x: int, q: int, r: int)
    requires 0 <= r < TIME_RANGE && x == q * TIME_RANGE + r
    ensures x % TIME_RANGE == r
  {
  }

  lemma ShiftedTime(u: nat)
    ensures TimeBytes(u) == [Byte(u / 0x100_0000_0000), Byte(u / 0x1_0000_0000), Byte(u / 0x100_0000),
                             Byte(u / 0x1_0000), Byte(u / 0x100), Byte(u)]
  {
    hide Numeral, Value, Pow;
    assert [u / 0x100_0000_0000 % 256, u / 0x1_0000_0000 % 256, u / 0x100_0000 % 256,
            u / 0x1_0000 % 256, u / 0x100 % 256, u % 256] == Numeral(256, 6, u % TIME_RANGE) by {
      ShiftedValue(u);
      SixBytes(u / 0x100_0000_0000 % 256, u / 0x1_0000_0000 % 256, u / 0x100_0000 % 256,
               u / 0x1_0000 % 256, u / 0x100 % 256, u % 256, u / 0x100_0000_0000 / 256, u);
    }
    assert forall x: nat :: Byte(x) == Truncated(x % 256);
    hide Byte, Truncated;
  }

  /** NewULID at the given Unix milliseconds, with the ten bytes the random source
      returned. The shifts and byte truncations are written as divisions. */
  method NewULID(ms: int, random: seq<bv8>) returns (s: string)
    requires |random| == 10
    ensures s == Encode(TimeBytes(ms) + random)
  {
    hide Encode, Numeral, Byte, Truncated;
    var u := ms % 0x1_0000_0000_0000_0000;
    var id := [Byte(u / 0x100_0000_0000), Byte(u / 0x1_0000_0000), Byte(u / 0x100_0000),
               Byte(u / 0x1_0000), Byte(u / 0x100), Byte(u)];
    assert id == TimeBytes(u) by { ShiftedTime(u); }
    assert TimeBytes(u) == TimeBytes(ms) by { Wrap64(ms); }
    s := EncodeULID(id + random);
  }

  /** The value of an id is its time shifted over its random part. */
  lemma IdValue(ms: int, random: seq<bv8>)
    requires |random| == 10
    ensures Value(256, ByteValues(TimeBytes(ms) + random))
            == ms % TIME_RANGE * Pow(256, 10) + Value(256, ByteValues(random))
    ensures Value(256, ByteValues(random)) < Pow(256, 10)
  {
    hide Value, TimeBytes, Pow;
    TimeValue(ms);
    assert ByteValues(TimeBytes(ms) + random) == ByteValues(TimeBytes(ms)) + ByteValues(random);
    ValueConcat(256, ByteValues(TimeBytes(ms)), ByteValues(random));
    ValueBound(256, ByteValues(random));
  }

  lemma IdOrder(t1: int, r1: seq<bv8>, t2: int, r2: seq<bv8>)
    requires |r1| == 10 && |r2| == 10
    ensures Strings.Less(Encode(TimeBytes(t1) + r1), Encode(TimeBytes(t2) + r2))
            <==> (t1 % TIME_RANGE < t2 % TIME_RANGE
                  || (t1 % TIME_RANGE == t2 % TIME_RANGE && LexLess(ByteValues(r1), ByteValues(r2))))
  {
    hide Value, TimeBytes, Pow, Encode;
    var a, b := TimeBytes(t1) + r1, TimeBytes(t2) + r2;
    OrderEmbedding(a, b);
    LexIsNumeric(256, ByteValues(a), ByteValues(b));
    LexIsNumeric(256, ByteValues(r1), ByteValues(r2));
    IdValue(t1, r1);
    IdValue(t2, r2);
    var p, v1, v2 := Pow(256, 10), Value(256, ByteValues(r1)), Value(256, ByteValues(r2));
    var m1, m2 := t1 % TIME_RANGE, t2 % TIME_RANGE;
    if m1 < m2 { LeadingDigit(m1, m2, p, v1, v2); }
    if m2 < m1 { LeadingDigit(m2, m1, p, v2, v1); }
  }

  /** An id made at t1 sorts before every id made at t2, whatever the random bytes,
      exactly when t1 precedes t2 modulo 2^48 milliseconds. */
  lemma TimeOrder(t1: int, t2: int)
    ensures (forall r1: seq<bv8>, r2: seq<bv8> :: |r1| == 10 && |r2| == 10 ==>
               Strings.Less(Encode(TimeBytes(t1) + r1), Encode(TimeBytes(t2) + r2)))
            <==> t1 % TIME_RANGE < t2 % TIME_RANGE
    ensures 0 <= t1 < t2 < TIME_RANGE ==> t1 % TIME_RANGE < t2 % TIME_RANGE
  {
    hide TimeBytes, Encode, LexLess;
    forall r1: seq<bv8>, r2: seq<bv8> | |r1| == 10 && |r2| == 10 && t1 % TIME_RANGE < t2 % TIME_RANGE
      ensures Strings.Less(Encode(TimeBytes(t1) + r1), Encode(TimeBytes(t2) + r2))
    {
      IdOrder(t1, r1, t2, r2);
    }
    if !(t1 % TIME_RANGE < t2 % TIME_RANGE) {
      var zero: seq<bv8> := seq(10, _ => 0);
      IdOrder(t1, zero, t2, zero);
      LexIrreflexive(ByteValues(zero));
    }
  }

  lemma LexIrreflexive(a: seq<nat>)
    ensures !LexLess(a, a)
  {
  }
}
