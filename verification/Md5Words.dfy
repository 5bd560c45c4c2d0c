/** What the word functions of MD5 compute: bit by bit, and the rotation as a number. */
module Md5Words {
  import opened Arithmetic
  import opened Collections
  import opened Md5Spec

  // ------------------------------------------------------------------ bit by bit

  /** F takes the bits of y where x has ones, and those of z elsewhere. */
  lemma {:induction false} FBits(x: bv32, y: bv32, z: bv32)
    ensures F(x, y, z) & x == y & x && F(x, y, z) & !x == z & !x
  {
  }

  /** G takes the bits of x where z has ones, and those of y elsewhere. */
  lemma {:induction false} GBits(x: bv32, y: bv32, z: bv32)
    ensures G(x, y, z) & z == x & z && G(x, y, z) & !z == y & !z
  {
  }

  /** H takes the bits of z where x and y agree. */
  lemma {:induction false} HAgreeBits(x: bv32, y: bv32, z: bv32)
    ensures H(x, y, z) & (x & y) == z & (x & y) && H(x, y, z) & (!x & !y) == z & (!x & !y)
  {
  }

  /** And their opposites where x and y differ. */
  lemma {:induction false} HDifferBits(x: bv32, y: bv32, z: bv32)
    ensures H(x, y, z) & (x & !y) == !z & (x & !y) && H(x, y, z) & (!x & y) == !z & (!x & y)
  {
  }

  /** I takes the bits of y where z has ones and x none. */
  lemma {:induction false} IPlainBits(x: bv32, y: bv32, z: bv32)
    ensures I(x, y, z) & (!x & z) == y & (!x & z)
  {
  }

  /** And their opposites elsewhere. */
  lemma {:induction false} IOtherBits(x: bv32, y: bv32, z: bv32)
    ensures I(x, y, z) & x == !y & x && I(x, y, z) & !z == !y & !z
  {
  }

  // ------------------------------------------------------------ words as numbers

  ghost predicate IsValue(once: Once, x: bv32, v: nat) {
    match once
    case Only => x as nat == v
  }

  /** The number a word stands for. Opened where that is used. */
  ghost predicate Value(x: bv32, v: nat) {
    forall once: Once :: IsValue(once, x, v)
  }

  ghost predicate IsLowest(once: Once, x: bv32, l: nat) {
    match once
    case Only => l == if x & 1 == 1 then 1 else 0
  }

  /** The lowest bit of a word. Opened where that is used. */
  ghost predicate Lowest(x: bv32, l: nat) {
    forall once: Once :: IsLowest(once, x, l)
  }

  ghost predicate IsApart(once: Once, x: bv32, y: bv32) {
    match once
    case Only => x & y == 0
  }

  /** The words have no one in common. Opened where that is used. */
  ghost predicate Apart(x: bv32, y: bv32) {
    forall once: Once :: IsApart(once, x, y)
  }

  function Or(x: bv32, y: bv32): bv32 { x | y }

  function Half(x: bv32): bv32 { x >> 1 }

  function Twice(x: bv32): bv32 { x << 1 }

  lemma {:induction false} OneValue(x: bv32, v: nat, u: nat)
    requires Value(x, v) && Value(x, u)
    ensures v == u
  {
    assert IsValue(Only, x, v) && IsValue(Only, x, u);
  }

  lemma {:induction false} ZeroValue(x: bv32, v: nat)
    requires Value(x, v)
    ensures v == 0 <==> x == 0
  {
    assert IsValue(Only, x, v);
  }

  function Joined(hi: bv31, b: bv1): bv32 {
    ((hi as bv32) << 1) | (b as bv32)
  }

  lemma {:induction false} JoinedWhole(hi: bv31, b: bv1)
    ensures Value(Joined(hi, b), 2 * (hi as nat) + b as nat)
  {
  }

  lemma {:induction false} JoinedHalf(hi: bv31, b: bv1)
    ensures Value(Half(((hi as bv32) << 1) | (b as bv32)), hi as nat)
  {
  }

  lemma {:induction false} JoinedLowest(hi: bv31, b: bv1)
    ensures Lowest(((hi as bv32) << 1) | (b as bv32), b as nat)
  {
  }

  lemma {:induction false} JoinedParts(hi: bv31, b: bv1) returns (v: nat, h: nat, l: nat)
    ensures Value(Joined(hi, b), v) && Value(Half(Joined(hi, b)), h) && Lowest(Joined(hi, b), l) && v == 2 * h + l
  {
    JoinedWhole(hi, b);
    JoinedHalf(hi, b);
    JoinedLowest(hi, b);
    v, h, l := 2 * (hi as nat) + b as nat, hi as nat, b as nat;
  }

  lemma {:induction false} Parts(x: bv32) returns (hi: bv31, b: bv1)
    ensures Joined(hi, b) == x
  {
    hi, b := (x >> 1) as bv31, (x & 1) as bv1;
    assert ((((x >> 1) as bv31) as bv32) << 1) | (((x & 1) as bv1) as bv32) == x;
  }

  /** A word is twice its half, with its lowest bit. */
  lemma {:induction false} Halved(x: bv32) returns (v: nat, h: nat, l: nat)
    ensures Value(x, v) && Value(Half(x), h) && Lowest(x, l) && v == 2 * h + l
  {
    var hi, b := Parts(x);
    v, h, l := JoinedParts(hi, b);
  }

  lemma {:induction false} HalfValue(x: bv32, v: nat)
    requires Value(x, v)
    ensures Value(Half(x), v / 2)
  {
    var u, h, l := Halved(x);
    OneValue(x, v, u);
    BitSmall(x, l);
  }

  lemma {:induction false} BitSmall(x: bv32, l: nat)
    requires Lowest(x, l)
    ensures l < 2
  {
    assert IsLowest(Only, x, l);
  }

  lemma {:induction false} HalvesApart(x: bv32, y: bv32)
    requires Apart(x, y)
    ensures Apart(Half(x), Half(y))
  {
    assert IsApart(Only, x, y);
  }

  lemma {:induction false} HalfOfOr(x: bv32, y: bv32)
    ensures Half(Or(x, y)) == Or(Half(x), Half(y))
  {
  }

  lemma {:induction false} LowestAdd(x: bv32, y: bv32, k: nat, l: nat, m: nat)
    requires Apart(x, y) && Lowest(x, k) && Lowest(y, l) && Lowest(Or(x, y), m)
    ensures m == k + l
  {
    assert IsApart(Only, x, y) && IsLowest(Only, x, k) && IsLowest(Only, y, l) && IsLowest(Only, Or(x, y), m);
  }

  lemma {:induction false} OrZero(x: bv32)
    ensures Or(x, 0) == x && Or(0, x) == x
  {
  }

  /** Words without a common one add up. */
  lemma {:induction false} OrAdds(x: bv32, u: nat, y: bv32, v: nat)
    requires Apart(x, y) && Value(x, u) && Value(y, v)
    ensures Value(Or(x, y), u + v)
    decreases u + v
  {
    ZeroValue(x, u);
    ZeroValue(y, v);
    if u == 0 {
      OrZero(y);
    } else if v == 0 {
      OrZero(x);
    } else {
      var u', p, k := Halved(x);
      var v', q, l := Halved(y);
      var w, r, m := Halved(Or(x, y));
      OneValue(x, u, u');
      OneValue(y, v, v');
      HalvesApart(x, y);
      HalfOfOr(x, y);
      OrAdds(Half(x), p, Half(y), q);
      OneValue(Half(Or(x, y)), r, p + q);
      LowestAdd(x, y, k, l, m);
    }
  }

  lemma {:induction false} TwiceBits(x: bv32) returns (v: nat, d: nat)
    ensures Value(x, v) && Value(Twice(x), d) && d < TWO_32 && (d == 2 * v || d + TWO_32 == 2 * v)
  {
    v, d := x as nat, (x << 1) as nat;
    assert d + (if x & 0x8000_0000 != 0 then TWO_32 else 0) == 2 * v;
  }

  lemma {:induction false} Doubled(x: bv32, v: nat)
    requires Value(x, v)
    ensures Value(Twice(x), 2 * v % TWO_32)
  {
    var v', d := TwiceBits(x);
    OneValue(x, v, v');
  }

  // ---------------------------------------------------------------- the rotation

  function Power(n: nat): (r: nat)
    ensures r > 0
  {
    if n == 0 then 1 else 2 * Power(n - 1)
  }

  function Left(x: bv32, s: bv6): bv32
    requires s <= 32
  {
    x << s
  }

  function Right(x: bv32, s: bv6): bv32
    requires s <= 32
  {
    x >> s
  }

  ghost predicate IsCount(once: Once, s: bv6, n: nat) {
    match once
    case Only => s as nat == n
  }

  /** The number of places shifted by. Opened where that is used. */
  ghost predicate Count(s: bv6, n: nat) {
    forall once: Once :: IsCount(once, s, n)
  }

  lemma {:induction false} CountDown(s: bv6, n: nat)
    requires Count(s, n) && n <= 32
    ensures s <= 32 && (n == 0 <==> s == 0) && (n > 0 ==> Count(s - 1, n - 1))
  {
    assert IsCount(Only, s, n);
  }

  lemma {:induction false} CountOf(n: Amount)
    ensures Count(n as bv6, n) && 0 < n as bv6 < 32
  {
  }

  lemma {:induction false} CountRest(s: bv6, n: Amount)
    requires Count(s, n) && 0 < s < 32
    ensures Count(32 - s, 32 - n) && (32 - n) as bv6 == 32 - s
  {
    assert IsCount(Only, s, n);
    RestOf(s);
    Back(32 - s);
    assert (32 - s) as nat == 32 - n;
  }

  lemma {:induction false} RestOf(s: bv6)
    requires 0 < s < 32
    ensures (32 - s) as nat == 32 - s as nat
  {
  }

  lemma {:induction false} Back(s: bv6)
    ensures (s as nat) as bv6 == s
  {
  }

  lemma {:induction false} ByOneMore(x: bv32, s: bv6)
    requires 0 < s <= 32
    ensures Left(x, s) == Twice(Left(x, s - 1)) && Right(x, s) == Half(Right(x, s - 1))
  {
  }

  lemma {:induction false} ByNone(x: bv32)
    ensures Left(x, 0) == x && Right(x, 0) == x
  {
  }

  lemma {:induction false} ValueSmall(x: bv32, v: nat)
    requires Value(x, v)
    ensures v < TWO_32
  {
    assert IsValue(Only, x, v);
  }

  lemma {:induction false} TwiceModulo(v: nat, p: nat)
    ensures 2 * (v * p % TWO_32) % TWO_32 == v * (2 * p) % TWO_32
  {
    var q, r := v * p / TWO_32, v * p % TWO_32;
    assert v * (2 * p) == 2 * (v * p) == TWO_32 * (2 * q) + 2 * r;
  }

  lemma {:induction false} HalfQuotient(v: nat, p: nat, q: nat, l: nat, r: nat)
    requires r < p && l < 2 && v == p * (2 * q + l) + r
    ensures v / (2 * p) == q
  {
    assert p * (2 * q + l) == q * (2 * p) + p * l;
    if l == 0 {
      DivModUnique(v, 2 * p, q, r);
    } else {
      DivModUnique(v, 2 * p, q, p + r);
    }
  }

  lemma {:induction false} HalfOf(v: nat, p: nat)
    requires p > 0
    ensures v / p / 2 == v / (2 * p)
  {
    var q, r := v / p, v % p;
    assert v == p * q + r;
    HalfQuotient(v, p, q / 2, q % 2, r);
  }

  lemma {:induction false} LeftValue(x: bv32, v: nat, s: bv6, n: nat)
    requires Value(x, v) && Count(s, n) && n <= 32 && s <= 32
    ensures Value(Left(x, s), v * Power(n) % TWO_32)
    decreases n
  {
    ValueSmall(x, v);
    CountDown(s, n);
    if n == 0 {
      ByNone(x);
    } else {
      CountDown(s - 1, n - 1);
      LeftValue(x, v, s - 1, n - 1);
      ByOneMore(x, s);
      Doubled(Left(x, s - 1), v * Power(n - 1) % TWO_32);
      TwiceModulo(v, Power(n - 1));
    }
  }

  function HalvedTimes(v: nat, n: nat): nat {
    if n == 0 then v else HalvedTimes(v, n - 1) / 2
  }

  lemma {:induction false} HalvedTimesIs(v: nat, n: nat)
    ensures HalvedTimes(v, n) == v / Power(n)
  {
    if n > 0 {
      HalvedTimesIs(v, n - 1);
      HalfOf(v, Power(n - 1));
    }
  }

  lemma {:induction false} RightValue(x: bv32, v: nat, s: bv6, n: nat)
    requires Value(x, v) && Count(s, n) && n <= 32 && s <= 32
    ensures Value(Right(x, s), HalvedTimes(v, n))
    decreases n
  {
    CountDown(s, n);
    if n == 0 {
      ByNone(x);
    } else {
      CountDown(s - 1, n - 1);
      RightValue(x, v, s - 1, n - 1);
      ByOneMore(x, s);
      HalfValue(Right(x, s - 1), HalvedTimes(v, n - 1));
    }
  }

  lemma {:induction false} ShiftsApart(x: bv32, s: bv6, t: bv6)
    requires 0 < s < 32 && t == 32 - s
    ensures Apart(Left(x, s), Right(x, t))
  {
  }

  lemma {:induction false} RotateShifts(x: bv32, n: Amount)
    ensures RotateLeft(x, n) == Or(x << (n as bv6), x >> ((32 - n) as bv6))
  {
  }

  lemma {:induction false} LeftShift(x: bv32, s: bv6)
    requires s <= 32
    ensures x << s == Left(x, s)
  {
  }

  lemma {:induction false} RightShift(x: bv32, s: bv6)
    requires s <= 32
    ensures x >> s == Right(x, s)
  {
  }

  lemma {:induction false} Places(n: Amount) returns (s: bv6, t: bv6)
    ensures s == n as bv6 && t == (32 - n) as bv6 && 0 < s < 32 && t == 32 - s
    ensures Count(s, n) && Count(t, 32 - n)
  {
    s, t := n as bv6, (32 - n) as bv6;
    CountOf(n);
    CountRest(s, n);
  }

  lemma {:induction false} RotateParts(x: bv32, n: Amount, s: bv6, t: bv6)
    requires s == n as bv6 && t == (32 - n) as bv6 && s <= 32 && t <= 32
    ensures RotateLeft(x, n) == Or(Left(x, s), Right(x, t))
  {
    RotateShifts(x, n);
    LeftShift(x, s);
    RightShift(x, t);
  }

  function Turned(v: nat, n: Amount): nat {
    v * Power(n) % TWO_32 + HalvedTimes(v, 32 - n)
  }

  lemma {:induction false} RotateValue(x: bv32, v: nat, n: Amount)
    requires Value(x, v)
    ensures Value(RotateLeft(x, n), Turned(v, n))
  {
    var s, t := Places(n);
    RotateParts(x, n, s, t);
    LeftValue(x, v, s, n);
    RightValue(x, v, t, 32 - n);
    ShiftsApart(x, s, t);
    OrAdds(Left(x, s), v * Power(n) % TWO_32, Right(x, t), HalvedTimes(v, 32 - n));
  }

  lemma {:induction false} ValueIs(x: bv32, v: nat)
    requires Value(x, v)
    ensures x as nat == v
  {
    assert IsValue(Only, x, v);
  }

  lemma {:induction false} ValueOf(x: bv32)
    ensures Value(x, x as nat)
  {
  }

  lemma {:induction false} TurnedValue(x: bv32, n: Amount) returns (y: bv32, v: nat, w: nat)
    ensures y == RotateLeft(x, n) && Value(x, v) && Value(y, w) && w == Turned(v, n)
  {
    y, v := RotateLeft(x, n), x as nat;
    w := Turned(v, n);
    ValueOf(x);
    RotateValue(x, v, n);
  }

  lemma {:induction false} Numbers(x: bv32, y: bv32, v: nat, w: nat, n: Amount)
    requires Value(x, v) && Value(y, w) && w == Turned(v, n)
    ensures y as nat == Turned(x as nat, n)
  {
    ValueIs(x, v);
    ValueIs(y, w);
  }

  /** A rotation multiplies by a power of two modulo 2^32, and what runs over comes in again from
      below. */
  lemma {:induction false} RotateNumber(x: bv32, n: Amount)
    ensures RotateLeft(x, n) as nat == x as nat * Power(n) % TWO_32 + x as nat / Power(32 - n)
  {
    var y, v, w := TurnedValue(x, n);
    Numbers(x, y, v, w, n);
    HalvedTimesIs(x as nat, 32 - n);
  }
}
