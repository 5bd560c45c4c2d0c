/** How a file's blocks are numbered: direct, then singly, doubly and triply indirect. */
module Ext2Layout {
  import opened Arithmetic

  const NUM_DIRECT := 12

  /** The branch of read_inode_block a block takes, with the offsets it computes, for `n` block
      pointers in a block. */
  datatype Place =
    | Direct(index: nat)
    | Single(index: nat)
    | Double(single: nat, double: nat)
    | Triple(single: nat, triple: nat, quad: nat)
    | Beyond

  function PlaceOf(k: nat, n: nat): Place
    requires n > 0
  {
    if k < NUM_DIRECT then Direct(k)
    else if k - NUM_DIRECT < n then Single(k - NUM_DIRECT)
    else if k - NUM_DIRECT - n < n * n then
      var off := k - NUM_DIRECT - n;
      Double(off / n, off % n)
    else if k - NUM_DIRECT - n - n * n < n * n * n then
      var off := k - NUM_DIRECT - n - n * n;
      NonZero(n);
      Triple(off / (n * n), off % (n * n) / n, off % (n * n) % n)
    else Beyond
  }

  /** Places with every index in range. */
  predicate InRange(p: Place, n: nat) {
    match p
    case Direct(i) => i < NUM_DIRECT
    case Single(i) => i < n
    case Double(s, d) => s < n && d < n
    case Triple(s, t, q) => s < n && t < n && q < n
    case Beyond => false
  }

  /** The block at a place. */
  function BlockAtPlace(p: Place, n: nat): nat {
    match p
    case Direct(i) => i
    case Single(i) => NUM_DIRECT + i
    case Double(s, d) => NUM_DIRECT + n + (s * n + d)
    case Triple(s, t, q) => NUM_DIRECT + n + n * n + (s * (n * n) + (t * n + q))
    case Beyond => 0
  }

  lemma {:induction false} NonZero(n: nat)
    requires n > 0
    ensures n * n > 0
  {
  }

  /** A two-digit number to base `m` is below `a * m` and its digits come back. */
  lemma {:induction false} Digits(hi: nat, lo: nat, a: nat, m: nat)
    requires lo < m && hi < a
    ensures hi * m + lo < a * m && (hi * m + lo) / m == hi && (hi * m + lo) % m == lo
  {
    MulMono(hi + 1, a, m);
    DivModUnique(hi * m + lo, m, hi, lo);
  }

  lemma {:induction false} Split(x: nat, a: nat, m: nat)
    requires m > 0 && x < a * m
    ensures x / m < a && x == x / m * m + x % m
  {
    MulMono(a, x / m, m);
  }

  /** Every block below 12 + n + n^2 + n^3 has a place in range, and that place tells the block. */
  lemma {:induction false} PlaceInRange(k: nat, n: nat)
    requires n > 0 && k < NUM_DIRECT + n + n * n + n * n * n
    ensures InRange(PlaceOf(k, n), n) && BlockAtPlace(PlaceOf(k, n), n) == k
  {
    var m := n * n;
    NonZero(n);
    if NUM_DIRECT + n <= k < NUM_DIRECT + n + m {
      Split(k - NUM_DIRECT - n, n, n);
    } else if NUM_DIRECT + n + m <= k {
      var off := k - NUM_DIRECT - n - m;
      assert n * n * n == n * m;
      Split(off, n, m);
      Split(off % m, n, n);
    }
  }

  lemma {:induction false} CubeNonNegative(n: nat)
    ensures n * n * n >= 0 && n * n * n == n * (n * n)
  {
  }

  lemma {:induction false} DoubleDecodes(s: nat, d: nat, n: nat)
    requires s < n && d < n
    ensures PlaceOf(BlockAtPlace(Double(s, d), n), n) == Double(s, d) && s * n + d < n * n
  {
    Digits(s, d, n, n);
  }

  lemma {:induction false} TripleDecodes(s: nat, t: nat, q: nat, n: nat, m: nat, off: nat)
    requires s < n && t < n && q < n && m == n * n && off == s * m + (t * n + q)
    ensures off < n * m && off / m == s && off % m / n == t && off % m % n == q
  {
    Digits(t, q, n, n);
    Digits(s, t * n + q, n, m);
  }

  lemma {:induction false} TripleOffset(s: nat, t: nat, q: nat, n: nat, m: nat) returns (off: nat)
    requires s < n && t < n && q < n && m == n * n
    ensures off == s * m + (t * n + q) && off < n * m && off / m == s && off % m / n == t && off % m % n == q
  {
    off := s * m + (t * n + q);
    TripleDecodes(s, t, q, n, m, off);
  }

  lemma {:induction false} TriplePlaced(s: nat, t: nat, q: nat, n: nat)
    requires s < n && t < n && q < n
    ensures var k := BlockAtPlace(Triple(s, t, q), n);
            k < NUM_DIRECT + n + n * n + n * n * n && PlaceOf(k, n) == Triple(s, t, q)
  {
    CubeNonNegative(n);
    var m := n * n;
    var off := TripleOffset(s, t, q, n, m);
    TriplePlace(NUM_DIRECT + n + m + off, n, m, off);
  }

  /** Every place in range is the place of its block, and no other: the four ranges partition the
      blocks and the offsets decode the doubly and triply indirect ones one to one. */
  lemma {:induction false} PlaceDecodes(p: Place, n: nat)
    requires n > 0 && InRange(p, n)
    ensures var k := BlockAtPlace(p, n);
            k < NUM_DIRECT + n + n * n + n * n * n && PlaceOf(k, n) == p
  {
    CubeNonNegative(n);
    match p
    case Direct(i) =>
    case Single(i) =>
    case Double(s, d) => DoubleDecodes(s, d, n);
    case Triple(s, t, q) => TriplePlaced(s, t, q, n);
  }

  lemma {:induction false} DoublePlace(k: nat, n: nat, off: nat)
    requires n > 0 && k == NUM_DIRECT + n + off && off < n * n
    ensures off / n < n && off % n < n && PlaceOf(k, n) == Double(off / n, off % n)
  {
    Split(off, n, n);
  }

  lemma {:induction false} TriplePlace(k: nat, n: nat, m: nat, off: nat)
    requires n > 0 && m == n * n && k == NUM_DIRECT + n + m + off && off < n * m
    ensures m > 0 && off / m < n && off % m / n < n && off % m % n < n
    ensures PlaceOf(k, n) == Triple(off / m, off % m / n, off % m % n)
  {
    NonZero(n);
    CubeNonNegative(n);
    Split(off, n, m);
    Split(off % m, n, n);
  }

  /** The order of a file's places: direct, singly, doubly, triply indirect, and within each by the
      offset taken first, then the next. */
  predicate Before(p: Place, q: Place) {
    match (p, q)
    case (Direct(i), Direct(j)) => i < j
    case (Direct(_), _) => true
    case (Single(i), Single(j)) => i < j
    case (Single(_), Double(_, _)) => true
    case (Single(_), Triple(_, _, _)) => true
    case (Double(s, d), Double(t, e)) => s < t || (s == t && d < e)
    case (Double(_, _), Triple(_, _, _)) => true
    case (Triple(s, t, u), Triple(a, b, c)) => s < a || (s == a && t < b) || (s == a && t == b && u < c)
    case _ => false
  }

  lemma {:induction false} LessDigits(s: nat, d: nat, t: nat, e: nat, n: nat)
    requires d < n && e < n && (s < t || (s == t && d < e))
    ensures s * n + d < t * n + e
  {
    if s < t {
      MulMono(s + 1, t, n);
    }
  }

  lemma {:induction false} LowDigits(t: nat, u: nat, n: nat) returns (x: nat)
    requires t < n && u < n
    ensures x == t * n + u < n * n
  {
    x := t * n + u;
    MulMono(t + 1, n, n);
  }

  lemma {:induction false} TripleLess(s: nat, t: nat, u: nat, a: nat, b: nat, c: nat, n: nat)
    requires t < n && u < n && b < n && c < n
    requires s < a || (s == a && t < b) || (s == a && t == b && u < c)
    ensures s * (n * n) + (t * n + u) < a * (n * n) + (b * n + c)
  {
    var x := LowDigits(t, u, n);
    var y := LowDigits(b, c, n);
    if s == a {
      LessDigits(t, u, b, c, n);
    }
    LessDigits(s, x, a, y, n * n);
  }

  lemma {:induction false} ThreeDigits(s: nat, t: nat, q: nat, n: nat) returns (x: nat)
    ensures x == s * (n * n) + (t * n + q)
  {
    x := t * n + q;
    x := s * (n * n) + x;
  }

  /** Where each kind of place begins and ends. */
  lemma {:induction false} PlaceBounds(p: Place, n: nat)
    requires InRange(p, n)
    ensures var k := BlockAtPlace(p, n);
            match p
            case Direct(_) => k < NUM_DIRECT
            case Single(_) => NUM_DIRECT <= k < NUM_DIRECT + n
            case Double(_, _) => NUM_DIRECT + n <= k < NUM_DIRECT + n + n * n
            case Triple(_, _, _) => NUM_DIRECT + n + n * n <= k
            case Beyond => true
  {
    match p
    case Double(s, d) => var _ := LowDigits(s, d, n);
    case Triple(s, t, q) => var _ := ThreeDigits(s, t, q, n);
    case _ =>
  }

  lemma {:induction false} BeforeIsLess(p: Place, q: Place, n: nat)
    requires n > 0 && InRange(p, n) && InRange(q, n) && Before(p, q)
    ensures BlockAtPlace(p, n) < BlockAtPlace(q, n)
  {
    if p.Double? && q.Double? {
      LessDigits(p.single, p.double, q.single, q.double, n);
    } else if p.Triple? && q.Triple? {
      TripleLess(p.single, p.triple, p.quad, q.single, q.triple, q.quad, n);
    } else {
      PlaceBounds(p, n);
      PlaceBounds(q, n);
    }
  }

  /** The blocks of a file take the places in this order, each once. */
  lemma {:induction false} PlacesInOrder(k: nat, j: nat, n: nat)
    requires n > 0 && k < j < NUM_DIRECT + n + n * n + n * n * n
    ensures Before(PlaceOf(k, n), PlaceOf(j, n))
  {
    PlaceInRange(k, n);
    PlaceInRange(j, n);
    var p, q := PlaceOf(k, n), PlaceOf(j, n);
    if !Before(p, q) {
      assert p == q || Before(q, p);
      if Before(q, p) {
        BeforeIsLess(q, p, n);
      }
    }
  }
}
