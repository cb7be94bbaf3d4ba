/** The port draw of privops.c: a 16-bit random draw scaled onto the configured passive range.
    The source scales in doubles; both factors and the product fit 53 bits, so the truncated
    double is the integer quotient used here. */
module PassivePort {
  const DRAWS: nat := 65536
  const RESERVED: nat := 1024

  /** The effective lower and upper ports: a setting outside its bounds is ignored. */
  function Low(minSetting: nat): (r: nat)
    ensures 1024 <= r < DRAWS
    ensures 1024 < minSetting <= 65535 ==> r == minSetting
    ensures !(1024 < minSetting <= 65535) ==> r == 1024
  {
    if minSetting > RESERVED && minSetting <= 65535 then minSetting else RESERVED
  }

  function High(minSetting: nat, maxSetting: nat): (r: nat)
    ensures Low(minSetting) <= r < DRAWS
    ensures Low(minSetting) <= maxSetting <= 65535 ==> r == maxSetting
    ensures !(Low(minSetting) <= maxSetting <= 65535) ==> r == 65535
  {
    if maxSetting >= Low(minSetting) && maxSetting < 65535 then maxSetting else 65535
  }

  function Range(minSetting: nat, maxSetting: nat): (r: nat)
    ensures 0 < r <= DRAWS
  {
    High(minSetting, maxSetting) - Low(minSetting) + 1
  }

  function Scaled(draw: nat, range: nat): nat {
    draw * range / DRAWS
  }

  function Port(draw: nat, minSetting: nat, maxSetting: nat): nat {
    Low(minSetting) + Scaled(draw, Range(minSetting, maxSetting))
  }

  /** The smallest draw that reaches offset `p`. */
  function First(p: nat, range: nat): nat
    requires range > 0
  {
    (DRAWS * p + range - 1) / range
  }

  lemma AtLeast(k: int, m: int)
    requires k >= 0 && m > 0
    ensures k * m >= 0 && (k >= 1 ==> k * m >= m)
  {
  }

  lemma Distribute(a: int, k: int, m: int)
    ensures (a + k) * m == a * m + k * m
  {
  }

  /** A product with a positive factor orders as the other factor. */
  lemma Cancel(a: int, b: int, m: int)
    requires m > 0
    ensures a * m < b * m <==> a < b
    ensures a < b ==> a * m + m <= b * m
  {
    if a < b {
      AtLeast(b - a, m);
      Distribute(a, b - a, m);
    } else {
      AtLeast(a - b, m);
      Distribute(b, a - b, m);
    }
  }

  lemma FirstBounds(p: nat, range: nat)
    requires range > 0
    ensures First(p, range) * range >= DRAWS * p
    ensures First(p, range) * range <= DRAWS * p + range - 1
  {
    var n := DRAWS * p + range - 1;
    assert n == n / range * range + n % range;
  }

  /** A draw reaches offset `p` exactly from the first such draw on. */
  lemma Reaches(d: nat, p: nat, range: nat)
    requires range > 0
    ensures Scaled(d, range) >= p <==> d >= First(p, range)
  {
    var f := First(p, range);
    FirstBounds(p, range);
    Cancel(d, f, range);
  }

  /** The draws that give offset `p`. */
  ghost function Draws(p: nat, range: nat): set<int> {
    set d: int | 0 <= d < DRAWS && Scaled(d, range) == p
  }

  predicate Within(a: int, d: int, b: int) {
    a <= d < b
  }

  ghost function Interval(a: int, b: int): set<int> {
    set d: int | a <= d < b && Within(a, d, b)
  }

  lemma {:induction false} IntervalSize(a: int, b: int)
    requires a <= b
    ensures |Interval(a, b)| == b - a
    decreases b - a
  {
    if a < b {
      IntervalSize(a, b - 1);
      assert Interval(a, b) == Interval(a, b - 1) + {b - 1};
    } else {
      assert Interval(a, b) == {};
    }
  }

  lemma LastFirst(range: nat)
    requires range > 0
    ensures First(range, range) == DRAWS
  {
    FirstBounds(range, range);
    Cancel(First(range, range), DRAWS, range);
    Cancel(DRAWS, First(range, range), range);
  }

  lemma FirstMonotone(p: nat, q: nat, range: nat)
    requires range > 0 && p <= q
    ensures First(p, range) <= First(q, range)
  {
    FirstBounds(p, range);
    FirstBounds(q, range);
    Cancel(First(q, range), First(p, range), range);
  }

  /** The draws of an offset are an interval, and how many there are. */
  lemma DrawsCount(p: nat, range: nat)
    requires p < range
    ensures Draws(p, range) == Interval(First(p, range), First(p + 1, range))
    ensures |Draws(p, range)| == First(p + 1, range) - First(p, range)
  {
    FirstMonotone(p, p + 1, range);
    FirstMonotone(p + 1, range, range);
    LastFirst(range);
    forall d: int | 0 <= d ensures Scaled(d, range) == p <==> First(p, range) <= d < First(p + 1, range) {
      Reaches(d, p, range);
      Reaches(d, p + 1, range);
    }
    IntervalSize(First(p, range), First(p + 1, range));
  }

  /** Two multiples that bracket `n * range` bracket `n`. */
  lemma Share(n: int, q: int, r: int, range: int)
    requires range > 0 && 0 <= r < range
    requires q * range + r - range < n * range < q * range + r + range
    ensures q <= n <= q + 1
  {
    Cancel(n, q, range);
    Cancel(q + 1, n, range);
    assert (q + 1) * range == q * range + range;
  }

  /** The number of draws is the average share, rounded down or up. */
  lemma DrawsShare(p: nat, range: nat)
    requires p < range <= DRAWS
    ensures DRAWS / range <= |Draws(p, range)| <= DRAWS / range + 1
  {
    DrawsCount(p, range);
    FirstBounds(p, range);
    FirstBounds(p + 1, range);
    var f, g := First(p, range), First(p + 1, range);
    assert (g - f) * range == g * range - f * range;
    DivMod(DRAWS, range);
    Share(g - f, DRAWS / range, DRAWS % range, range);
  }

  lemma DivMod(n: int, m: int)
    requires m > 0
    ensures n == n / m * m + n % m && 0 <= n % m < m
  {
  }

  /** Every draw gives a port of the effective range, and larger draws give no smaller ports. */
  lemma PortInRange(draw: nat, minSetting: nat, maxSetting: nat)
    requires draw < DRAWS
    ensures Low(minSetting) <= Port(draw, minSetting, maxSetting) <= High(minSetting, maxSetting)
    ensures forall d :: 0 <= d <= draw ==> Port(d, minSetting, maxSetting) <= Port(draw, minSetting, maxSetting)
  {
    var range := Range(minSetting, maxSetting);
    LastFirst(range);
    Reaches(draw, range, range);
    forall d: nat | d <= draw ensures Scaled(d, range) <= Scaled(draw, range) {
      Reaches(d, Scaled(d, range), range);
      Reaches(draw, Scaled(d, range), range);
    }
  }

  /** A range that is configured within bounds is used from end to end. */
  lemma WholeRange(minSetting: nat, maxSetting: nat)
    requires 1024 < minSetting <= maxSetting <= 65535
    ensures Port(0, minSetting, maxSetting) == minSetting && Port(65535, minSetting, maxSetting) == maxSetting
    ensures forall d :: 0 <= d < 65536 ==> minSetting <= Port(d, minSetting, maxSetting) <= maxSetting
  {
    var range := Range(minSetting, maxSetting);
    assert range == maxSetting - minSetting + 1;
    Reaches(65535, range - 1, range);
    FirstBounds(range - 1, range);
    Cancel(First(range - 1, range), 65536, range);
    forall d: nat | d < 65536 ensures minSetting <= Port(d, minSetting, maxSetting) <= maxSetting {
      PortInRange(d, minSetting, maxSetting);
    }
    PortInRange(65535, minSetting, maxSetting);
  }

  /** The draws that give port `p`. */
  ghost function DrawsOf(p: nat, minSetting: nat, maxSetting: nat): set<int> {
    set d: int | 0 <= d < DRAWS && Port(d, minSetting, maxSetting) == p
  }

  /** Every port of the effective range is drawn, and any two are drawn equally often up to one
      draw. */
  lemma PortsEven(p: nat, q: nat, minSetting: nat, maxSetting: nat)
    requires Low(minSetting) <= p <= High(minSetting, maxSetting)
    requires Low(minSetting) <= q <= High(minSetting, maxSetting)
    ensures DrawsOf(p, minSetting, maxSetting) != {}
    ensures |DrawsOf(p, minSetting, maxSetting)| <= |DrawsOf(q, minSetting, maxSetting)| + 1
  {
    var range, low := Range(minSetting, maxSetting), Low(minSetting);
    DrawsShare(p - low, range);
    DrawsShare(q - low, range);
    assert DrawsOf(p, minSetting, maxSetting) == Draws(p - low, range);
    assert DrawsOf(q, minSetting, maxSetting) == Draws(q - low, range);
    assert DRAWS / range >= 1 by {
      DivMod(DRAWS, range);
      Cancel(DRAWS / range, 1, range);
    }
  }
}
