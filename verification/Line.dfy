/** Line drawing in integer arithmetic. */
module Line {

  /** 32-bit signed values: an assignment out of range would not verify. */
  type i32 = x: int | -0x8000_0000 <= x < 0x8000_0000

  const COORDINATES := 0x8000_0000

  function Max(a: nat, b: nat): nat { if a > b then a else b }

  function Distance(a: nat, b: nat): nat { if b > a then b - a else a - b }

  /** `n` steps from `a` towards `b`. */
  function Towards(a: nat, b: nat, n: int): int { if a < b then a + n else a - n }

  /** k * minor / major, rounded to the nearest integer; exact halves are rounded down. */
  function Rounded(k: nat, major: nat, minor: nat): int
    requires major > 0
  {
    (k * minor + major - 1 - major / 2) / major
  }

  datatype Point = Point(x: int, y: int)

  /** The `k`-th pixel of the ideal line: `k` steps along the longer axis, and the rounded number of
      steps along the other. */
  function Ideal(x1: nat, y1: nat, x2: nat, y2: nat, k: nat): Point {
    var dx, dy := Distance(x1, x2), Distance(y1, y2);
    if dx == 0 && dy == 0 then Point(x1, y1)
    else if dx > dy then Point(Towards(x1, x2, k), Towards(y1, y2, Rounded(k, dx, dy)))
    else Point(Towards(x1, x2, Rounded(k, dy, dx)), Towards(y1, y2, k))
  }

  /** The remainder that the error variable keeps determines the rounded quotient. */
  lemma RoundedIs(k: nat, major: nat, minor: nat, m: int, rest: int)
    requires major > 0 && 0 <= rest < major && m * major == k * minor - major / 2 + rest
    ensures Rounded(k, major, minor) == m
  {
    var n := k * minor + major - 1 - major / 2;
    var r := major - 1 - rest;
    assert n == m * major + r;
    DivUnique(n, major, m, r);
  }

  lemma DivUnique(n: int, d: int, q: int, r: int)
    requires d > 0 && 0 <= r < d && n == q * d + r
    ensures n / d == q && n % d == r
  {
    var e := n / d - q;
    assert n / d * d + n % d == n;
    assert e * d == r - n % d;
    assert e >= 1 ==> e * d >= d;
    assert e <= -1 ==> e * d <= -d;
  }

  /** Every pixel is within half a pixel of the line, measured along the shorter axis. */
  lemma HalfPixel(k: nat, major: nat, minor: nat)
    requires major > 0
    ensures var off := Rounded(k, major, minor) * major - k * minor; -1 * major <= 2 * off <= major
  {
    var n := k * minor + major - 1 - major / 2;
    assert n / major * major + n % major == n;
  }

  /** The longer axis's full length takes the shorter axis to its full length, and no further. */
  lemma RoundedEnds(k: nat, major: nat, minor: nat)
    requires major > 0 && k <= major
    ensures 0 <= Rounded(k, major, minor) <= minor
    ensures Rounded(0, major, minor) == 0 && Rounded(major, major, minor) == minor
  {
    RoundedIs(0, major, minor, 0, major / 2);
    RoundedIs(major, major, minor, minor, major / 2);
    RoundedMonotone(0, k, major, minor);
    RoundedMonotone(k, major, major, minor);
  }

  lemma RoundedMonotone(j: nat, k: nat, major: nat, minor: nat)
    requires major > 0 && j <= k
    ensures Rounded(j, major, minor) <= Rounded(k, major, minor)
  {
    assert j * minor <= k * minor by { MulMonotone(j, k, minor); }
    DivMonotone(j * minor + major - 1 - major / 2, k * minor + major - 1 - major / 2, major);
  }

  lemma MulMonotone(j: nat, k: nat, m: nat)
    requires j <= k
    ensures j * m <= k * m
  {
    assert k * m - j * m == (k - j) * m;
  }

  lemma DivMonotone(a: int, b: int, d: int)
    requires d > 0 && a <= b
    ensures a / d <= b / d
  {
    assert a / d * d + a % d == a && b / d * d + b % d == b;
    var e := a / d - b / d;
    assert e * d == a - b - a % d + b % d;
    assert e >= 1 ==> e * d >= d;
  }

  /** The pixels run from one end to the other. */
  lemma IdealEnds(x1: nat, y1: nat, x2: nat, y2: nat)
    ensures Ideal(x1, y1, x2, y2, 0) == Point(x1, y1)
    ensures Ideal(x1, y1, x2, y2, Max(Distance(x1, x2), Distance(y1, y2))) == Point(x2, y2)
  {
    var dx, dy := Distance(x1, x2), Distance(y1, y2);
    if dx > dy {
      RoundedEnds(0, dx, dy);
    } else if dy > 0 {
      RoundedEnds(0, dy, dx);
    }
  }

  /** The state of the loop after `k` steps, with `a` of them along x and `b` along y. */
  predicate OnTrack(dx: nat, dy: nat, k: nat, a: nat, b: nat, err: int) {
    if dx > dy then a == k && 0 <= err < dx && b * dx == k * dy - dx / 2 + err
    else b == k && (if dy == 0 then err == 0 && a == 0 else 0 <= -err < dy && a * dy == k * dx - dy / 2 - err)
  }

  lemma TrackStart(dx: nat, dy: nat)
    ensures OnTrack(dx, dy, 0, 0, 0, FirstError(dx, dy))
  {
  }

  /** Half of the longer distance, with the sign that tells which one it is; division truncates. */
  function FirstError(dx: nat, dy: nat): int { if dx > dy then dx / 2 else 0 - dy / 2 }

  /** One round of the loop, as the code decides it from the error alone. */
  lemma TrackStep(dx: nat, dy: nat, k: nat, a: nat, b: nat, err: int)
    requires OnTrack(dx, dy, k, a, b, err) && (dx > 0 || dy > 0)
    ensures var right, down := err > 0 - dx, err < dy;
            OnTrack(dx, dy, k + 1, if right then a + 1 else a, if down then b + 1 else b,
                    err - (if right then dy else 0) + (if down then dx else 0))
  {
    if dx > dy {
      assert (k + 1) * dy == k * dy + dy && (b + 1) * dx == b * dx + dx;
    } else {
      assert (k + 1) * dx == k * dx + dx && (a + 1) * dy == a * dy + dy;
    }
  }

  /** The steps taken are those of the ideal line. */
  lemma TrackIdeal(x1: nat, y1: nat, x2: nat, y2: nat, k: nat, a: nat, b: nat, err: int)
    requires OnTrack(Distance(x1, x2), Distance(y1, y2), k, a, b, err) && k <= Max(Distance(x1, x2), Distance(y1, y2))
    ensures Ideal(x1, y1, x2, y2, k) == Point(Towards(x1, x2, a), Towards(y1, y2, b))
    ensures a <= Distance(x1, x2) && b <= Distance(y1, y2)
    ensures a == Distance(x1, x2) && b == Distance(y1, y2) <==> k == Max(Distance(x1, x2), Distance(y1, y2))
  {
    var dx, dy := Distance(x1, x2), Distance(y1, y2);
    if dx > dy {
      RoundedIs(k, dx, dy, b, err);
      RoundedEnds(k, dx, dy);
    } else if dy > 0 {
      RoundedIs(k, dy, dx, a, 0 - err);
      RoundedEnds(k, dy, dx);
    }
  }

  // ----- Overflow of the error variable -----

  /** What the error variable is the negative of, after `k` steps along y. */
  function Residue(dx: nat, dy: nat, k: nat): (t: nat)
    requires dy > 0
    ensures t < dy
  {
    (dy / 2 - k * dx) % dy
  }

  /** In step `k`, `err -= dy` leaves the 32-bit range before `err += dx` brings it back. */
  predicate OverflowsAt(dx: nat, dy: nat, k: nat) {
    dx <= dy && dy > 0 && Residue(dx, dy, k) < dx && Residue(dx, dy, k) + dy > COORDINATES
  }

  lemma ResidueIs(dx: nat, dy: nat, k: nat, a: nat, b: nat, err: int)
    requires OnTrack(dx, dy, k, a, b, err) && dx <= dy && dy > 0
    ensures err == 0 - Residue(dx, dy, k)
  {
    DivUnique(dy / 2 - k * dx, dy, 0 - a, 0 - err);
  }

  function Gcd(a: nat, b: nat): nat
    decreases b
  {
    if b == 0 then a else Gcd(b, a % b)
  }

  lemma {:induction false} Bezout(a: nat, b: nat) returns (u: int, v: int, p: nat, q: nat)
    requires a > 0 || b > 0
    ensures Gcd(a, b) > 0 && u * a + v * b == Gcd(a, b) && a == p * Gcd(a, b) && b == q * Gcd(a, b)
    decreases b
  {
    GcdStep(a, b);
    hide Gcd;
    if b == 0 {
      u, v, p, q := 1, 0, 1, 0;
    } else {
      var u', v', p', q' := Bezout(b, a % b);
      var z := a / b;
      u, v, p, q := v', u' - v' * z, z * p' + q', p';
      DivMod(a, b);
      BezoutStep(a, b, z, a % b, u', v', p', q', Gcd(a, b));
    }
  }

  lemma GcdStep(a: nat, b: nat)
    ensures Gcd(a, b) == if b == 0 then a else Gcd(b, a % b)
  {
  }

  lemma BezoutStep(a: int, b: int, z: int, m: int, u: int, v: int, p: int, q: int, g: int)
    requires a == z * b + m && u * b + v * m == g && b == p * g && m == q * g
    ensures v * a + (u - v * z) * b == g && a == (z * p + q) * g
  {
    MulMinus(u, v * z, b);
    assert v * a == v * (z * b) + v * m;
    assert v * (z * b) == v * z * b;
    MulPlus(z * p, q, g);
    assert z * b == z * (p * g) == z * p * g;
  }

  lemma MulMinus(x: int, y: int, z: int)
    ensures (x - y) * z == x * z - y * z
  {
  }

  lemma MulPlus(x: int, y: int, z: int)
    ensures (x + y) * z == x * z + y * z
  {
  }

  /** The largest residue below `dx` that any step meets. */
  function Peak(dx: nat, dy: nat): int
    requires dx > 0
  {
    var g := Gcd(dx, dy);
    if g == 0 then 0 else dx - g + dy / 2 % g
  }

  /** No step meets a larger one: residues differ by multiples of the greatest common divisor. */
  lemma PeakBounds(dx: nat, dy: nat, k: nat)
    requires 0 < dx <= dy && Residue(dx, dy, k) < dx
    ensures Residue(dx, dy, k) <= Peak(dx, dy)
  {
    hide Gcd;
    var _, _, p, q := Bezout(dx, dy);
    var g := Gcd(dx, dy);
    var h := dy / 2;
    var z := (h - k * dx) / dy;
    DivMod(h - k * dx, dy);
    DivMod(h, g);
    PeakLargest(dx, dy, g, p, q, h, h / g, h % g, k, z, Residue(dx, dy, k));
  }

  lemma DivMod(n: int, d: int)
    requires d > 0
    ensures n == n / d * d + n % d && 0 <= n % d < d
  {
  }

  lemma PeakLargest(dx: int, dy: int, g: int, p: int, q: int, h: int, w: int, r: int, k: int, z: int, t: int)
    requires g > 0 && 0 <= r < g && dx == p * g && dy == q * g && h == w * g + r
    requires h - k * dx == z * dy + t && t < dx
    ensures t <= dx - g + r
  {
    var s := w - k * p - z * q;
    assert t == r + s * g by {
      assert k * dx == k * (p * g) == k * p * g;
      assert z * dy == z * (q * g) == z * q * g;
      MulMinus(w, k * p, g);
      MulMinus(w - k * p, z * q, g);
    }
    SmallerFactor(s, p, g);
    MulMinus(p, 1, g);
    MulAtMost(s, p - 1, g);
  }

  lemma SmallerFactor(s: int, p: int, g: int)
    requires g > 0 && s * g < p * g
    ensures s < p
  {
    if s >= p { MulAtMost(p, s, g); }
  }

  lemma MulAtMost(s: int, m: int, g: int)
    requires g > 0
    ensures s <= m ==> s * g <= m * g
  {
    if s <= m {
      assert (m - s) * g >= 0;
      MulMinus(m, s, g);
    }
  }

  lemma FactorAtMost(p: int, g: int)
    requires g > 0 && p * g > 0
    ensures g <= p * g
  {
    MulAtMost(p, 0, g);
    MulAtMost(1, p, g);
  }

  /** Some step meets it. */
  lemma PeakMet(dx: nat, dy: nat) returns (k: nat)
    requires 0 < dx <= dy
    ensures k < dy && Residue(dx, dy, k) == Peak(dx, dy) < dx
  {
    hide Gcd;
    var u, v, p, q := Bezout(dx, dy);
    k := PeakStep(dx, dy, Gcd(dx, dy), u, v, p);
  }

  lemma PeakStep(dx: nat, dy: nat, g: nat, u: int, v: int, p: int) returns (k: nat)
    requires 0 < dx <= dy && g > 0 && u * dx + v * dy == g && dx == p * g
    ensures k < dy && Residue(dx, dy, k) == dx - g + dy / 2 % g < dx
  {
    var h := dy / 2;
    var w, r := h / g, h % g;
    DivMod(h, g);
    var c := w - p + 1;
    var uc := u * c;
    DivMod(uc, dy);
    k := uc % dy;
    var z := uc / dy;
    PeakEquation(dx, dy, g, u, v, p, h, w, r, c, k, z);
    FactorAtMost(p, g);
    DivUnique(h - k * dx, dy, c * v + z * dx, dx - g + r);
  }

  lemma PeakEquation(dx: int, dy: int, g: int, u: int, v: int, p: int, h: int, w: int, r: int, c: int, k: int, z: int)
    requires u * dx + v * dy == g && dx == p * g && h == w * g + r && c == w - p + 1 && u * c == z * dy + k
    ensures h - k * dx == (c * v + z * dx) * dy + (dx - g + r)
  {
    assert c * g == w * g - p * g + g by {
      MulPlus(w - p, 1, g);
      MulMinus(w, p, g);
    }
    assert u * c * dx == c * g - c * v * dy by {
      assert u * c * dx == c * (u * dx);
      assert c * (g - v * dy) == c * g - c * (v * dy);
      assert c * (v * dy) == c * v * dy;
    }
    assert k * dx == u * c * dx - z * dx * dy by {
      MulMinus(u * c, z * dy, dx);
      assert z * dy * dx == z * dx * dy;
    }
    MulPlus(c * v, z * dx, dy);
  }

  /** The caller can tell from the two distances whether the error variable will overflow. */
  predicate WillOverflow(dx: nat, dy: nat) {
    0 < dx <= dy && Peak(dx, dy) + dy > COORDINATES
  }

  /** One of the first `n` steps overflows. */
  predicate OverflowsBefore(dx: nat, dy: nat, n: nat) {
    n > 0 && (OverflowsAt(dx, dy, n - 1) || OverflowsBefore(dx, dy, n - 1))
  }

  lemma {:induction false} OverflowFound(dx: nat, dy: nat, n: nat, k: nat)
    requires k < n && OverflowsAt(dx, dy, k)
    ensures OverflowsBefore(dx, dy, n)
    decreases n
  {
    if k < n - 1 { OverflowFound(dx, dy, n - 1, k); }
  }

  lemma {:induction false} OverflowForeseen(dx: nat, dy: nat, n: nat)
    requires OverflowsBefore(dx, dy, n)
    ensures WillOverflow(dx, dy)
    decreases n
  {
    hide Peak, Residue;
    if OverflowsAt(dx, dy, n - 1) {
      PeakBounds(dx, dy, n - 1);
    } else {
      OverflowForeseen(dx, dy, n - 1);
    }
  }

  lemma OverflowExactly(dx: nat, dy: nat)
    ensures WillOverflow(dx, dy) <==> OverflowsBefore(dx, dy, Max(dx, dy))
  {
    hide Peak, Residue, OverflowsBefore;
    if WillOverflow(dx, dy) {
      var k := PeakMet(dx, dy);
      OverflowFound(dx, dy, Max(dx, dy), k);
    }
    if OverflowsBefore(dx, dy, Max(dx, dy)) { OverflowForeseen(dx, dy, Max(dx, dy)); }
  }

  /** Coordinates below 2^31 are not enough: the longest diagonal overflows in its first step. */
  lemma DiagonalOverflows()
    ensures WillOverflow(Distance(0, COORDINATES - 1), Distance(0, COORDINATES - 1))
    ensures OverflowsAt(COORDINATES - 1, COORDINATES - 1, 0)
  {
    assert Gcd(COORDINATES - 1, COORDINATES - 1) == COORDINATES - 1;
  }

  /** Distances that add up to at most 2^31 are enough. */
  lemma ShortLinesAreSafe(dx: nat, dy: nat)
    requires dx + dy <= COORDINATES
    ensures !WillOverflow(dx, dy)
  {
    hide Gcd;
  }

  /** 32-bit arithmetic of a release build. */
  function Wrap32(x: int): (r: i32)
    ensures -0x8000_0000 <= x < 0x8000_0000 ==> r == x
  {
    (x + 0x8000_0000) % 0x1_0000_0000 - 0x8000_0000
  }

  predicate Fits(x: int) { -0x8000_0000 <= x < 0x8000_0000 }

  /** The wrapped difference and sum give the true result when that fits. */
  lemma WrapsBack(x: int, d: int)
    requires Fits(x + d)
    ensures Wrap32(Wrap32(x) + d) == x + d
  {
  }

  /** One round of the loop in 32-bit arithmetic: the new error is the true one, and an operation has
      left the range exactly in an overflowing step. */
  lemma WrappedStep(dx: nat, dy: nat, k: nat, a: nat, b: nat, err: int)
    requires OnTrack(dx, dy, k, a, b, err) && dx < COORDINATES && dy < COORDINATES && (dx > 0 || dy > 0)
    ensures var right, down := err > 0 - dx, err < dy;
            var e1 := if right then Wrap32(err - dy) else err;
            var e2 := if down then Wrap32(e1 + dx) else e1;
            && OnTrack(dx, dy, k + 1, if right then a + 1 else a, if down then b + 1 else b, e2)
            && ((right && !Fits(err - dy)) || (down && !Fits(e1 + dx)) <==> OverflowsAt(dx, dy, k))
  {
    hide Wrap32, OnTrack, Residue;
    TrackBounds(dx, dy, k, a, b, err);
    TrackStep(dx, dy, k, a, b, err);
    if dx > dy { WrapFlat(dx, dy, err); } else { WrapSteep(dx, dy, err); }
  }

  lemma WrapFlat(dx: nat, dy: nat, err: int)
    requires dy < dx < COORDINATES && 0 <= err < dx
    ensures Fits(err - dy) && Wrap32(err - dy) == err - dy
    ensures err < dy ==> Fits(err - dy + dx) && Wrap32(err - dy + dx) == err - dy + dx
  {
  }

  lemma WrapSteep(dx: nat, dy: nat, err: int)
    requires dx <= dy < COORDINATES && 0 - dy < err <= 0
    ensures Fits(err + dx) && Wrap32(err + dx) == err + dx
    ensures err > 0 - dx ==> Wrap32(Wrap32(err - dy) + dx) == err - dy + dx
    ensures Fits(err - dy) ==> Fits(Wrap32(err - dy) + dx)
    ensures Fits(err - dy) <==> 0 - err + dy <= COORDINATES
  {
    if err > 0 - dx { WrapsBack(err - dy, dx); }
  }

  lemma TrackBounds(dx: nat, dy: nat, k: nat, a: nat, b: nat, err: int)
    requires OnTrack(dx, dy, k, a, b, err)
    ensures if dx > dy then 0 <= err < dx
            else if dy == 0 then err == 0
            else 0 - dy < err <= 0 && err == 0 - Residue(dx, dy, k)
  {
    if dx <= dy && dy > 0 { ResidueIs(dx, dy, k, a, b, err); }
  }

  // ----- Coordinates -----

  /** A 32-bit value read as unsigned. */
  function Unsigned(x: i32): int { if x < 0 then x + 0x1_0000_0000 else x }

  /** From `p` to `q` the sign of the signed reading changes. */
  predicate Crosses(p: int, q: int) { (p < COORDINATES) != (q < COORDINATES) }

  lemma SignedReading(t: int, u: int)
    requires 0 <= t < 0x1_0000_0000 && 0 <= u < 0x1_0000_0000
    ensures Unsigned(Wrap32(t)) == t && (Wrap32(t) == Wrap32(u) <==> t == u)
  {
  }

  /** One step along an axis: the unsigned reading moves by one, and the signed sum overflows exactly
      where the sign changes. */
  lemma AxisStep(p: nat, q: nat, n: nat)
    requires n < Distance(p, q) && p < 0x1_0000_0000 && q < 0x1_0000_0000
    ensures var t, s := Towards(p, q, n), if p < q then 1 else -1;
            && Wrap32(Wrap32(t) + s) == Wrap32(Towards(p, q, n + 1))
            && (Crosses(p, Towards(p, q, n + 1)) <==> Crosses(p, t) || !Fits(Wrap32(t) + s))
  {
  }

  lemma OnAxis(p: nat, q: nat, n: nat)
    requires n <= Distance(p, q) && p < 0x1_0000_0000 && q < 0x1_0000_0000
    ensures 0 <= Towards(p, q, n) < 0x1_0000_0000 && (Towards(p, q, n) == q <==> n == Distance(p, q))
  {
  }

  /** The variables of the loop after `k` steps. */
  predicate At(x1: nat, y1: nat, x2: nat, y2: nat, k: nat, a: nat, b: nat, x: i32, y: i32, err: i32) {
    && OnTrack(Distance(x1, x2), Distance(y1, y2), k, a, b, err)
    && k <= Max(Distance(x1, x2), Distance(y1, y2)) && a <= Distance(x1, x2) && b <= Distance(y1, y2)
    && x == Wrap32(Towards(x1, x2, a)) && y == Wrap32(Towards(y1, y2, b))
  }

  /** Some operation of the first `k` steps has left the 32-bit range. */
  predicate Overflowed(x1: nat, y1: nat, x2: nat, y2: nat, k: nat, a: nat, b: nat) {
    || OverflowsBefore(Distance(x1, x2), Distance(y1, y2), k)
    || Crosses(x1, Towards(x1, x2, a)) || Crosses(y1, Towards(y1, y2, b))
  }

  predicate Small(x1: nat, y1: nat, x2: nat, y2: nat) {
    && x1 < 0x1_0000_0000 && y1 < 0x1_0000_0000 && x2 < 0x1_0000_0000 && y2 < 0x1_0000_0000
    && Distance(x1, x2) < COORDINATES && Distance(y1, y2) < COORDINATES
  }

  lemma AtStart(x1: nat, y1: nat, x2: nat, y2: nat)
    requires Small(x1, y1, x2, y2)
    ensures var dx, dy := Distance(x1, x2), Distance(y1, y2);
            -COORDINATES <= FirstError(dx, dy) < COORDINATES &&
            At(x1, y1, x2, y2, 0, 0, 0, Wrap32(x1), Wrap32(y1), FirstError(dx, dy))
    ensures !Overflowed(x1, y1, x2, y2, 0, 0, 0)
  {
    hide Wrap32, OnTrack;
    TrackStart(Distance(x1, x2), Distance(y1, y2));
  }

  /** The pixel is the ideal one, and the loop ends behind the last. */
  lemma AtPixel(x1: nat, y1: nat, x2: nat, y2: nat, k: nat, a: nat, b: nat, x: i32, y: i32, err: i32)
    requires Small(x1, y1, x2, y2) && At(x1, y1, x2, y2, k, a, b, x, y, err)
    ensures Point(Unsigned(x), Unsigned(y)) == Ideal(x1, y1, x2, y2, k)
    ensures var last := x == Wrap32(x2) && y == Wrap32(y2);
            && (last <==> k == Max(Distance(x1, x2), Distance(y1, y2)))
            && (last ==> Towards(x1, x2, a) == x2 && Towards(y1, y2, b) == y2)
  {
    TrackIdeal(x1, y1, x2, y2, k, a, b, err);
    hide OnTrack, Ideal, Wrap32, Unsigned;
    OnAxis(x1, x2, a);
    OnAxis(y1, y2, b);
    SignedReading(Towards(x1, x2, a), x2);
    SignedReading(Towards(y1, y2, b), y2);
  }

  /** One round of the loop behind its test, in 32-bit arithmetic. */
  method Advance(dx: i32, dy: i32, sx: i32, sy: i32, x: i32, y: i32, err: i32)
    returns (x': i32, y': i32, err': i32, over: bool)
    requires dx >= 0 && dy >= 0
    ensures var right, down := err > 0 - dx, err < dy;
            var e1 := if right then Wrap32(err - dy) else err;
            && x' == (if right then Wrap32(x + sx) else x) && y' == (if down then Wrap32(y + sy) else y)
            && err' == (if down then Wrap32(e1 + dx) else e1)
            && (over <==>
                 || (right && !Fits(err - dy)) || (down && !Fits(e1 + dx))
                 || (right && !Fits(x + sx)) || (down && !Fits(y + sy)))
  {
    hide Wrap32, Fits;
    x', y', err', over := x, y, err, false;
    var e2 := err;
    if e2 > 0 - dx {
      over := !Fits(err' - dy) || !Fits(x + sx);
      err' := Wrap32(err' - dy);
      x' := Wrap32(x + sx);
    }
    if e2 < dy {
      over := over || !Fits(err' + dx) || !Fits(y + sy);
      err' := Wrap32(err' + dx);
      y' := Wrap32(y + sy);
    }
  }

  /** Steps that are taken lead to the ideal line's next pixel. */
  lemma AtNext(x1: nat, y1: nat, x2: nat, y2: nat, k: nat, a: nat, b: nat, x: i32, y: i32, err: i32)
    requires Small(x1, y1, x2, y2) && At(x1, y1, x2, y2, k, a, b, x, y, err)
    requires k < Max(Distance(x1, x2), Distance(y1, y2))
    ensures var dx, dy, sx, sy :=
              Distance(x1, x2), Distance(y1, y2), if x1 < x2 then 1 else -1, if y1 < y2 then 1 else -1;
            var right, down := err > 0 - dx, err < dy;
            var e1 := if right then Wrap32(err - dy) else err;
            var e2 := if down then Wrap32(e1 + dx) else e1;
            var a', b' := if right then a + 1 else a, if down then b + 1 else b;
            && At(x1, y1, x2, y2, k + 1, a', b',
                  if right then Wrap32(x + sx) else x, if down then Wrap32(y + sy) else y, e2)
            && (Overflowed(x1, y1, x2, y2, k + 1, a', b') <==>
                 || Overflowed(x1, y1, x2, y2, k, a, b)
                 || (right && !Fits(err - dy)) || (down && !Fits(e1 + dx))
                 || (right && !Fits(x + sx)) || (down && !Fits(y + sy)))
  {
    hide OnTrack, Ideal, Wrap32, Unsigned, Fits, Towards, Crosses, OverflowsAt;
    var dx, dy := Distance(x1, x2), Distance(y1, y2);
    WrappedStep(dx, dy, k, a, b, err);
    var right, down := err + dx > 0, err < dy;
    var e1 := if right then Wrap32(err - dy) else err;
    TrackIdeal(x1, y1, x2, y2, k + 1, if right then a + 1 else a, if down then b + 1 else b,
      if down then Wrap32(e1 + dx) else e1);
    hide Distance, Max;
    if right { AxisStep(x1, x2, a); }
    if down { AxisStep(y1, y2, b); }
  }

  /** Plots exactly max(dx, dy) + 1 pixels, the ideal ones, in order. `overflow` says that some
      operation left the 32-bit range; the wrapped arithmetic still draws the same line. */
  method DrawLine(x1: nat, y1: nat, x2: nat, y2: nat) returns (pixels: seq<Point>, overflow: bool)
    requires Small(x1, y1, x2, y2)
    ensures |pixels| == Max(Distance(x1, x2), Distance(y1, y2)) + 1
    ensures pixels[0] == Point(x1, y1) && pixels[|pixels| - 1] == Point(x2, y2)
    ensures forall k :: 0 <= k < |pixels| ==> pixels[k] == Ideal(x1, y1, x2, y2, k)
    ensures overflow <==> WillOverflow(Distance(x1, x2), Distance(y1, y2)) || Crosses(x1, x2) || Crosses(y1, y2)
  {
    hide Ideal, At, Overflowed, WillOverflow, Wrap32, Fits, Max, Crosses, Unsigned, FirstError;
    var dx: i32 := if x2 > x1 then x2 - x1 else x1 - x2;
    var dy: i32 := if y2 > y1 then y2 - y1 else y1 - y2;
    var sx: i32 := if x1 < x2 then 1 else -1;
    var sy: i32 := if y1 < y2 then 1 else -1;
    AtStart(x1, y1, x2, y2);
    var err: i32 := FirstError(dx, dy);
    var x: i32 := Wrap32(x1);
    var y: i32 := Wrap32(y1);
    pixels, overflow := [], false;
    ghost var a, b := 0, 0;
    ghost var last := Max(dx, dy);
    hide Distance;
    while true
      invariant |pixels| <= last && At(x1, y1, x2, y2, |pixels|, a, b, x, y, err)
      invariant forall k :: 0 <= k < |pixels| ==> pixels[k] == Ideal(x1, y1, x2, y2, k)
      invariant overflow <==> Overflowed(x1, y1, x2, y2, |pixels|, a, b)
      decreases last - |pixels|
    {
      ghost var k := |pixels|;
      AtPixel(x1, y1, x2, y2, k, a, b, x, y, err);
      pixels := pixels + [Point(Unsigned(x), Unsigned(y))];
      if x == Wrap32(x2) && y == Wrap32(y2) { break; }
      AtNext(x1, y1, x2, y2, k, a, b, x, y, err);
      a, b := if err > 0 - dx then a + 1 else a, if err < dy then b + 1 else b;
      var over;
      x, y, err, over := Advance(dx, dy, sx, sy, x, y, err);
      overflow := overflow || over;
    }
    IdealEnds(x1, y1, x2, y2);
    AllOverflows(x1, y1, x2, y2, a, b);
  }

  lemma AllOverflows(x1: nat, y1: nat, x2: nat, y2: nat, a: nat, b: nat)
    requires Towards(x1, x2, a) == x2 && Towards(y1, y2, b) == y2
    ensures var dx, dy := Distance(x1, x2), Distance(y1, y2);
            Overflowed(x1, y1, x2, y2, Max(dx, dy), a, b) <==>
              WillOverflow(dx, dy) || Crosses(x1, x2) || Crosses(y1, y2)
  {
    hide OverflowsBefore, WillOverflow, Crosses, Max;
    OverflowExactly(Distance(x1, x2), Distance(y1, y2));
  }
}
