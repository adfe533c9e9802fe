/** Retry delays in 64-bit nanoseconds (backoff/backoff.go, internal/timex/timex.go). */
module Backoff {

  const MAX64: int := 0x7fff_ffff_ffff_ffff
  const TWO64: int := 0x1_0000_0000_0000_0000
  const TWO63: int := 0x8000_0000_0000_0000

  predicate IsInt64(x: int) {
    -TWO63 <= x <= MAX64
  }

  /** Conversion to a signed and to an unsigned 64-bit integer. */
  function Signed(x: int): (r: int)
    ensures IsInt64(r) && (IsInt64(x) ==> r == x)
  {
    var u := x % TWO64;
    if u > MAX64 then u - TWO64 else u
  }

  function Unsigned(x: int): (u: nat)
    ensures u < TWO64 && (0 <= x < TWO64 ==> u == x)
  {
    x % TWO64
  }

  function Power2(n: nat): (p: nat)
    ensures p > 0
  {
    if n == 0 then 1 else 2 * Power2(n - 1)
  }

  lemma {:induction false} Power2Add(a: nat, b: nat)
    ensures Power2(a + b) == Power2(a) * Power2(b)
  {
    if b > 0 {
      Power2Add(a, b - 1);
      assert Power2(a + b) == 2 * Power2(a + (b - 1));
    }
  }

  lemma {:induction false} Power2Monotone(a: nat, b: nat)
    requires a <= b
    ensures Power2(a) <= Power2(b)
  {
    if a < b {
      Power2Monotone(a, b - 1);
    }
  }

  lemma Power2Of31()
    ensures Power2(31) == 0x8000_0000
  {
    assert Power2(5) == 32;
    assert Power2(10) == 32 * Power2(5) by { Power2Add(5, 5); }
    assert Power2(20) == 0x10_0000 by { Power2Add(10, 10); }
    assert Power2(30) == 0x4000_0000 by { Power2Add(20, 10); }
  }

  lemma Power2Of63()
    ensures Power2(63) == TWO63 && Power2(62) == TWO63 / 2
  {
    Power2Of31();
    Power2Add(31, 31);
    assert Power2(63) == 2 * Power2(62);
  }

  /** `1 << uint64(attempt)` as a signed integer. */
  function ShiftOne(attempt: int): int {
    var n := Unsigned(attempt);
    if n >= 64 then 0 else Signed(Power2(n))
  }

  /** `exponential.Backoff`: the product is taken in 128 bits and given up on when it
      does not fit. */
  function ExponentialDelay(scale: int, attempt: int): (d: int)
    ensures IsInt64(d)
  {
    var exp := ShiftOne(attempt);
    if exp <= 0 then MAX64 else Scaled(Unsigned(exp) * Unsigned(scale))
  }

  function Scaled(product: nat): (d: int)
    ensures IsInt64(d)
  {
    var hi, lo := product / TWO64, product % TWO64;
    if hi != 0 || lo / TWO63 % 2 == 1 then MAX64 else Signed(lo)
  }

  function Min(a: int, b: int): int {
    if a < b then a else b
  }

  lemma ShiftMeaning(attempt: int)
    requires IsInt64(attempt)
    ensures 0 <= attempt < 63 ==> ShiftOne(attempt) == Power2(attempt)
    ensures !(0 <= attempt < 63) ==> ShiftOne(attempt) <= 0
  {
    Power2Of63();
    if 0 <= attempt < 63 {
      Power2Monotone(attempt, 62);
    } else if attempt == 63 {
      assert Signed(TWO63) == -TWO63;
    }
  }

  /** Splitting into two words and testing their top bits is testing the product. */
  lemma ScaledMeaning(product: nat)
    ensures Scaled(product) == Min(product, MAX64)
  {
    if product < TWO64 {
      assert product % TWO64 == product;
    } else {
      assert product / TWO64 >= 1;
    }
  }

  lemma ExactSmall(scale: int, attempt: int)
    requires 0 < scale <= MAX64 && 0 <= attempt < 63
    ensures ExponentialDelay(scale, attempt) == Min(Power2(attempt) * scale, MAX64)
  {
    ShiftMeaning(attempt);
    PowerFits(attempt);
    ScaledMeaning(Power2(attempt) * scale);
  }

  lemma ExactNegative(scale: int, attempt: int)
    requires -TWO63 <= scale < 0 && 0 <= attempt < 63
    ensures ExponentialDelay(scale, attempt) == MAX64
  {
    ShiftMeaning(attempt);
    PowerFits(attempt);
    NegativeScale(scale);
    ProductAtLeast(Power2(attempt), Unsigned(scale));
    ScaledMeaning(Power2(attempt) * Unsigned(scale));
  }

  lemma ExactLarge(scale: int, attempt: int)
    requires 0 < scale <= MAX64 && 63 <= attempt <= MAX64
    ensures ExponentialDelay(scale, attempt) == Min(Power2(attempt) * scale, MAX64)
  {
    ShiftMeaning(attempt);
    LargePower(attempt);
    ProductAtLeast(scale, Power2(attempt));
  }

  /** For every attempt and every scale the delay is the exact exponential, cut off at
      the largest duration. */
  lemma ExponentialIsExact(scale: int, attempt: int)
    requires IsInt64(scale) && IsInt64(attempt) && scale != 0
    ensures ExponentialDelay(scale, attempt) ==
            if attempt < 0 || scale < 0 then MAX64 else Min(Power2(attempt) * scale, MAX64)
  {
    if attempt < 0 {
      ShiftMeaning(attempt);
    } else if scale < 0 && attempt < 63 {
      ExactNegative(scale, attempt);
    } else if scale < 0 {
      ShiftMeaning(attempt);
    } else if attempt < 63 {
      ExactSmall(scale, attempt);
    } else {
      ExactLarge(scale, attempt);
    }
  }

  lemma NegativeScale(scale: int)
    requires -TWO63 <= scale < 0
    ensures Unsigned(scale) > MAX64
  {
    assert scale % TWO64 == scale + TWO64;
  }

  lemma PowerFits(attempt: nat)
    requires attempt < 63
    ensures Unsigned(Power2(attempt)) == Power2(attempt)
  {
    Power2Monotone(attempt, 62);
    Power2Of63();
  }

  lemma LargePower(attempt: nat)
    requires attempt >= 63
    ensures Power2(attempt) > MAX64
  {
    Power2Monotone(63, attempt);
    Power2Of63();
  }

  lemma ProductAtLeast(a: int, b: int)
    requires a >= 1 && b >= 0
    ensures a * b >= b
  {
  }

  /** So it is positive and never shrinks from one attempt to the next. */
  lemma ExponentialGrows(scale: int, a: int, b: int)
    requires 0 < scale <= MAX64 && 0 <= a <= b <= MAX64
    ensures 0 < ExponentialDelay(scale, a) <= ExponentialDelay(scale, b)
  {
    ExponentialIsExact(scale, a);
    ExponentialIsExact(scale, b);
    Power2Monotone(a, b);
    ProductGrows(Power2(a), Power2(b), scale);
    ProductAtLeast(Power2(a), scale);
  }

  lemma ProductGrows(a: int, b: int, c: int)
    requires a <= b && c >= 0
    ensures a * c <= b * c
  {
  }

  // ---------------------------------------------------------------------------
  // Options

  datatype Strategy =
    | Exponential(scale: int)
    | Constant(d: int)
    | Capped(of: Strategy, max: int)
    | Jittered(of: Strategy, multiplier: real)

  datatype StrategyOption = Maximum(d: int) | Jitter(multiplier: real)

  function Apply(s: Strategy, o: StrategyOption): Strategy {
    match o
    case Maximum(d) => Capped(s, d)
    case Jitter(m) => Jittered(s, m)
  }

  function Build(s: Strategy, options: seq<StrategyOption>): Strategy {
    if options == [] then s
    else Apply(Build(s, options[..|options| - 1]), options[|options| - 1])
  }

  method New(s: Strategy, options: seq<StrategyOption>) returns (r: Strategy)
    ensures r == Build(s, options)
  {
    r := s;
    for i := 0 to |options|
      invariant r == Build(s, options[..i])
    {
      assert options[..i + 1][..i] == options[..i];
      r := Apply(r, options[i]);
    }
    assert options[..|options|] == options;
  }

  /** `timex.DurationMax`, which starts from zero. */
  method DurationMax(ds: seq<int>) returns (d: int)
    ensures d >= 0 && (d == 0 || d in ds)
    ensures forall x :: x in ds ==> x <= d
  {
    d := 0;
    for i := 0 to |ds|
      invariant d >= 0 && (d == 0 || d in ds)
      invariant forall k :: 0 <= k < i ==> ds[k] <= d
    {
      if ds[i] > d {
        d := ds[i];
      }
    }
  }

  function Max(a: int, b: int): int {
    if a > b then a else b
  }

  /** The share of a delay that jitter may add. */
  function Spread(x: int, multiplier: real): int {
    (x as real * multiplier).Floor
  }

  /** What a conversion to a 64-bit integer makes of a number that is none; the language
      leaves it to the machine. */
  type Machine = int -> int

  /** Some machines make the smallest integer of all of them. */
  const SMALLEST: Machine := (n: int) => -TWO63

  /** How many values the random number of a jittered delay can take; with none the
      program panics. */
  function DrawLimit(mc: Machine, x: int, multiplier: real): (n: int)
    ensures IsInt64(n)
  {
    var share := Spread(x, multiplier);
    if IsInt64(share) then share else Signed(mc(share))
  }

  /** The jittered delay for a random number; the sum may wrap around. */
  function JitterBy(x: int, r: int): int {
    Max(0, Max(x, Signed(x + r)))
  }

  /** The closure `Jitter` makes, for a delay and a random number. */
  method JitterDelay(x: int, r: int) returns (d: int)
    ensures d == if x == MAX64 then x else JitterBy(x, r)
  {
    if x == MAX64 {
      return x;
    }
    d := DurationMax([x, Signed(x + r)]);
    assert x in [x, Signed(x + r)] && Signed(x + r) in [x, Signed(x + r)];
  }

  /** What jitter can make of a delay. */
  ghost predicate Jitters(mc: Machine, x: int, m: real, y: int) {
    if x == MAX64 then y == x else exists r :: 0 <= r < DrawLimit(mc, x, m) && y == JitterBy(x, r)
  }

  /** The delays a strategy can give. */
  ghost predicate Gives(mc: Machine, s: Strategy, attempt: int, y: int)
    decreases s
  {
    match s
    case Exponential(scale) => y == ExponentialDelay(scale, attempt)
    case Constant(d) => y == d
    case Capped(of, max) => exists x :: Gives(mc, of, attempt, x) && y == Min(x, max)
    case Jittered(of, m) => exists x :: Gives(mc, of, attempt, x) && Jitters(mc, x, m, y)
  }

  lemma WrapsAround(z: int)
    requires MAX64 < z < TWO64
    ensures Signed(z) == z - TWO64
  {
    assert z % TWO64 == z;
  }

  /** Jitter never lowers a delay, whatever the random number and even when the sum
      wraps around, and never gives a negative one. */
  lemma JitterNeverLowers(x: int, r: int)
    requires IsInt64(x) && 0 <= r <= MAX64
    ensures x <= JitterBy(x, r) <= MAX64
    ensures JitterBy(x, r) == if x + r > MAX64 then x else Max(0, x + r)
  {
    if x + r > MAX64 {
      WrapsAround(x + r);
    }
  }

  /** There is a jittered delay exactly when there is something to choose from; if not,
      the program panics. */
  lemma DrawsIff(mc: Machine, x: int, m: real)
    ensures (exists y :: Jitters(mc, x, m, y)) <==> x == MAX64 || DrawLimit(mc, x, m) > 0
  {
    if x == MAX64 {
      assert Jitters(mc, x, m, x);
    } else if DrawLimit(mc, x, m) > 0 {
      assert Jitters(mc, x, m, JitterBy(x, 0));
    }
  }

  /** The share is a positive 64-bit integer. */
  predicate SafeDraw(x: int, m: real) {
    x == MAX64 || 0 < Spread(x, m) <= MAX64
  }

  ghost predicate Draws(mc: Machine, x: int, m: real) {
    exists y :: Jitters(mc, x, m, y)
  }

  ghost predicate DrawsEverywhere(x: int, m: real) {
    forall mc: Machine :: Draws(mc, x, m)
  }

  lemma SmallestLimit(x: int, m: real)
    requires !SafeDraw(x, m)
    ensures DrawLimit(SMALLEST, x, m) <= 0
  {
    assert SMALLEST(Spread(x, m)) == -TWO63;
  }

  /** There is a jittered delay on every machine exactly when the share is a positive
      64-bit integer, and no machine does worse than one that makes the smallest integer
      of every other number. */
  lemma DrawsEverywhereIff(x: int, m: real)
    ensures DrawsEverywhere(x, m) <==> SafeDraw(x, m)
    ensures Draws(SMALLEST, x, m) <==> SafeDraw(x, m)
  {
    if SafeDraw(x, m) {
      forall mc: Machine
        ensures Draws(mc, x, m)
      {
        DrawsIff(mc, x, m);
      }
    } else {
      SmallestLimit(x, m);
      DrawsIff(SMALLEST, x, m);
      assert !Draws(SMALLEST, x, m);
    }
  }

  lemma RealProductGrows(a: real, b: real, c: real)
    requires a <= b && c >= 0.0
    ensures a * c <= b * c
  {
  }

  lemma SpreadGrows(x: int, c: int, m: real)
    requires x <= c && m >= 0.0
    ensures Spread(x, m) <= Spread(c, m)
  {
    RealProductGrows(x as real, c as real, m);
  }

  lemma FloorBetween(lo: int, r: real, hi: int)
    requires lo as real <= r <= hi as real
    ensures lo <= r.Floor <= hi
  {
  }

  lemma ShareOf(a: real, m: real)
    requires a >= 0.0 && 0.0 <= m <= 1.0
    ensures 0.0 <= a * m <= a
  {
    assert a - a * m == a * (1.0 - m);
  }

  lemma ShareOfAny(a: real, m: real)
    requires 0.0 <= m <= 1.0
    ensures a >= 0.0 ==> 0.0 <= a * m <= a
    ensures a < 0.0 ==> a <= a * m <= 0.0
  {
    if a >= 0.0 {
      ShareOf(a, m);
    } else {
      ShareOf(-a, m);
      assert (-a) * m == -(a * m);
    }
  }

  lemma ShareBetween(x: int, m: real)
    requires 0.0 <= m <= 1.0
    ensures Min(0, x) <= Spread(x, m) <= Max(0, x)
  {
    ShareOfAny(x as real, m);
    FloorBetween(Min(0, x), x as real * m, Max(0, x));
  }

  /** With a multiplier between minus one and one no delay has a share larger than
      itself, and only delays of the multiplier's sign have one at all. */
  lemma SmallSpread(x: int, m: real)
    requires IsInt64(x) && -1.0 <= m <= 1.0
    ensures m >= 0.0 ==> Spread(x, m) <= Max(0, x) && IsInt64(Spread(x, m))
    ensures m < 0.0 ==> Spread(x, m) <= Max(0, -x) && Spread(x, m) >= -TWO63
  {
    if m >= 0.0 {
      ShareBetween(x, m);
    } else {
      ShareBetween(-x, -m);
      assert (-x) as real * (-m) == x as real * m;
    }
  }

  // ---------------------------------------------------------------------------
  // Bounds

  /** Bounds on the delays of a strategy. */
  datatype Bounds = Bounds(lo: int, hi: int)

  ghost predicate Within(mc: Machine, s: Strategy, attempt: int, b: Bounds) {
    forall y :: Gives(mc, s, attempt, y) ==> IsInt64(y) && b.lo <= y <= b.hi
  }

  /** The share jitter adds to a delay is bounded by that of the largest one. */
  predicate Tame(b: Bounds, m: real) {
    -1.0 <= m <= 1.0 || (m > 1.0 && b.lo >= 0)
  }

  function Moved(b: Bounds, o: StrategyOption): Bounds {
    match o
    case Maximum(d) => Bounds(Min(b.lo, d), Min(b.hi, d))
    case Jitter(m) =>
      Bounds(Max(0, b.lo), if Tame(b, m) then Min(MAX64, Max(0, b.hi + Max(0, Spread(b.hi, m)))) else MAX64)
  }

  /** What the options in turn make of the bounds. */
  function BoundsWith(b: Bounds, options: seq<StrategyOption>): Bounds {
    if options == [] then b
    else Moved(BoundsWith(b, options[..|options| - 1]), options[|options| - 1])
  }

  /** Durations are 64-bit integers. */
  predicate IsDuration(o: StrategyOption) {
    o.Maximum? ==> IsInt64(o.d)
  }

  lemma TameDraw(mc: Machine, x: int, m: real, r: int, b: Bounds)
    requires IsInt64(x) && b.lo <= x <= b.hi && Tame(b, m) && 0 <= r < DrawLimit(mc, x, m)
    ensures x + r <= Max(0, b.hi + Max(0, Spread(b.hi, m))) || b.hi + Spread(b.hi, m) > MAX64
  {
    if m < 0.0 {
      SmallSpread(x, m);
    } else {
      SpreadGrows(x, b.hi, m);
      if m <= 1.0 {
        SmallSpread(x, m);
      } else {
        RealProductGrows(0.0, x as real, m);
      }
    }
  }

  lemma JittersWithin(mc: Machine, x: int, m: real, y: int, b: Bounds)
    requires IsInt64(x) && b.lo <= x <= b.hi && Jitters(mc, x, m, y)
    ensures var b' := Moved(b, Jitter(m));
            IsInt64(y) && b'.lo <= y <= b'.hi
  {
    if x != MAX64 {
      var r :| 0 <= r < DrawLimit(mc, x, m) && y == JitterBy(x, r);
      JitterNeverLowers(x, r);
      if Tame(b, m) {
        TameDraw(mc, x, m, r, b);
      }
    }
  }

  lemma ApplyWithin(mc: Machine, s: Strategy, attempt: int, b: Bounds, o: StrategyOption)
    requires Within(mc, s, attempt, b) && IsDuration(o)
    ensures Within(mc, Apply(s, o), attempt, Moved(b, o))
  {
    if o.Jitter? {
      forall y | Gives(mc, Apply(s, o), attempt, y)
        ensures IsInt64(y) && Moved(b, o).lo <= y <= Moved(b, o).hi
      {
        var x :| Gives(mc, s, attempt, x) && Jitters(mc, x, o.multiplier, y);
        JittersWithin(mc, x, o.multiplier, y, b);
      }
    }
  }

  /** A strategy built with any options stays within the bounds they make together. */
  lemma {:induction false} BuildWithin(mc: Machine, s: Strategy, attempt: int, b: Bounds, options: seq<StrategyOption>)
    requires Within(mc, s, attempt, b) && forall i :: 0 <= i < |options| ==> IsDuration(options[i])
    ensures Within(mc, Build(s, options), attempt, BoundsWith(b, options))
  {
    if options != [] {
      var front, o := options[..|options| - 1], options[|options| - 1];
      BuildWithin(mc, s, attempt, b, front);
      ApplyWithin(mc, Build(s, front), attempt, BoundsWith(b, front), o);
    }
  }

  /** With the maximum last no delay exceeds it, whatever comes before. */
  lemma MaximumLast(mc: Machine, s: Strategy, options: seq<StrategyOption>, d: int, attempt: int, y: int)
    requires Gives(mc, Build(s, options + [Maximum(d)]), attempt, y)
    ensures y <= d
  {
    assert (options + [Maximum(d)])[..|options|] == options;
  }

  // ---------------------------------------------------------------------------
  // Jitter after a maximum

  ghost predicate CanExceed(mc: Machine, s: Strategy, attempt: int, d: int) {
    exists y :: Gives(mc, s, attempt, y) && y > d
  }

  /** Jitter can take a delay that was cut at the maximum beyond it: from a negative one
      whenever there is anything to choose from, as the result is never negative;
      otherwise when the choice reaches that far and there is room above. */
  predicate Reaches(mc: Machine, cut: int, d: int, m: real) {
    && cut != MAX64
    && if d < 0 then DrawLimit(mc, cut, m) > 0 else d < MAX64 && cut + DrawLimit(mc, cut, m) > d + 1
  }

  ghost predicate SomeReaches(mc: Machine, s: Strategy, attempt: int, d: int, m: real) {
    exists x :: Gives(mc, s, attempt, x) && Reaches(mc, Min(x, d), d, m)
  }

  /** With jitter after the maximum it can be exceeded exactly when jitter can take some
      delay, cut at the maximum, beyond it. */
  lemma JitterAfterMaximum(mc: Machine, s: Strategy, d: int, m: real, attempt: int)
    requires IsInt64(d) && Within(mc, s, attempt, Bounds(-TWO63, MAX64))
    ensures CanExceed(mc, Jittered(Capped(s, d), m), attempt, d) <==> SomeReaches(mc, s, attempt, d, m)
  {
    if CanExceed(mc, Jittered(Capped(s, d), m), attempt, d) {
      JitterExceeds(mc, s, d, m, attempt);
    }
    if x :| Gives(mc, s, attempt, x) && Reaches(mc, Min(x, d), d, m) {
      var cut := Min(x, d);
      var r := if d < 0 then 0 else d + 1 - cut;
      assert Gives(mc, Capped(s, d), attempt, cut);
      JitterNeverLowers(cut, r);
      assert Jitters(mc, cut, m, JitterBy(cut, r));
      assert Gives(mc, Jittered(Capped(s, d), m), attempt, JitterBy(cut, r));
    }
  }

  lemma JitterExceeds(mc: Machine, s: Strategy, d: int, m: real, attempt: int)
    requires IsInt64(d) && Within(mc, s, attempt, Bounds(-TWO63, MAX64))
    requires CanExceed(mc, Jittered(Capped(s, d), m), attempt, d)
    ensures SomeReaches(mc, s, attempt, d, m)
  {
    var y :| Gives(mc, Jittered(Capped(s, d), m), attempt, y) && y > d;
    var cut :| Gives(mc, Capped(s, d), attempt, cut) && Jitters(mc, cut, m, y);
    var x :| Gives(mc, s, attempt, x) && cut == Min(x, d);
    var r :| 0 <= r < DrawLimit(mc, cut, m) && y == JitterBy(cut, r);
    JitterNeverLowers(cut, r);
    assert Reaches(mc, Min(x, d), d, m);
  }

  /** It is, by a constant delay at the maximum with half as much jitter. */
  lemma MaximumExceeded(mc: Machine, attempt: int)
    ensures CanExceed(mc, Build(Constant(10), [Maximum(10), Jitter(0.5)]), attempt, 10)
  {
    var options := [Maximum(10), Jitter(0.5)];
    assert options[..1] == [Maximum(10)] && [Maximum(10)][..0] == [];
    assert Build(Constant(10), [Maximum(10)]) == Apply(Build(Constant(10), []), Maximum(10));
    assert Gives(mc, Constant(10), attempt, 10) && Reaches(mc, Min(10, 10), 10, 0.5);
    JitterAfterMaximum(mc, Constant(10), 10, 0.5, attempt);
  }

  // ---------------------------------------------------------------------------
  // Strategies that panic

  /** On this machine some delay leaves a jitter of the strategy nothing to choose from. */
  ghost predicate CanPanic(mc: Machine, s: Strategy, attempt: int)
    decreases s
  {
    match s
    case Exponential(_) => false
    case Constant(_) => false
    case Capped(of, _) => CanPanic(mc, of, attempt)
    case Jittered(of, m) =>
      CanPanic(mc, of, attempt) || exists x :: Gives(mc, of, attempt, x) && x != MAX64 && DrawLimit(mc, x, m) <= 0
  }

  /** A strategy that cannot panic always has a delay. */
  lemma {:induction false} HasDelay(mc: Machine, s: Strategy, attempt: int) returns (y: int)
    requires !CanPanic(mc, s, attempt)
    ensures Gives(mc, s, attempt, y)
  {
    match s {
      case Exponential(scale) => y := ExponentialDelay(scale, attempt);
      case Constant(d) => y := d;
      case Capped(of, max) =>
        var x := HasDelay(mc, of, attempt);
        y := Min(x, max);
      case Jittered(of, m) =>
        var x := HasDelay(mc, of, attempt);
        DrawsIff(mc, x, m);
        y :| Jitters(mc, x, m, y);
    }
  }

  /** Doubled as often as it stays under the largest duration. */
  function LargestDelay(x: int): (y: int)
    requires 0 < x < MAX64
    ensures x <= y < MAX64
    decreases MAX64 - x
  {
    if 2 * x < MAX64 then LargestDelay(2 * x) else x
  }

  lemma Doubling(k: nat, x: int)
    ensures Power2(k + 1) * x == Power2(k) * (2 * x)
  {
  }

  lemma FewDoublings(k: nat, x: int)
    requires x > 0 && Power2(k) * x < MAX64
    ensures k < 63
  {
    ProductAtLeast(x, Power2(k));
    if k >= 63 {
      LargePower(k);
    }
  }

  lemma {:induction false} LargestIsReached(x: int) returns (k: nat)
    requires 0 < x < MAX64
    ensures Power2(k) * x == LargestDelay(x)
    decreases MAX64 - x
  {
    if 2 * x < MAX64 {
      var j := LargestIsReached(2 * x);
      k := j + 1;
      Doubling(j, x);
    } else {
      k := 0;
    }
  }

  lemma {:induction false} LargestIsLast(x: int, k: nat)
    requires 0 < x < MAX64
    ensures Power2(k) * x <= LargestDelay(x) || Power2(k) * x >= MAX64
    decreases k
  {
    if k > 0 {
      Doubling(k - 1, x);
      if 2 * x < MAX64 {
        LargestIsLast(2 * x, k - 1);
      } else {
        ProductAtLeast(Power2(k - 1), 2 * x);
      }
    }
  }

  /** The delays of an exponential strategy below the largest duration lie between its
      scale and the last doubling, and both occur. */
  lemma DelaysBetween(scale: int, attempt: int)
    requires 0 < scale < MAX64 && IsInt64(attempt)
    ensures var x := ExponentialDelay(scale, attempt);
            x == MAX64 || scale <= x <= LargestDelay(scale)
  {
    ExponentialIsExact(scale, attempt);
    if attempt >= 0 {
      ProductAtLeast(Power2(attempt), scale);
      LargestIsLast(scale, attempt);
    }
  }

  lemma BothOccur(scale: int) returns (last: int)
    requires 0 < scale < MAX64
    ensures ExponentialDelay(scale, 0) == scale
    ensures IsInt64(last) && ExponentialDelay(scale, last) == LargestDelay(scale)
  {
    ExponentialIsExact(scale, 0);
    last := LargestIsReached(scale);
    FewDoublings(last, scale);
    ExponentialIsExact(scale, last);
  }

  /** Between two delays with a safe share every delay has one. */
  lemma SafeBetween(lo: int, x: int, hi: int, m: real)
    requires 0 < lo <= x <= hi < MAX64 && Spread(lo, m) > 0 && Spread(hi, m) <= MAX64
    ensures SafeDraw(x, m)
  {
    if m >= 0.0 {
      SpreadGrows(lo, x, m);
      SpreadGrows(x, hi, m);
    } else {
      NoNegativeShare(lo, m);
      assert false;
    }
  }

  lemma NoNegativeShare(x: int, m: real)
    requires x >= 0 && m <= 0.0
    ensures Spread(x, m) <= 0
  {
    RealProductGrows(0.0, x as real, -m);
  }

  /** No attempt panics. */
  ghost predicate NeverPanics(mc: Machine, s: Strategy) {
    forall attempt :: IsInt64(attempt) ==> !CanPanic(mc, s, attempt)
  }

  /** The shares of the first delay and of the last doubling are positive 64-bit
      integers, or every delay is the largest duration. */
  predicate SafeScale(scale: int, m: real) {
    || scale < 0
    || scale >= MAX64
    || (scale > 0 && Spread(scale, m) > 0 && Spread(LargestDelay(scale), m) <= MAX64)
  }

  lemma SafeScaleSuffices(mc: Machine, scale: int, m: real, attempt: int)
    requires IsInt64(scale) && scale != 0 && IsInt64(attempt) && SafeScale(scale, m)
    ensures !CanPanic(mc, Jittered(Exponential(scale), m), attempt)
  {
    var x := ExponentialDelay(scale, attempt);
    if 0 < scale < MAX64 {
      DelaysBetween(scale, attempt);
      if x != MAX64 {
        SafeBetween(scale, x, LargestDelay(scale), m);
      }
    } else {
      ExponentialIsExact(scale, attempt);
      if scale > 0 && attempt >= 0 {
        ProductAtLeast(Power2(attempt), scale);
      }
    }
  }

  lemma PanicsAt(scale: int, m: real, attempt: int, x: int)
    requires x == ExponentialDelay(scale, attempt) && !SafeDraw(x, m)
    ensures CanPanic(SMALLEST, Jittered(Exponential(scale), m), attempt)
  {
    SmallestLimit(x, m);
    assert Gives(SMALLEST, Exponential(scale), attempt, x);
  }

  ghost predicate NeverPanicsAnywhere(s: Strategy) {
    forall mc: Machine :: NeverPanics(mc, s)
  }

  lemma UnsafeScalePanics(scale: int, m: real) returns (attempt: int)
    requires IsInt64(scale) && scale != 0 && !SafeScale(scale, m)
    ensures IsInt64(attempt) && CanPanic(SMALLEST, Jittered(Exponential(scale), m), attempt)
  {
    var last := BothOccur(scale);
    if Spread(scale, m) <= 0 {
      attempt := 0;
      PanicsAt(scale, m, 0, scale);
    } else {
      attempt := last;
      PanicsAt(scale, m, last, LargestDelay(scale));
    }
  }

  /** Jittered exponential delays panic at no attempt on any machine exactly when the
      first delay and the last doubling have a safe share; otherwise they panic on a
      machine that makes the smallest integer of what is none. */
  lemma JitteredExponentialIff(scale: int, m: real)
    requires IsInt64(scale) && scale != 0
    ensures NeverPanicsAnywhere(Jittered(Exponential(scale), m)) <==> SafeScale(scale, m)
    ensures NeverPanics(SMALLEST, Jittered(Exponential(scale), m)) <==> SafeScale(scale, m)
  {
    var s := Jittered(Exponential(scale), m);
    if SafeScale(scale, m) {
      forall mc: Machine, attempt | IsInt64(attempt)
        ensures !CanPanic(mc, s, attempt)
      {
        SafeScaleSuffices(mc, scale, m, attempt);
      }
    } else {
      var attempt := UnsafeScalePanics(scale, m);
      assert !NeverPanics(SMALLEST, s);
    }
  }

  /** They panic at once, on every machine, when the scale is one and the multiplier a
      half. */
  lemma SmallScalePanics(mc: Machine)
    ensures CanPanic(mc, Jittered(Exponential(1), 0.5), 0)
  {
    ExponentialIsExact(1, 0);
    assert Gives(mc, Exponential(1), 0, 1) && DrawLimit(mc, 1, 0.5) == 0;
  }

  /** With a scale of a second and a multiplier of two they can panic at attempt 33. */
  lemma LargeShareCanPanic()
    ensures CanPanic(SMALLEST, Jittered(Exponential(1_000_000_000), 2.0), 33)
  {
    Power2Of31();
    assert Power2(33) == 4 * Power2(31);
    ExponentialIsExact(1_000_000_000, 33);
    PanicsAt(1_000_000_000, 2.0, 33, ExponentialDelay(1_000_000_000, 33));
  }
}
