/** config/global.go: the global TTL and timeout are published in seconds and minutes and used
    as int64 nanoseconds. */
module GlobalUnits {

  const TwoTo63: int := 0x8000_0000_0000_0000

  newtype int64 = x: int | -TwoTo63 <= x < TwoTo63

  const Second: int := 1_000_000_000
  const Minute: int := 60 * Second

  const DefaultTTL: int64 := 30_000_000_000
  const DefaultTimeout: int64 := 600_000_000_000

  /** The two's complement reading of the low 64 bits. */
  function Wrap(x: int): int64 {
    ((x + TwoTo63) % (2 * TwoTo63) - TwoTo63) as int64
  }

  /** Go's division, which truncates toward zero. */
  function Quotient(x: int64, unit: int): int64
    requires unit > 0
  {
    if x >= 0 then (x as int / unit) as int64
    else
      assert 0 <= -(x as int) / unit <= TwoTo63;
      (-(-(x as int) / unit)) as int64
  }

  /** The unit conversion that Canonical applies to one field. */
  function Scale(x: int64, unit: int): int64 {
    if x as int < unit then Wrap(x as int * unit) else x
  }

  datatype Global = Global(debug: bool, timeout: int64, ttl: int64, mountPath: string) {

    function Published(): Global {
      this.(ttl := Quotient(ttl, Second), timeout := Quotient(timeout, Minute))
    }

    function Canonical(): Global {
      this.(ttl := Scale(ttl, Second), timeout := Scale(timeout, Minute))
    }

    function SetEmpty(): Global {
      Global(debug,
             if timeout == 0 then DefaultTimeout else timeout,
             if ttl == 0 then DefaultTTL else ttl,
             if mountPath == "" then "/mnt/ceph" else mountPath)
    }
  }

  // ---- One field ---------------------------------------------------------------------------

  predicate Unit(unit: int) { unit == Second || unit == Minute }

  lemma QuotientBounds(x: int64, unit: int)
    requires Unit(unit)
    ensures x >= 0 ==> Quotient(x, unit) as int * unit <= x as int < (Quotient(x, unit) as int + 1) * unit
    ensures x < 0 ==> (Quotient(x, unit) as int - 1) * unit < x as int <= Quotient(x, unit) as int * unit
  {
  }

  /** The product fits in an int64. */
  predicate Fits(x: int64, unit: int) {
    -TwoTo63 <= x as int * unit < TwoTo63
  }

  lemma WrapFits(x: int64, unit: int)
    requires Unit(unit) && Fits(x, unit)
    ensures Wrap(x as int * unit) as int == x as int * unit
  {
  }

  /** Dividing undoes scaling exactly on the values below one unit whose product fits: a
      published value that is too large is taken for a canonical one, and one far too small
      overflows for good. */
  lemma ScaleUndoneExactly(x: int64, unit: int)
    requires Unit(unit)
    ensures Quotient(Scale(x, unit), unit) == x <==> x as int < unit && Fits(x, unit)
  {
    var y := Scale(x, unit);
    QuotientBounds(y, unit);
    if x as int < unit && Fits(x, unit) {
      WrapFits(x, unit);
    }
  }

  /** Scaling undoes dividing exactly on whole multiples of the unit whose quotient is less than
      one unit. */
  lemma QuotientUndoneExactly(x: int64, unit: int)
    requires Unit(unit)
    ensures Scale(Quotient(x, unit), unit) == x <==>
              Quotient(x, unit) as int * unit == x as int && (Quotient(x, unit) as int) < unit
  {
    var q := Quotient(x, unit);
    QuotientBounds(x, unit);
    if q as int * unit == x as int && (q as int) < unit {
      WrapFits(q, unit);
    }
  }

  /** The same, in terms of the value itself. */
  lemma WholeExactly(x: int64, unit: int)
    requires Unit(unit)
    ensures Scale(Quotient(x, unit), unit) == x <==> x as int % unit == 0 && x as int < unit * unit
  {
    QuotientUndoneExactly(x, unit);
    QuotientBounds(x, unit);
    if unit == Second {
      WholeSeconds(x as int, Quotient(x, unit) as int);
    } else {
      WholeMinutes(x as int, Quotient(x, unit) as int);
    }
  }

  lemma WholeSeconds(x: int, q: int)
    requires x >= 0 ==> q * Second <= x < (q + 1) * Second
    requires x < 0 ==> (q - 1) * Second < x <= q * Second
    ensures q * Second == x <==> x % Second == 0
    ensures q * Second == x ==> (q < Second <==> x < Second * Second)
  {
  }

  lemma WholeMinutes(x: int, q: int)
    requires x >= 0 ==> q * Minute <= x < (q + 1) * Minute
    requires x < 0 ==> (q - 1) * Minute < x <= q * Minute
    ensures q * Minute == x <==> x % Minute == 0
    ensures q * Minute == x ==> (q < Minute <==> x < Minute * Minute)
  {
  }

  /** Scaling a value that is not negative and does not overflow twice is scaling it once. */
  lemma ScaleOnce(x: int64, unit: int)
    requires Unit(unit) && 0 <= x && (x as int < unit ==> Fits(x, unit))
    ensures Scale(Scale(x, unit), unit) == Scale(x, unit)
    ensures x > 0 ==> Scale(x, unit) as int >= unit
  {
    if x as int < unit {
      WrapFits(x, unit);
    }
  }

  /** Multiplying by one less than a unit, which is odd, loses nothing modulo two to the 64th:
      `inverse` undoes it up to `over` rounds. */
  lemma OddFactor(y: int, k: int, unit: int, inverse: int, over: int)
    requires inverse * (unit - 1) == 1 + over * (2 * TwoTo63)
    requires y * (unit - 1) == k * (2 * TwoTo63) && -TwoTo63 <= y < TwoTo63
    ensures y == 0
  {
    var q := inverse * k - over * y;
    assert y * (inverse * (unit - 1)) == inverse * (y * (unit - 1));
    assert y == 2 * TwoTo63 * q;
  }

  /** Scaling leaves a value as it is exactly when it is zero or at least one unit, overflow
      taken into account. */
  lemma ScaleFixedExactly(x: int64, unit: int)
    requires Unit(unit)
    ensures Scale(x, unit) == x <==> x == 0 || x as int >= unit
  {
    if x as int < unit && Scale(x, unit) == x {
      var k := (x as int * unit + TwoTo63) / (2 * TwoTo63);
      assert x as int * (unit - 1) == k * (2 * TwoTo63);
      if unit == Second {
        OddFactor(x as int, k, unit, 9340617356365346303, 506355881);
      } else {
        OddFactor(x as int, k, unit, 4436876769688594431, 14431414298);
      }
    }
  }

  // ---- The global ----------------------------------------------------------------------------

  /** Published undoes Canonical exactly when the TTL is a published one, at most 999999999
      seconds, and the timeout at most 153722867 minutes (or negative and just as small). */
  lemma PublishedUndoesCanonicalExactly(g: Global)
    ensures g.Canonical().Published() == g <==>
              && -9_223_372_036 <= g.ttl <= 999_999_999
              && -153_722_867 <= g.timeout <= 153_722_867
  {
    ScaleUndoneExactly(g.ttl, Second);
    ScaleUndoneExactly(g.timeout, Minute);
  }

  /** Canonical undoes Published exactly on whole seconds and whole minutes of which fewer than
      a unit's worth are published. */
  lemma CanonicalUndoesPublishedExactly(g: Global)
    ensures g.Published().Canonical() == g <==>
              && g.ttl as int % Second == 0 && g.ttl as int < Second * Second
              && g.timeout as int % Minute == 0 && g.timeout as int < Minute * Minute
  {
    WholeExactly(g.ttl, Second);
    WholeExactly(g.timeout, Minute);
  }

  /** Canonical leaves exactly those settings alone whose fields are zero or at least one
      second, respectively one minute. */
  lemma CanonicalFixedExactly(g: Global)
    ensures g.Canonical() == g <==>
              && (g.ttl == 0 || g.ttl as int >= Second)
              && (g.timeout == 0 || g.timeout as int >= Minute)
  {
    ScaleFixedExactly(g.ttl, Second);
    ScaleFixedExactly(g.timeout, Minute);
  }

  /** The canonical value of the field is at least one unit, or zero: the field is canonical
      already, or its product with the unit, as far as int64 can hold it, is. */
  predicate Settles(x: int64, unit: int) {
    x as int >= unit || Wrap(x as int * unit) == 0 || Wrap(x as int * unit) as int >= unit
  }

  /** Applying Canonical twice is applying it once exactly when both fields settle. */
  lemma CanonicalTwiceExactly(g: Global)
    ensures g.Canonical().Canonical() == g.Canonical()
       <==> Settles(g.ttl, Second) && Settles(g.timeout, Minute)
  {
    CanonicalFixedExactly(g.Canonical());
  }

  lemma SmallSettles(x: int64, unit: int)
    requires Unit(unit) && Fits(x, unit)
    ensures Settles(x, unit) <==> x >= 0
  {
    WrapFits(x, unit);
  }

  /** On published values in range, and on canonical ones, applying Canonical again changes
      nothing. */
  lemma CanonicalTwice(g: Global)
    requires g.ttl >= 0 && g.timeout >= 0
    requires g.timeout as int < Minute ==> g.timeout <= 153_722_867
    ensures g.Canonical().Canonical() == g.Canonical()
  {
    CanonicalTwiceExactly(g);
    if g.ttl as int < Second {
      SmallSettles(g.ttl, Second);
    }
    if g.timeout as int < Minute {
      SmallSettles(g.timeout, Minute);
    }
  }

  /** A negative value in range, and a timeout of 153722868 minutes, which overflows into the past,
      are not made canonical by applying Canonical once. */
  lemma CanonicalTwiceFails(g: Global)
    requires (g.ttl < 0 && Fits(g.ttl, Second)) || (g.timeout < 0 && Fits(g.timeout, Minute))
             || g.timeout == 153_722_868
    ensures g.Canonical().Canonical() != g.Canonical()
  {
    CanonicalTwiceExactly(g);
    if g.ttl < 0 && Fits(g.ttl, Second) {
      SmallSettles(g.ttl, Second);
    } else if g.timeout < 0 && Fits(g.timeout, Minute) {
      SmallSettles(g.timeout, Minute);
    }
  }

  /** What is not set becomes ten minutes, thirty seconds and /mnt/ceph, and all else stays. */
  lemma DefaultsExactly(g: Global)
    ensures g.SetEmpty() == Global(g.debug,
                                   if g.timeout == 0 then 600_000_000_000 else g.timeout,
                                   if g.ttl == 0 then 30_000_000_000 else g.ttl,
                                   if g.mountPath == "" then "/mnt/ceph" else g.mountPath)
    ensures Global(g.debug, 0, 0, "").SetEmpty().Published() == Global(g.debug, 10, 30, "/mnt/ceph")
  {
  }

  /** What a user posts, in seconds and minutes, is what a later reader is shown, with zeroes
      replaced by the defaults (30 seconds and 10 minutes). */
  lemma PostedIsShown(posted: Global)
    requires 0 <= posted.ttl <= 999_999_999 && 0 <= posted.timeout <= 153_722_867
    ensures var shown := posted.SetEmpty().Canonical().SetEmpty().Published();
      && shown.ttl == (if posted.ttl == 0 then 30 else posted.ttl)
      && shown.timeout == (if posted.timeout == 0 then 10 else posted.timeout)
      && shown.debug == posted.debug
      && shown.mountPath == (if posted.mountPath == "" then "/mnt/ceph" else posted.mountPath)
  {
    var g := posted.SetEmpty();
    ScaleOnce(g.ttl, Second);
    ScaleOnce(g.timeout, Minute);
    if posted.ttl != 0 {
      ScaleUndoneExactly(posted.ttl, Second);
    }
    if posted.timeout != 0 {
      ScaleUndoneExactly(posted.timeout, Minute);
    }
  }
}
