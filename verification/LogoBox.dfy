/** Placing a logo at a pixel and reading the pixel back: `centre_e5` of
    `scripts/parity/logo_gates.py` against `ref_logo_box`. */
module LogoBox {
  import opened Arithmetic
  import opened Words

  const E5: int := 100_000

  datatype Box = Box(x0: int, y0: int, w: int, h: int)

  /** The start of a box of `size` px centred at `centre` e5 of `total` px:
      `round_half_up(centre * total / E5 - size / 2)`. */
  function StartOf(centre: int, size: int, total: int): int {
    RoundHalfUp(2 * centre * total - size * E5, 2 * E5)
  }

  /** `ref_logo_box`. */
  function RefLogoBox(xE5: int, yE5: int, wE5: int, assetW: int, assetH: int, outW: int, outH: int): Box
    requires assetW > 0
  {
    var w := RoundHalfUp(wE5 * outW, E5);
    var h := RoundHalfUp(w * assetH, assetW);
    Box(StartOf(xE5, w, outW), StartOf(yE5, h, outH), w, h)
  }

  /** `centre_e5`. */
  function CentreE5(start: int, size: int, total: int): int
    requires total > 0
  {
    RoundHalfUp((2 * start + size) * E5, 2 * total)
  }

  ghost predicate RoundTrips(start: int, size: int, total: int)
    requires total > 0
  {
    StartOf(CentreE5(start, size, total), size, total) == start
  }

  lemma RoundBounds(x: int, d: int, q: int)
    requires d > 0
    ensures q == RoundHalfUp(x, d) <==> 2 * q * d - d <= 2 * x < 2 * q * d + d
  {
    FloorBetween(2 * x + d, 2 * d, q);
    FloorBetween(2 * x + d, 2 * d, q + 1);
    assert q * (2 * d) == 2 * q * d && (q + 1) * (2 * d) == 2 * q * d + 2 * d;
  }

  /** `q` is the whole number nearest to `x / d`, halves up. */
  ghost predicate Nearest(q: int, x: int, d: int) {
    2 * x - d < 2 * q * d <= 2 * x + d
  }

  lemma RoundsToNearest(x: int, d: int)
    requires d > 0
    ensures Nearest(RoundHalfUp(x, d), x, d)
  {
    RoundBounds(x, d, RoundHalfUp(x, d));
  }

  /** The drawn box in pixels: its width is the share of the output, its height keeps the asset's
      proportions, and it is centred at the point. */
  lemma BoxInPixels(xE5: int, yE5: int, wE5: int, assetW: int, assetH: int, outW: int, outH: int)
    requires assetW > 0
    ensures var box := RefLogoBox(xE5, yE5, wE5, assetW, assetH, outW, outH);
            && Nearest(box.w, wE5 * outW, 100000) && Nearest(box.h, box.w * assetH, assetW)
            && Nearest(box.x0, 2 * xE5 * outW - 100000 * box.w, 200000)
            && Nearest(box.y0, 2 * yE5 * outH - 100000 * box.h, 200000)
  {
    var box := RefLogoBox(xE5, yE5, wE5, assetW, assetH, outW, outH);
    RoundsToNearest(wE5 * outW, E5);
    RoundsToNearest(box.w * assetH, assetW);
    RoundsToNearest(2 * xE5 * outW - box.w * E5, 2 * E5);
    RoundsToNearest(2 * yE5 * outH - box.h * E5, 2 * E5);
  }

  /** The centre of a box in e5 of the output. */
  lemma CentreInE5(start: int, size: int, total: int)
    requires total > 0
    ensures Nearest(CentreE5(start, size, total), 100000 * (2 * start + size), 2 * total)
  {
    RoundsToNearest((2 * start + size) * E5, 2 * total);
  }

  /** The centre is off by half an e5 at most, which is less than half a pixel below 100,000 px. */
  lemma PlacementRoundTrip(start: int, size: int, total: int)
    requires 0 < total < E5
    ensures RoundTrips(start, size, total)
  {
    var c := CentreE5(start, size, total);
    RoundBounds((2 * start + size) * E5, 2 * total, c);
    RoundBounds(2 * c * total - size * E5, 2 * E5, start);
    assert 2 * c * (2 * total) == 2 * (2 * c * total);
  }

  /** At 100,000 px an odd size misses by one pixel. */
  lemma OddSizeMisses()
    ensures !RoundTrips(0, 1, E5)
  {
    RoundBounds((2 * 0 + 1) * E5, 2 * E5, 1);
    RoundBounds(2 * 1 * E5 - 1 * E5, 2 * E5, 1);
  }

  /** Above it two starts must share a centre, so one of the first `total` is lost. */
  lemma {:induction false} CentreAdvances(total: int, n: nat)
    requires total > 0
    requires forall s: nat | s <= n :: RoundTrips(s, 0, total)
    ensures CentreE5(n, 0, total) >= n
    decreases n
  {
    if n == 0 {
      RoundBounds(0, 2 * total, 0);
    } else {
      CentreAdvances(total, n - 1);
      var a, b := CentreE5(n - 1, 0, total), CentreE5(n, 0, total);
      assert a != b by {
        assert RoundTrips(n - 1, 0, total) && RoundTrips(n, 0, total);
      }
      assert a <= b by {
        assert (2 * (n - 1) + 0) * E5 <= (2 * n + 0) * E5;
        RoundMonotone((2 * (n - 1) + 0) * E5, (2 * n + 0) * E5, 2 * total);
      }
    }
  }

  lemma LastCentre(total: int)
    requires total > 0
    ensures CentreE5(total, 0, total) == E5
  {
    RoundBounds((2 * total + 0) * E5, 2 * total, E5);
    assert (2 * total + 0) * E5 == E5 * (2 * total);
  }

  lemma WideOutputsMiss(total: int) returns (start: nat)
    requires total > E5
    ensures !RoundTrips(start, 0, total)
  {
    LastCentre(total);
    if s: nat :| !RoundTrips(s, 0, total) {
      start := s;
    } else {
      CentreAdvances(total, total);
      assert false;
    }
  }

  /** The exact bound: every start of every size survives exactly below 100,000 px. */
  lemma PlacementBound(total: int)
    requires total > 0
    ensures (forall start: nat, size: nat :: RoundTrips(start, size, total)) <==> total < E5
  {
    if total < E5 {
      forall start: nat, size: nat ensures RoundTrips(start, size, total) {
        PlacementRoundTrip(start, size, total);
      }
    } else if total == E5 {
      OddSizeMisses();
    } else {
      var start := WideOutputsMiss(total);
    }
  }

  /** Both axes at once: the box drawn for a logo placed at `(x, y)` starts at `(x, y)`. */
  lemma PlacedBoxStartsThere(x: int, y: int, wE5: int, assetW: int, assetH: int, outW: int, outH: int)
    requires assetW > 0 && 0 < outW < E5 && 0 < outH < E5
    ensures
      var size := RefLogoBox(0, 0, wE5, assetW, assetH, outW, outH);
      var box := RefLogoBox(CentreE5(x, size.w, outW), CentreE5(y, size.h, outH), wE5, assetW, assetH, outW, outH);
      box == Box(x, y, size.w, size.h)
  {
    var size := RefLogoBox(0, 0, wE5, assetW, assetH, outW, outH);
    PlacementRoundTrip(x, size.w, outW);
    PlacementRoundTrip(y, size.h, outH);
  }
}
