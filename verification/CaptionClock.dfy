/** Frame-safe caption times: `safe_cs` against the clock libass reads (`ref_now_ms`), with the
    error of the IEEE-double clock as the only assumption about it. */
module CaptionClock {
  import opened Arithmetic
  import opened OutputMap

  /** The start of output frame `n` in whole milliseconds. */
  function ExactFloorMs(n: nat, fps: Fps): int
    requires ValidFps(fps)
  {
    n * 1000 * fps.den / fps.num
  }

  /** `now_ms` may be one below the exact time ("hazard" frames), and is exact at frame 0. */
  ghost predicate Admissible(now: nat -> int, fps: Fps)
    requires ValidFps(fps)
  {
    && now(0) == 0
    && forall n: nat :: ExactFloorMs(n, fps) - 1 <= now(n) <= ExactFloorMs(n, fps)
  }

  /** `safe_cs`, from the clock's value at the frame. */
  function SafeCs(nowMs: int): int { (nowMs - 2) / 10 }

  /** An event written with `safe_cs(n)` is not yet visible on frame `n - 1` and is on frame `n`. */
  ghost predicate BoundaryHolds(now: nat -> int, n: nat)
    requires n >= 1
  {
    now(n - 1) < 10 * SafeCs(now(n)) <= now(n)
  }

  /** A frame lasts 13 ms or more. */
  predicate LongFrames(fps: Fps) { 1000 * fps.den >= 13 * fps.num }

  lemma FrameSpan(n: nat, fps: Fps)
    requires ValidFps(fps) && LongFrames(fps) && n >= 1
    ensures ExactFloorMs(n - 1, fps) + 13 <= ExactFloorMs(n, fps)
  {
    var x := (n - 1) * 1000 * fps.den;
    assert n * 1000 * fps.den == x + 1000 * fps.den;
    DivOrder(x + 13 * fps.num, n * 1000 * fps.den, fps.num);
    ShiftQuotient(x, 13, fps.num);
  }

  lemma BoundaryAtFrame(now: nat -> int, fps: Fps, n: nat)
    requires ValidFps(fps) && LongFrames(fps) && Admissible(now, fps) && n >= 1
    ensures BoundaryHolds(now, n)
  {
    FrameSpan(n, fps);
    var low := ExactFloorMs(n, fps) - 1;
    assert low <= now(n);
    assert now(n - 1) <= ExactFloorMs(n - 1, fps);
  }

  /** A clock that is late at frame 1 only. */
  function LateAtOne(fps: Fps): nat -> int
    requires ValidFps(fps)
  {
    (n: nat) => if n == 1 then ExactFloorMs(1, fps) - 1 else ExactFloorMs(n, fps)
  }

  lemma ShortFramesFail(fps: Fps)
    requires ValidFps(fps) && !LongFrames(fps)
    ensures Admissible(LateAtOne(fps), fps) && !BoundaryHolds(LateAtOne(fps), 1)
  {
    var first := ExactFloorMs(1, fps);
    assert first <= 12 by {
      if first >= 13 {
        MulOrder(13, first, fps.num);
      }
    }
    assert ExactFloorMs(0, fps) == 0 by {
      QuotientUnique(0, fps.num, 0, 0);
    }
  }

  /** In whole numbers: the exact clock is the last millisecond at or before the start of the frame, and
      `safe_cs` the last hundredth at least two milliseconds before the clock. */
  lemma ClockInNumbers(n: nat, nowMs: int, fps: Fps)
    requires ValidFps(fps)
    ensures 0 <= 1000 * n * fps.den - ExactFloorMs(n, fps) * fps.num < fps.num
    ensures 10 * SafeCs(nowMs) <= nowMs - 2 < 10 * SafeCs(nowMs) + 10
  {
    var x := n * 1000 * fps.den;
    assert x == (x / fps.num) * fps.num + x % fps.num;
    assert x == 1000 * n * fps.den;
  }

  /** The bound holds on every frame under every admissible clock exactly when a frame lasts 13 ms
      or more: no length of clip matters. */
  lemma CaptionBoundary(fps: Fps)
    requires ValidFps(fps)
    ensures (forall now: nat -> int, n: nat | Admissible(now, fps) && n >= 1 :: BoundaryHolds(now, n))
        <==> LongFrames(fps)
  {
    if LongFrames(fps) {
      forall now: nat -> int, n: nat | Admissible(now, fps) && n >= 1
        ensures BoundaryHolds(now, n)
      {
        BoundaryAtFrame(now, fps, n);
      }
    } else {
      ShortFramesFail(fps);
    }
  }

  /** The eight rates the generator measures all qualify. */
  lemma MeasuredRatesQualify()
    ensures forall fps | fps in [Fps(24, 1), Fps(25, 1), Fps(30, 1), Fps(50, 1), Fps(60, 1),
                                 Fps(24000, 1001), Fps(30000, 1001), Fps(60000, 1001)] ::
              ValidFps(fps) && LongFrames(fps)
  {
  }
}
