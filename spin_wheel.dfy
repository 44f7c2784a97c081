/**
 * The spin of `src/components/SpinWheel.tsx`: the re-entrancy guard, the
 * random spin angle, the delayed completion that resolves the winner from the
 * accumulated rotation, and the angles at which segments and labels are drawn.
 * Angles are whole degrees; the random offset is a parameter and the 5-second
 * timer is the separate step `CompleteSpin`.
 */
module SpinWheel {
  import opened Wrappers

  // Angles are whole degrees: a full turn is 360 and every spin adds at least
  // five full turns, 1800.

  /** `spinAngle` for the random offset `offset`: five full turns plus the offset. */
  function SpinAngle(offset: nat): (angle: nat)
    requires offset < 360
    ensures 1800 <= angle < 2160
    ensures angle % 360 == offset
  {
    1800 + offset
  }

  /**
   * `segmentsPassed`: the number of whole segments of `360 / n` degrees below the
   * rotation taken modulo a full turn, i.e. the segment that angle falls in.
   */
  function SegmentsPassed(n: nat, rotation: nat): (k: nat)
    requires n >= 1
    ensures k < n
    ensures k * 360 <= (rotation % 360) * n < (k + 1) * 360
  {
    var norm := rotation % 360;
    MulStrict(norm, 360, n);
    norm * n / 360
  }

  /**
   * `winningSegmentIndex`: the entry reached by going back `segmentsPassed`
   * segments from entry 0, wrapping around; always a valid index.
   */
  function WinningIndex(n: nat, rotation: nat): (i: nat)
    requires n >= 1
    ensures i < n
    ensures i + SegmentsPassed(n, rotation) == 0 || i + SegmentsPassed(n, rotation) == n
  {
    var k := SegmentsPassed(n, rotation);
    var i := (n - k) % n;
    CountBack(n, k);
    i
  }

  /** The winner `entries[winningSegmentIndex]` for the rotation the wheel stops at. */
  function Resolve(entries: seq<string>, newRotation: nat): (winner: string)
    requires |entries| >= 1
    ensures winner in entries
  {
    entries[WinningIndex(|entries|, newRotation)]
  }

  /** Full turns do not change the winner: it depends only on `n` and the rotation modulo 360. */
  lemma {:induction false} WinnerIgnoresFullTurns(n: nat, rotation: nat, turns: nat)
    requires n >= 1
    ensures WinningIndex(n, rotation + turns * 360) == WinningIndex(n, rotation)
  {
    assert (rotation + turns * 360) % 360 == rotation % 360 by {
      var q := rotation / 360;
      assert rotation + turns * 360 == (q + turns) * 360 + rotation % 360;
    }
  }

  /** A wheel with one entry always resolves to that entry. */
  lemma SingleEntryAlwaysWins(rotation: nat)
    ensures WinningIndex(1, rotation) == 0
  {
  }

  /** While the rotation modulo 360 is still inside the first segment, entry 0 wins. */
  lemma FirstSegmentWinsEntryZero(n: nat, rotation: nat)
    requires n >= 1 && (rotation % 360) * n < 360
    ensures WinningIndex(n, rotation) == 0
  {
    assert SegmentsPassed(n, rotation) == 0;
  }

  /**
   * Every entry of a wheel of at most 360 entries can win: some whole-degree
   * rotation below 360 resolves to it. (With more entries than degrees some
   * segments contain no whole degree.)
   */
  lemma EveryEntryCanWin(n: nat, j: nat) returns (rotation: nat)
    requires 1 <= n <= 360 && j < n
    ensures rotation < 360 && WinningIndex(n, rotation) == j
  {
    var k := if j == 0 then 0 else n - j;
    var top := k * 360 + n - 1;
    rotation := top / n;
    DivBounds(top, n);
    var p := rotation * n;
    assert p <= top < p + n;
    assert k * 360 <= p < k * 360 + 360;
    assert rotation < 360 by {
      MulMono(k, n - 1, 360);
      assert top < 360 * n;
      LessFromProducts(rotation, 360, n);
    }
    assert rotation % 360 == rotation;
    DivIs(p, 360, k);
  }

  /**
   * The index obtained by the pointer inversion `floor(((360 - r % 360) % 360) / (360 / n))`:
   * the segment whose span holds the angle `-r`.
   */
  function InvertedIndex(n: nat, rotation: nat): (i: nat)
    requires n >= 1
    ensures i < n
  {
    var a := (360 - rotation % 360) % 360;
    MulStrict(a, 360, n);
    a * n / 360
  }

  /**
   * The formula as written agrees with the inversion only when the rotation ends
   * exactly on a segment edge; strictly inside a segment it names the next entry.
   */
  lemma WinningIndexVersusInversion(n: nat, rotation: nat)
    requires n >= 1
    ensures ((rotation % 360) * n) % 360 == 0 ==> WinningIndex(n, rotation) == InvertedIndex(n, rotation)
    ensures ((rotation % 360) * n) % 360 != 0 ==> WinningIndex(n, rotation) == (InvertedIndex(n, rotation) + 1) % n
  {
    var norm := rotation % 360;
    var p := norm * n;
    var k := SegmentsPassed(n, rotation);
    var q := p - k * 360;
    assert 0 <= q < 360;
    DivIs(p, 360, k);
    assert p % 360 == q;
    if norm > 0 {
      var a := 360 - norm;
      assert (360 - norm) % 360 == a;
      assert a * n == 360 * n - p by { MulDistributes(360, norm, n); }
      assert a * n == (n - k) * 360 - q by { MulDistributes(n, k, 360); }
      if q == 0 {
        assert k >= 1;
        DivIs(a * n, 360, n - k);
      } else {
        assert (n - k) * 360 - q == (n - k - 1) * 360 + (360 - q) by { MulDistributes(n - k, 1, 360); }
        DivIs(a * n, 360, n - k - 1);
      }
    }
  }

  /** Four entries stopping at 1900 degrees: the formula as written picks entry 3, the inversion entry 2. */
  lemma FourEntriesAt1900()
    ensures WinningIndex(4, 1900) == 3 && InvertedIndex(4, 1900) == 2
  {
    assert 1900 % 360 == 100;
    assert SegmentsPassed(4, 1900) == 1;
  }

  // ----- arithmetic on whole numbers -----

  lemma MulMono(a: nat, b: nat, c: nat)
    requires a <= b
    ensures a * c <= b * c
  {
  }

  lemma MulStrict(a: nat, b: nat, c: nat)
    requires a < b && c > 0
    ensures a * c < b * c
  {
  }

  lemma MulDistributes(a: nat, b: nat, c: nat)
    requires b <= a
    ensures (a - b) * c == a * c - b * c
  {
  }

  lemma LessFromProducts(a: nat, b: nat, c: nat)
    requires a * c < b * c
    ensures a < b
  {
    if a >= b {
      MulMono(b, a, c);
    }
  }

  lemma DivBounds(a: nat, d: nat)
    requires d > 0
    ensures (a / d) * d <= a < (a / d) * d + d
  {
  }

  /** Counting `k` back from 0 modulo `n` lands on 0 for `k = 0` and on `n - k` otherwise. */
  lemma CountBack(n: nat, k: nat)
    requires k < n
    ensures (n - k) % n == if k == 0 then 0 else n - k
  {
    var q := if k == 0 then 1 else 0;
    DivIs(n - k, n, q);
    assert n - k == (n - k) / n * n + (n - k) % n;
  }

  /** `q` is the quotient of `a` by `d` when `a` lies in `[q * d, q * d + d)`. */
  lemma DivIs(a: nat, d: nat, q: nat)
    requires d > 0 && q * d <= a < q * d + d
    ensures a / d == q
  {
    var r := a / d;
    DivBounds(a, d);
    if r < q {
      MulMono(r + 1, q, d);
    } else if r > q {
      MulMono(q + 1, r, d);
    }
  }

  // ----- segment geometry (exact, in degrees) -----

  /** `segmentAngle`: the span of each of `n` segments. */
  function SegmentSpan(n: nat): (span: real)
    requires n >= 1
    ensures span > 0.0 && span * n as real == 360 as real
  {
    360 as real / n as real
  }

  /** The angle at which segment `i` starts: `index * segmentAngle`. */
  function SegmentStart(i: nat, n: nat): (start: real)
    requires n >= 1
    ensures start * n as real == (i * 360) as real
  {
    RealMulAssociative(i as real, SegmentSpan(n), n as real);
    CastMul(i, 360);
    i as real * SegmentSpan(n)
  }

  /** `labelAngle`: a label sits at the midpoint of its segment, strictly inside it. */
  function LabelAngle(i: nat, n: nat): (angle: real)
    requires n >= 1
    ensures SegmentStart(i, n) < angle < SegmentStart(i + 1, n)
  {
    SegmentStart(i, n) + SegmentSpan(n) / 2.0
  }

  /**
   * The segments tile the full turn: each ends where the next begins, the first
   * begins at 0 and the last ends at 360.
   */
  lemma SegmentsTileTheTurn(i: nat, n: nat)
    requires n >= 1 && i < n
    ensures SegmentStart(i + 1, n) == SegmentStart(i, n) + SegmentSpan(n)
    ensures SegmentStart(0, n) == 0.0 && SegmentStart(n, n) == 360 as real
    ensures 0.0 <= SegmentStart(i, n) < SegmentStart(i + 1, n) <= 360 as real
  {
    var span := SegmentSpan(n);
    assert (i + 1) as real * span == i as real * span + span;
    assert (i + 1) as real * span <= n as real * span;
  }

  /** `segmentsPassed` is the segment whose span holds the rotation modulo 360, lower edge included. */
  lemma SegmentsPassedLocatesAngle(n: nat, rotation: nat)
    requires n >= 1
    ensures SegmentStart(SegmentsPassed(n, rotation), n) <= (rotation % 360) as real
    ensures (rotation % 360) as real < SegmentStart(SegmentsPassed(n, rotation) + 1, n)
  {
    var k := SegmentsPassed(n, rotation);
    var norm := rotation % 360;
    SegmentBelow(k, norm, n);
    SegmentAbove(k + 1, norm, n);
  }

  /** An angle `x` with `k * 360 <= x * n` lies at or after the start of segment `k`. */
  lemma SegmentBelow(k: nat, x: nat, n: nat)
    requires n >= 1 && k * 360 <= x * n
    ensures SegmentStart(k, n) <= x as real
  {
    var nr := n as real;
    var start := SegmentStart(k, n);
    RealMulAssociative(k as real, SegmentSpan(n), nr);
    CastMul(k, 360);
    CastMul(x, n);
    assert start * nr == (k * 360) as real;
    ScaleBack(start, x as real, nr);
  }

  /** An angle `x` with `x * n < k * 360` lies before the start of segment `k`. */
  lemma SegmentAbove(k: nat, x: nat, n: nat)
    requires n >= 1 && x * n < k * 360
    ensures x as real < SegmentStart(k, n)
  {
    var nr := n as real;
    var start := SegmentStart(k, n);
    RealMulAssociative(k as real, SegmentSpan(n), nr);
    CastMul(k, 360);
    CastMul(x, n);
    assert start * nr == (k * 360) as real;
    ScaleBackStrict(x as real, start, nr);
  }

  lemma RealMulAssociative(a: real, b: real, c: real)
    ensures (a * b) * c == a * (b * c)
  {
  }

  /** Multiplying integers and then converting is converting and then multiplying. */
  lemma CastMul(a: int, b: int)
    ensures (a * b) as real == a as real * b as real
  {
  }

  /** Dividing both sides of `a * c <= b * c` by a positive `c`. */
  lemma ScaleBack(a: real, b: real, c: real)
    requires c > 0.0 && a * c <= b * c
    ensures a <= b
  {
  }

  /** Dividing both sides of `a * c < b * c` by a positive `c`. */
  lemma ScaleBackStrict(a: real, b: real, c: real)
    requires c > 0.0 && a * c < b * c
    ensures a < b
  {
  }

  // ----- accumulated rotation -----

  /** The rotation after completing spins with the given random offsets, from `start`. */
  function RotationAfterSpins(start: nat, offsets: seq<nat>): (rotation: nat)
    requires forall i :: 0 <= i < |offsets| ==> offsets[i] < 360
    ensures start + 1800 * |offsets| <= rotation
    ensures rotation <= start + (2159) * |offsets|
  {
    if offsets == [] then start
    else RotationAfterSpins(start, offsets[..|offsets| - 1]) + SpinAngle(offsets[|offsets| - 1])
  }

  /** Each further spin moves the wheel forward by at least five full turns. */
  lemma {:induction false} RotationIncreases(start: nat, offsets: seq<nat>, k: nat)
    requires forall i :: 0 <= i < |offsets| ==> offsets[i] < 360
    requires k < |offsets|
    ensures RotationAfterSpins(start, offsets[..k]) + 1800 <= RotationAfterSpins(start, offsets[..k + 1])
  {
    assert offsets[..k + 1][..k] == offsets[..k];
  }

  /** A scheduled completion, holding the entry list and the target rotation its closure captured. */
  datatype PendingSpin = PendingSpin(entries: seq<string>, newRotation: nat)

  /** The state `{isSpinning, winner, rotation}` of the wheel, with its scheduled completion. */
  class SpinWheelState {
    var isSpinning: bool
    var winner: Option<string>
    var rotation: nat
    var pending: Option<PendingSpin>
    /** The offsets of the spins completed so far. */
    ghost var offsets: seq<nat>

    ghost predicate Valid()
      reads this
    {
      (isSpinning <==> pending.Some?)
      && (forall i :: 0 <= i < |offsets| ==> offsets[i] < 360)
      && rotation == RotationAfterSpins(0, offsets)
      && (pending.Some? ==>
            |pending.value.entries| >= 1
            && rotation + 1800 <= pending.value.newRotation < rotation + 2160)
    }

    constructor ()
      ensures Valid()
      ensures !isSpinning && winner == None && rotation == 0 && pending == None
    {
      isSpinning := false;
      winner := None;
      rotation := 0;
      pending := None;
      offsets := [];
    }

    /**
     * The guard of `spinWheel` and the SPIN button's enabled state: when it
     * holds the wheel is idle and every rotation names an entry; when it does
     * not the wheel is spinning or has nothing to spin.
     */
    function CanSpin(entries: seq<string>): (enabled: bool)
      reads this
      ensures enabled ==> !isSpinning && entries != [] && forall r: nat :: Resolve(entries, r) in entries
      ensures !enabled ==> isSpinning || entries == []
    {
      !isSpinning && |entries| > 0
    }

    /**
     * `spinWheel` with random offset `offset`: ignored while spinning or with no
     * entries; otherwise marks the wheel spinning, clears the winner and
     * schedules the completion. The rotation itself is not touched yet.
     */
    method StartSpin(entries: seq<string>, offset: nat) returns (started: bool)
      requires Valid() && offset < 360
      modifies this
      ensures Valid()
      ensures started == old(CanSpin(entries))
      ensures rotation == old(rotation) && offsets == old(offsets)
      ensures !started ==> isSpinning == old(isSpinning) && winner == old(winner) && pending == old(pending)
      ensures started ==> isSpinning && winner == None
                          && pending == Some(PendingSpin(entries, old(rotation) + SpinAngle(offset)))
    {
      if isSpinning || |entries| == 0 {
        return false;
      }
      isSpinning := true;
      winner := None;
      pending := Some(PendingSpin(entries, rotation + SpinAngle(offset)));
      started := true;
    }

    /**
     * The scheduled completion: with the captured entries and rotation it sets
     * the rotation, the winner and clears `isSpinning`, and reports the winner
     * to `onSpin` once when a callback was given.
     */
    method CompleteSpin(hasOnSpin: bool) returns (notified: Option<string>)
      requires Valid() && pending.Some?
      modifies this
      ensures Valid()
      ensures rotation == old(pending.value.newRotation)
      ensures old(rotation) + 1800 <= rotation < old(rotation) + 2160
      ensures winner == Some(Resolve(old(pending.value.entries), rotation))
      ensures !isSpinning && pending == None
      ensures notified == if hasOnSpin then winner else None
    {
      var spin := pending.value;
      var offset := spin.newRotation - rotation - 1800;
      offsets := offsets + [offset];
      assert offsets[..|offsets| - 1] == old(offsets);
      rotation := spin.newRotation;
      winner := Some(Resolve(spin.entries, spin.newRotation));
      isSpinning := false;
      pending := None;
      notified := if hasOnSpin then winner else None;
    }
  }

  /**
   * Four entries, a first spin with offset 100 and a second request while it
   * runs: the second request is ignored, and the wheel stops at 1900 degrees
   * with "D" as the winner.
   */
  method FourEntryExample() {
    var wheel := new SpinWheelState();
    var entries := ["A", "B", "C", "D"];
    var first := wheel.StartSpin(entries, 100);
    assert first && wheel.isSpinning;
    var second := wheel.StartSpin(entries, 7);
    assert !second;
    FourEntriesAt1900();
    var notified := wheel.CompleteSpin(true);
    assert wheel.rotation == 1900 && !wheel.isSpinning;
    assert wheel.winner == Some("D") && notified == Some("D");
  }
}
