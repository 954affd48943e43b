/**
 * The greedy light packer of the forest. Each id, in input order, gets its
 * own seeded candidate stream. Candidate `k` is drawn uniformly from the usable
 * rectangle (draws `2k` and `2k + 1`). It is accepted when no earlier light is
 * closer than the minimum distance. If every try is rejected, the candidate with
 * the strictly greatest score wins, ties going to the earliest. If no
 * candidate was ever drawn, the light goes to the centre. The pixel positions
 * are finally normalised to the usable rectangle; `ToPx` projects them back.
 *
 * Distances are compared squared, so no square root is needed:
 * `sqrt(d2) < minD` holds exactly when `TooClose(d2, minD)` does (see
 * SquaredComparison), and squaring preserves the order of the scores.
 */
module LightLayout {

  import opened Wrappers
  import Numeric
  import SeededRng
  import UxSpec

  datatype Size = Size(w: real, h: real)

  /** A pixel position. */
  datatype Point = Point(x: real, y: real)

  /** A light with its position: in pixels while placing, normalised once returned. */
  datatype LightPoint = LightPoint(id: string, x: real, y: real)

  /** The optional overrides of `layoutLights`; a missing one takes the UX default. */
  datatype LayoutOptions = LayoutOptions(
    safePaddingPx: Option<real>,
    minDistancePx: Option<real>,
    maxTries: Option<int>)

  /** The resolved parameters of one layout. */
  datatype Params = Params(pad: real, minD: real, maxTries: int, usableW: real, usableH: real)

  /** `Math.max(1, extent - pad * 2)`: the usable extent is never below one pixel. */
  function Usable(extent: real, pad: real): (r: real)
    ensures r >= 1.0
    ensures r >= extent - 2.0 * pad
    ensures r == 1.0 || r == extent - 2.0 * pad
  {
    Numeric.Max(1.0, extent - pad * 2.0)
  }

  function Resolve(viewport: Size, opts: Option<LayoutOptions>): (p: Params)
    ensures p.usableW >= 1.0 && p.usableH >= 1.0
    ensures opts.None? ==>
      p.pad == UxSpec.SafePaddingPx && p.minD == UxSpec.MinDistancePx && p.maxTries == UxSpec.MaxPlacementTries
  {
    var o := opts.GetOr(LayoutOptions(None, None, None));
    var pad := o.safePaddingPx.GetOr(UxSpec.SafePaddingPx);
    Params(
      pad,
      o.minDistancePx.GetOr(UxSpec.MinDistancePx),
      o.maxTries.GetOr(UxSpec.MaxPlacementTries),
      Usable(viewport.w, pad),
      Usable(viewport.h, pad))
  }

  function Pos(l: LightPoint): Point {
    Point(l.x, l.y)
  }

  // ---------------------------------------------------------------------
  // Distances
  // ---------------------------------------------------------------------

  /** The squared Euclidean distance. */
  function DistSq(a: Point, b: Point): real {
    (a.x - b.x) * (a.x - b.x) + (a.y - b.y) * (a.y - b.y)
  }

  /** `dist < minD`, stated on the squared distance. */
  predicate TooClose(d2: real, minD: real) {
    minD > 0.0 && d2 < minD * minD
  }

  /** For any non-negative root `d` of `d2`, `d < minD` holds exactly when TooClose does. */
  lemma SquaredComparison(d: real, d2: real, minD: real)
    requires d >= 0.0 && d * d == d2
    ensures d < minD <==> TooClose(d2, minD)
  {
    if minD > 0.0 {
      var mid := d * minD;
      if d < minD {
        assert d * d <= mid;
        assert mid < minD * minD;
      } else {
        assert d * d >= mid;
        assert mid >= minD * minD;
      }
    }
  }

  // ---------------------------------------------------------------------
  // The scan of a candidate against the lights already placed
  // ---------------------------------------------------------------------

  /**
   * The outcome of the inner loop: no earlier light is too close, or the
   * first one that is stopped the scan, and `nearest` is the smallest squared
   * distance seen up to and including it.
   */
  datatype Scan = Clear | Blocked(nearest: real)

  function ScanPlaced(c: Point, placed: seq<LightPoint>, minD: real): Scan
  {
    if |placed| == 0 then Clear
    else
      var d := DistSq(c, Pos(placed[0]));
      if TooClose(d, minD) then Blocked(d)
      else match ScanPlaced(c, placed[1..], minD)
        case Clear => Clear
        case Blocked(n) => Blocked(Numeric.Min(d, n))
  }

  /** `i` is the first placed light too close to `c`. */
  predicate FirstViolator(c: Point, placed: seq<LightPoint>, minD: real, i: int) {
    && 0 <= i < |placed|
    && TooClose(DistSq(c, Pos(placed[i])), minD)
    && (forall j :: 0 <= j < i ==> !TooClose(DistSq(c, Pos(placed[j])), minD))
  }

  /** `n` is the least squared distance from `c` to the lights `placed[..i+1]`. */
  predicate NearestUpTo(n: real, c: Point, placed: seq<LightPoint>, i: int)
    requires 0 <= i < |placed|
  {
    && (forall j :: 0 <= j <= i ==> n <= DistSq(c, Pos(placed[j])))
    && (exists j :: 0 <= j <= i && n == DistSq(c, Pos(placed[j])))
  }

  /**
   * The scan is clear exactly when no placed light is too close. When it is
   * blocked, the score is the nearest squared distance over the lights
   * scanned up to and including the first violator, and not over all of them.
   */
  lemma {:induction false} ScanPlacedSpec(c: Point, placed: seq<LightPoint>, minD: real)
    ensures ScanPlaced(c, placed, minD).Clear? <==>
      forall j :: 0 <= j < |placed| ==> !TooClose(DistSq(c, Pos(placed[j])), minD)
    ensures ScanPlaced(c, placed, minD).Blocked? ==>
      exists i :: FirstViolator(c, placed, minD, i) && NearestUpTo(ScanPlaced(c, placed, minD).nearest, c, placed, i)
  {
    if |placed| > 0 {
      var d := DistSq(c, Pos(placed[0]));
      if TooClose(d, minD) {
        assert FirstViolator(c, placed, minD, 0) && NearestUpTo(d, c, placed, 0);
      } else {
        var rest := placed[1..];
        ScanPlacedSpec(c, rest, minD);
        forall j | 0 <= j < |rest| ensures rest[j] == placed[j + 1] { }
        match ScanPlaced(c, rest, minD)
        case Clear =>
          forall j | 0 <= j < |placed| ensures !TooClose(DistSq(c, Pos(placed[j])), minD) {
            if j > 0 { assert placed[j] == rest[j - 1]; }
          }
        case Blocked(n) =>
          var i :| FirstViolator(c, rest, minD, i) && NearestUpTo(n, c, rest, i);
          var m := Numeric.Min(d, n);
          assert FirstViolator(c, placed, minD, i + 1) by {
            forall j | 0 <= j < i + 1 ensures !TooClose(DistSq(c, Pos(placed[j])), minD) {
              if j > 0 { assert placed[j] == rest[j - 1]; }
            }
          }
          assert NearestUpTo(m, c, placed, i + 1) by {
            forall j | 0 <= j <= i + 1 ensures m <= DistSq(c, Pos(placed[j])) {
              if j > 0 { assert placed[j] == rest[j - 1]; }
            }
            var w :| 0 <= w <= i && n == DistSq(c, Pos(rest[w]));
            assert n < d;
            assert m == DistSq(c, Pos(placed[w + 1]));
          }
      }
    }
  }

  // ---------------------------------------------------------------------
  // Placing one light
  // ---------------------------------------------------------------------

  /** `rngFromSeed(id)`, seen as its draw stream. */
  function SeedStream(id: string): SeededRng.Stream {
    SeededRng.DrawStream(SeededRng.RngFromSeed(id))
  }

  /**
   * Try `k`: `pad + randBetween(r, 0, usableW)` and then
   * `pad + randBetween(r, 0, usableH)`, on draws `2k` and `2k + 1` of the
   * light's stream (the `k` earlier tries took two draws each).
   */
  function CandidateAt(s: SeededRng.Stream, k: nat, p: Params): (c: Point)
    requires SeededRng.UnitStream(s) && p.usableW >= 1.0 && p.usableH >= 1.0
    ensures p.pad <= c.x < p.pad + p.usableW && p.pad <= c.y < p.pad + p.usableH
  {
    Point(p.pad + Numeric.Lerp(0.0, p.usableW, s(2 * k)), p.pad + Numeric.Lerp(0.0, p.usableH, s(2 * k + 1)))
  }

  /**
   * Try `k` on a generator's stream is what two `randBetween` calls make,
   * threading the generator from the state the `k` earlier tries left: the
   * first call starts after `2k` draws and the second after `2k + 1`.
   */
  lemma CandidateIsTwoRandBetween(g: SeededRng.Rng, k: nat, p: Params)
    requires p.usableW >= 1.0 && p.usableH >= 1.0
    ensures CandidateAt(SeededRng.DrawStream(g), k, p) == Point(
      p.pad + SeededRng.RandBetween(SeededRng.Advance(g, 2 * k), 0.0, p.usableW).1,
      p.pad + SeededRng.RandBetween(SeededRng.Advance(g, 2 * k + 1), 0.0, p.usableH).1)
    ensures SeededRng.RandBetween(SeededRng.Advance(g, 2 * k), 0.0, p.usableW).0 == SeededRng.Advance(g, 2 * k + 1)
    ensures SeededRng.RandBetween(SeededRng.Advance(g, 2 * k + 1), 0.0, p.usableH).0 == SeededRng.Advance(g, 2 * (k + 1))
  {
    var n := 2 * k;
    SeededRng.RandBetweenAt(g, n, 0.0, p.usableW);
    SeededRng.RandBetweenAt(g, n + 1, 0.0, p.usableH);
    assert n + 1 + 1 == 2 * (k + 1);
  }

  /** The best rejected candidate so far: its point, its score and its try number. */
  datatype Best = Best(pt: Point, score: real, k: nat)

  /** How a light was placed. */
  datatype Choice = Accepted(pt: Point, k: nat) | BestEffort(pt: Point, k: nat) | Centre

  predicate Rejected(s: SeededRng.Stream, placed: seq<LightPoint>, p: Params, k: nat)
    requires SeededRng.UnitStream(s) && p.usableW >= 1.0 && p.usableH >= 1.0
  {
    ScanPlaced(CandidateAt(s, k, p), placed, p.minD).Blocked?
  }

  function Score(s: SeededRng.Stream, placed: seq<LightPoint>, p: Params, k: nat): real
    requires SeededRng.UnitStream(s) && p.usableW >= 1.0 && p.usableH >= 1.0
    requires Rejected(s, placed, p, k)
  {
    ScanPlaced(CandidateAt(s, k, p), placed, p.minD).nearest
  }

  /** The best rejected candidate after rejecting `c` with `score` at try `k`: replaced only on a strictly greater score. */
  function NextBest(best: Option<Best>, c: Point, score: real, k: nat): Option<Best> {
    if best.None? || score > best.value.score then Some(Best(c, score, k)) else best
  }

  /** The outer loop from try `k` on, with the best rejected candidate so far. */
  function TryFrom(s: SeededRng.Stream, placed: seq<LightPoint>, p: Params, k: nat, best: Option<Best>): Choice
    requires SeededRng.UnitStream(s) && p.usableW >= 1.0 && p.usableH >= 1.0
    decreases p.maxTries - k
  {
    if k >= p.maxTries then
      match best
      case None => Centre
      case Some(b) => BestEffort(b.pt, b.k)
    else
      var c := CandidateAt(s, k, p);
      match ScanPlaced(c, placed, p.minD)
      case Clear => Accepted(c, k)
      case Blocked(score) => TryFrom(s, placed, p, k + 1, NextBest(best, c, score, k))
  }

  /** Places one light with stream `s` against the lights already placed. */
  function Place(s: SeededRng.Stream, placed: seq<LightPoint>, p: Params): Choice
    requires SeededRng.UnitStream(s) && p.usableW >= 1.0 && p.usableH >= 1.0
  {
    TryFrom(s, placed, p, 0, None)
  }

  /** What the loop knows about the best rejected candidate after `k` rejected tries. */
  predicate BestSoFar(s: SeededRng.Stream, placed: seq<LightPoint>, p: Params, k: nat, best: Option<Best>)
    requires SeededRng.UnitStream(s) && p.usableW >= 1.0 && p.usableH >= 1.0
  {
    && (k == 0 || k <= p.maxTries)
    && (forall j: nat :: j < k ==> Rejected(s, placed, p, j))
    && (best.None? <==> k == 0)
    && (best.Some? ==>
          var b := best.value;
          && b.k < k
          && b.pt == CandidateAt(s, b.k, p)
          && b.score == Score(s, placed, p, b.k)
          && (forall j: nat :: j < b.k ==> Score(s, placed, p, j) < b.score)
          && (forall j: nat :: b.k <= j < k ==> Score(s, placed, p, j) <= b.score))
  }

  /** The argmax rule: `k` is the first try with the strictly greatest score among the first `n`. */
  predicate FirstArgmax(s: SeededRng.Stream, placed: seq<LightPoint>, p: Params, n: nat, k: nat)
    requires SeededRng.UnitStream(s) && p.usableW >= 1.0 && p.usableH >= 1.0
    requires forall j: nat :: j < n ==> Rejected(s, placed, p, j)
  {
    && k < n
    && (forall j: nat :: j < k ==> Score(s, placed, p, j) < Score(s, placed, p, k))
    && (forall j: nat :: k < j < n ==> Score(s, placed, p, j) <= Score(s, placed, p, k))
  }

  /** One rejected try keeps BestSoFar. */
  lemma BestSoFarStep(s: SeededRng.Stream, placed: seq<LightPoint>, p: Params, k: nat, best: Option<Best>)
    requires SeededRng.UnitStream(s) && p.usableW >= 1.0 && p.usableH >= 1.0
    requires BestSoFar(s, placed, p, k, best)
    requires k < p.maxTries && Rejected(s, placed, p, k)
    ensures BestSoFar(s, placed, p, k + 1, NextBest(best, CandidateAt(s, k, p), Score(s, placed, p, k), k))
  {
    var best' := NextBest(best, CandidateAt(s, k, p), Score(s, placed, p, k), k);
    if best.Some? && best'.Some? && best'.value.k == k {
      var b := best.value;
      forall j: nat | j < k
        ensures Score(s, placed, p, j) < Score(s, placed, p, k)
      {
        if j < b.k {
          assert Score(s, placed, p, j) < b.score;
        } else {
          assert Score(s, placed, p, j) <= b.score;
        }
      }
    }
  }

  /** When the tries run out, the best rejected candidate is the first argmax over all of them. */
  lemma BestSoFarDone(s: SeededRng.Stream, placed: seq<LightPoint>, p: Params, k: nat, best: Option<Best>)
    requires SeededRng.UnitStream(s) && p.usableW >= 1.0 && p.usableH >= 1.0
    requires BestSoFar(s, placed, p, k, best)
    requires k >= p.maxTries && best.Some?
    ensures k == p.maxTries
    ensures best.value.k < p.maxTries
    ensures FirstArgmax(s, placed, p, p.maxTries, best.value.k)
  {
  }

  lemma {:induction false} TryFromSpec(s: SeededRng.Stream, placed: seq<LightPoint>, p: Params, k: nat, best: Option<Best>)
    requires SeededRng.UnitStream(s) && p.usableW >= 1.0 && p.usableH >= 1.0
    requires BestSoFar(s, placed, p, k, best)
    ensures var c := TryFrom(s, placed, p, k, best);
      && (c.Centre? <==> k == 0 && p.maxTries <= 0)
      && (c.Accepted? ==>
            && k <= c.k < p.maxTries
            && c.pt == CandidateAt(s, c.k, p)
            && !Rejected(s, placed, p, c.k)
            && (forall j: nat :: j < c.k ==> Rejected(s, placed, p, j)))
      && (c.BestEffort? ==>
            && (forall j: nat :: j < p.maxTries ==> Rejected(s, placed, p, j))
            && c.pt == CandidateAt(s, c.k, p)
            && FirstArgmax(s, placed, p, p.maxTries, c.k))
    decreases p.maxTries - k
  {
    var c := TryFrom(s, placed, p, k, best);
    if k >= p.maxTries {
      if best.Some? {
        BestSoFarDone(s, placed, p, k, best);
        assert c == BestEffort(best.value.pt, best.value.k);
      } else {
        assert c == Centre;
      }
    } else if Rejected(s, placed, p, k) {
      var best' := NextBest(best, CandidateAt(s, k, p), Score(s, placed, p, k), k);
      assert c == TryFrom(s, placed, p, k + 1, best');
      BestSoFarStep(s, placed, p, k, best);
      TryFromSpec(s, placed, p, k + 1, best');
    } else {
      assert c == Accepted(CandidateAt(s, k, p), k);
    }
  }

  /**
   * The per-light choice: the centre exactly when no try is made; otherwise
   * the first accepted candidate, and if none is accepted, the first candidate
   * with the strictly greatest score.
   */
  lemma PlaceSpec(s: SeededRng.Stream, placed: seq<LightPoint>, p: Params)
    requires SeededRng.UnitStream(s) && p.usableW >= 1.0 && p.usableH >= 1.0
    ensures var c := Place(s, placed, p);
      && (c.Centre? <==> p.maxTries <= 0)
      && (c.Accepted? <==> exists k: nat :: k < p.maxTries && !Rejected(s, placed, p, k))
      && (c.Accepted? ==>
            && c.k < p.maxTries
            && c.pt == CandidateAt(s, c.k, p)
            && !Rejected(s, placed, p, c.k)
            && (forall j: nat :: j < c.k ==> Rejected(s, placed, p, j)))
      && (c.BestEffort? ==>
            && c.pt == CandidateAt(s, c.k, p)
            && FirstArgmax(s, placed, p, p.maxTries, c.k))
  {
    TryFromSpec(s, placed, p, 0, None);
  }

  /** The pixel position the choice stands for. */
  function Chosen(c: Choice, p: Params): Point {
    match c
    case Accepted(pt, _) => pt
    case BestEffort(pt, _) => pt
    case Centre => Point(p.pad + p.usableW * 0.5, p.pad + p.usableH * 0.5)
  }

  // ---------------------------------------------------------------------
  // layoutLights
  // ---------------------------------------------------------------------

  /** Every id's stream is a stream of unit draws. */
  ghost predicate UnitStreams(streams: string -> SeededRng.Stream) {
    forall id :: SeededRng.UnitStream(streams(id))
  }

  /** The outer loop, each id placed with its own stream: the lights in pixels, in input order. */
  function PlaceAll(ids: seq<string>, p: Params, streams: string -> SeededRng.Stream): (placed: seq<LightPoint>)
    requires UnitStreams(streams) && p.usableW >= 1.0 && p.usableH >= 1.0
    ensures |placed| == |ids|
    ensures forall i :: 0 <= i < |ids| ==> placed[i].id == ids[i]
  {
    if |ids| == 0 then []
    else
      var prev := PlaceAll(ids[..|ids| - 1], p, streams);
      var id := ids[|ids| - 1];
      var pt := Chosen(Place(streams(id), prev, p), p);
      prev + [LightPoint(id, pt.x, pt.y)]
  }

  /** Placing a prefix of the ids places a prefix of the lights. */
  lemma {:induction false} PlaceAllPrefix(ids: seq<string>, p: Params, streams: string -> SeededRng.Stream, m: nat)
    requires UnitStreams(streams) && p.usableW >= 1.0 && p.usableH >= 1.0
    requires m <= |ids|
    ensures PlaceAll(ids[..m], p, streams) == PlaceAll(ids, p, streams)[..m]
    decreases |ids|
  {
    if m < |ids| {
      var init := ids[..|ids| - 1];
      assert ids[..m] == init[..m];
      PlaceAllPrefix(init, p, streams, m);
    } else {
      assert ids[..m] == ids;
    }
  }

  /** Light `i` is placed with its own stream against the lights `0 .. i-1`. */
  lemma PlaceAllAt(ids: seq<string>, p: Params, streams: string -> SeededRng.Stream, i: nat)
    requires UnitStreams(streams) && p.usableW >= 1.0 && p.usableH >= 1.0
    requires i < |ids|
    ensures var placed := PlaceAll(ids, p, streams);
      var pt := Chosen(Place(streams(ids[i]), placed[..i], p), p);
      placed[i] == LightPoint(ids[i], pt.x, pt.y)
  {
    PlaceAllPrefix(ids, p, streams, i + 1);
    assert ids[..i + 1][..i] == ids[..i];
    PlaceAllPrefix(ids, p, streams, i);
  }

  /** `(p.x - pad) / usableW` and the same on the other axis. */
  function Normalise(l: LightPoint, p: Params): LightPoint
    requires p.usableW >= 1.0 && p.usableH >= 1.0
  {
    LightPoint(l.id, (l.x - p.pad) / p.usableW, (l.y - p.pad) / p.usableH)
  }

  /** The packer with given streams, normalised: `layoutLights` is its instance on SeedStream. */
  function LayoutWith(ids: seq<string>, p: Params, streams: string -> SeededRng.Stream): (out: seq<LightPoint>)
    requires UnitStreams(streams) && p.usableW >= 1.0 && p.usableH >= 1.0
    ensures |out| == |ids|
    ensures forall i :: 0 <= i < |ids| ==> out[i].id == ids[i]
  {
    var placed := PlaceAll(ids, p, streams);
    seq(|placed|, i requires 0 <= i < |placed| => Normalise(placed[i], p))
  }

  function LayoutLights(ids: seq<string>, viewport: Size, opts: Option<LayoutOptions>): (out: seq<LightPoint>)
    ensures |out| == |ids|
    ensures forall i :: 0 <= i < |ids| ==> out[i].id == ids[i]
  {
    LayoutWith(ids, Resolve(viewport, opts), SeedStream)
  }

  /** The normalised position a choice stands for: the try's two draws, or the centre. */
  function NormalisedChoice(s: SeededRng.Stream, c: Choice): (r: Point)
    requires SeededRng.UnitStream(s)
    ensures 0.0 <= r.x < 1.0 && 0.0 <= r.y < 1.0
  {
    match c
    case Accepted(_, k) => Point(s(2 * k), s(2 * k + 1))
    case BestEffort(_, k) => Point(s(2 * k), s(2 * k + 1))
    case Centre => Point(0.5, 0.5)
  }

  /** Normalising the pixel position of try `k` gives back its two draws. */
  lemma NormaliseCandidate(s: SeededRng.Stream, k: nat, p: Params, id: string)
    requires SeededRng.UnitStream(s) && p.usableW >= 1.0 && p.usableH >= 1.0
    ensures var c := CandidateAt(s, k, p);
      var n := Normalise(LightPoint(id, c.x, c.y), p);
      n.x == s(2 * k) && n.y == s(2 * k + 1)
  {
    Numeric.LerpInverse(0.0, p.usableW, s(2 * k));
    Numeric.LerpInverse(0.0, p.usableH, s(2 * k + 1));
  }

  /** Normalising a chosen pixel position gives back the draws it came from, or the centre. */
  lemma NormaliseChosen(s: SeededRng.Stream, placed: seq<LightPoint>, p: Params, id: string)
    requires SeededRng.UnitStream(s) && p.usableW >= 1.0 && p.usableH >= 1.0
    ensures var c := Place(s, placed, p);
      var pt := Chosen(c, p);
      var n := Normalise(LightPoint(id, pt.x, pt.y), p);
      Point(n.x, n.y) == NormalisedChoice(s, c)
  {
    var c := Place(s, placed, p);
    PlaceSpec(s, placed, p);
    match c
    case Centre =>
    case Accepted(pt, k) => NormaliseCandidate(s, k, p, id);
    case BestEffort(pt, k) => NormaliseCandidate(s, k, p, id);
  }

  /**
   * Every returned coordinate is one of the light's own draws (those of the
   * chosen try) or the centre 0.5, and so lies in [0, 1). This holds for any
   * viewport, a zero-size one included: the usable extent is then one pixel,
   * and the normalised point is still the raw draws.
   */
  lemma LayoutCoordinates(ids: seq<string>, p: Params, streams: string -> SeededRng.Stream, i: nat)
    requires UnitStreams(streams) && p.usableW >= 1.0 && p.usableH >= 1.0
    requires i < |ids|
    ensures var out := LayoutWith(ids, p, streams);
      var c := Place(streams(ids[i]), PlaceAll(ids, p, streams)[..i], p);
      && Point(out[i].x, out[i].y) == NormalisedChoice(streams(ids[i]), c)
      && 0.0 <= out[i].x < 1.0 && 0.0 <= out[i].y < 1.0
  {
    PlaceAllAt(ids, p, streams, i);
    NormaliseChosen(streams(ids[i]), PlaceAll(ids, p, streams)[..i], p, ids[i]);
  }

  /** An accepted light keeps at least the minimum distance from every light placed before it. */
  lemma AcceptedKeepsDistance(ids: seq<string>, p: Params, streams: string -> SeededRng.Stream, i: nat, j: nat)
    requires UnitStreams(streams) && p.usableW >= 1.0 && p.usableH >= 1.0
    requires j < i < |ids|
    requires Place(streams(ids[i]), PlaceAll(ids, p, streams)[..i], p).Accepted?
    ensures var placed := PlaceAll(ids, p, streams);
      !TooClose(DistSq(Pos(placed[i]), Pos(placed[j])), p.minD)
  {
    var placed := PlaceAll(ids, p, streams);
    var before := placed[..i];
    var s := streams(ids[i]);
    PlaceAllAt(ids, p, streams, i);
    PlaceSpec(s, before, p);
    var c := Place(s, before, p);
    ScanPlacedSpec(CandidateAt(s, c.k, p), before, p.minD);
    assert before[j] == placed[j];
  }

  /** With at least one try, the first light takes its first candidate: its first two draws. */
  lemma FirstLightTakesFirstCandidate(ids: seq<string>, p: Params, streams: string -> SeededRng.Stream)
    requires UnitStreams(streams) && p.usableW >= 1.0 && p.usableH >= 1.0
    requires |ids| > 0 && p.maxTries > 0
    ensures LayoutWith(ids, p, streams)[0] == LightPoint(ids[0], streams(ids[0])(0), streams(ids[0])(1))
  {
    var s := streams(ids[0]);
    LayoutCoordinates(ids, p, streams, 0);
    PlaceSpec(s, [], p);
    assert PlaceAll(ids, p, streams)[..0] == [];
    assert !Rejected(s, [], p, 0);
  }

  /**
   * With `minD <= 0` no candidate is ever rejected, so every light takes its
   * first candidate: its position depends on its own stream alone, not on the
   * other ids or their order.
   */
  lemma NoMinimumDistanceIndependent(ids: seq<string>, p: Params, streams: string -> SeededRng.Stream, i: nat)
    requires UnitStreams(streams) && p.usableW >= 1.0 && p.usableH >= 1.0
    requires i < |ids| && p.maxTries > 0 && p.minD <= 0.0
    ensures LayoutWith(ids, p, streams)[i] == LightPoint(ids[i], streams(ids[i])(0), streams(ids[i])(1))
  {
    var s := streams(ids[i]);
    var before := PlaceAll(ids, p, streams)[..i];
    LayoutCoordinates(ids, p, streams, i);
    PlaceSpec(s, before, p);
    ScanPlacedSpec(CandidateAt(s, 0, p), before, p.minD);
    assert !Rejected(s, before, p, 0);
  }

  /**
   * The seeded layout: with at least one try the first light sits at the
   * first two draws of `rngFromSeed(id)`, and so does every light when the
   * minimum distance is not positive.
   */
  lemma SeededLayoutFirstDraws(ids: seq<string>, viewport: Size, opts: Option<LayoutOptions>, i: nat)
    requires i < |ids| && Resolve(viewport, opts).maxTries > 0
    requires i == 0 || Resolve(viewport, opts).minD <= 0.0
    ensures var g := SeededRng.RngFromSeed(ids[i]);
      LayoutLights(ids, viewport, opts)[i] == LightPoint(ids[i], SeededRng.DrawAt(g, 0), SeededRng.DrawAt(g, 1))
  {
    var p := Resolve(viewport, opts);
    if i == 0 {
      FirstLightTakesFirstCandidate(ids, p, SeedStream);
    } else {
      NoMinimumDistanceIndependent(ids, p, SeedStream, i);
    }
  }

  /** The seeded layout's coordinates lie in [0, 1) for every viewport. */
  lemma SeededLayoutInUnitSquare(ids: seq<string>, viewport: Size, opts: Option<LayoutOptions>, i: nat)
    requires i < |ids|
    ensures var out := LayoutLights(ids, viewport, opts);
      0.0 <= out[i].x < 1.0 && 0.0 <= out[i].y < 1.0
  {
    LayoutCoordinates(ids, Resolve(viewport, opts), SeedStream, i);
  }

  // ---------------------------------------------------------------------
  // toPx
  // ---------------------------------------------------------------------

  /** `padPx + point.x * usableW` and the same on the other axis. */
  function ToPx(point: LightPoint, viewport: Size, padPx: real): Point {
    Point(padPx + Numeric.Scale(Usable(viewport.w, padPx), point.x),
          padPx + Numeric.Scale(Usable(viewport.h, padPx), point.y))
  }

  /** ToPx maps the closed unit square onto the usable rectangle. */
  lemma ToPxRange(point: LightPoint, viewport: Size, padPx: real)
    requires 0.0 <= point.x <= 1.0 && 0.0 <= point.y <= 1.0
    ensures var q := ToPx(point, viewport, padPx);
      && padPx <= q.x <= padPx + Usable(viewport.w, padPx)
      && padPx <= q.y <= padPx + Usable(viewport.h, padPx)
  {
    Numeric.ScaleRangeClosed(Usable(viewport.w, padPx), point.x);
    Numeric.ScaleRangeClosed(Usable(viewport.h, padPx), point.y);
  }

  /** ToPx undoes Normalise when it is given the same padding. */
  lemma ToPxUndoesNormalise(l: LightPoint, viewport: Size, opts: Option<LayoutOptions>)
    ensures var p := Resolve(viewport, opts);
      ToPx(Normalise(l, p), viewport, p.pad) == Pos(l)
  {
    var p := Resolve(viewport, opts);
    Numeric.ScaleUndoesDivision(p.usableW, l.x - p.pad);
    Numeric.ScaleUndoesDivision(p.usableH, l.y - p.pad);
  }

  /** With the layout's own padding, ToPx gives back the pixel position each light was placed at. */
  lemma ToPxInvertsLayout(ids: seq<string>, viewport: Size, opts: Option<LayoutOptions>, i: nat)
    requires i < |ids|
    ensures var p := Resolve(viewport, opts);
      ToPx(LayoutLights(ids, viewport, opts)[i], viewport, p.pad) == Pos(PlaceAll(ids, p, SeedStream)[i])
  {
    var p := Resolve(viewport, opts);
    ToPxUndoesNormalise(PlaceAll(ids, p, SeedStream)[i], viewport, opts);
  }
}
