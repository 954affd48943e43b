/**
 * The layer that draws the lights: every item is projected from the unit
 * square to pixels, then drawn as a dot. Its brightness, size, glow and
 * stacking order fall with depth. Its position is the projected point plus
 * the flicker offset, and it is highlighted when its id is the one asked for.
 *
 * The easing `Math.pow(v, 0.6)` is not modelled numerically: it is a
 * parameter `pow` that is only assumed to be a monotone map of [0, 1] onto
 * itself fixing 0 and 1 (PowLike).
 */
module LightsLayer {

  import opened Wrappers
  import Numeric
  import UxSpec
  import LightLayout
  import DeepFlicker

  /** One light to draw: its id, creation time, depth and normalised position. */
  datatype LightRenderItem = LightRenderItem(id: string, createdAt: string, depth01: real, point: LightLayout.LightPoint)

  /** What `Math.pow(·, 0.6)` is assumed to be on [0, 1]. */
  ghost predicate PowLike(pow: real -> real) {
    && pow(0.0) == 0.0
    && pow(1.0) == 1.0
    && (forall v :: 0.0 <= v <= 1.0 ==> 0.0 <= pow(v) <= 1.0)
    && (forall a, b :: 0.0 <= a <= b <= 1.0 ==> pow(a) <= pow(b))
  }

  /** `ease(v) = pow(clamp01(v))`. */
  function Ease(pow: real -> real, v: real): (r: real)
    requires PowLike(pow)
    ensures 0.0 <= r <= 1.0
    ensures v <= 0.0 ==> r == 0.0
    ensures v >= 1.0 ==> r == 1.0
  {
    pow(Numeric.Clamp01(v))
  }

  /** A larger argument never eases to less. */
  lemma EaseMonotone(pow: real -> real, a: real, b: real)
    requires PowLike(pow)
    requires a <= b
    ensures Ease(pow, a) <= Ease(pow, b)
  {
    Numeric.ClampMonotone(a, b, 0.0, 1.0);
  }

  /** The style numbers of one dot. */
  datatype Appearance = Appearance(opacity: real, size: real, glow: real, glowAlpha: real, zIndex: int)

  /** `Math.round(x)`: the nearest integer, halves rounded up. */
  function Round(x: real): (r: int)
    ensures x - 0.5 < r as real <= x + 0.5
  {
    (x + 0.5).Floor
  }

  /** `Math.round(1000 * (1 - depth01))`. */
  function ZIndex(depth01: real): (z: int)
    ensures 0.0 <= depth01 <= 1.0 ==> 0 <= z <= 1000
    ensures depth01 == 0.0 ==> z == 1000
    ensures depth01 == 1.0 ==> z == 0
  {
    Round(1000.0 * (1.0 - depth01))
  }

  /** A deeper light is never stacked above a nearer one. */
  lemma ZIndexAntitone(a: real, b: real)
    requires a <= b
    ensures ZIndex(b) <= ZIndex(a)
  {
  }

  /**
   * With `b = ease(1 - depth01)`: opacity `0.18 + 0.62 b`, size `6 + 10 b`,
   * glow radius `10 + 26 b`, glow alpha `0.10 + 0.22 b`, and the z-index.
   */
  function LightAppearance(pow: real -> real, depth01: real): (a: Appearance)
    requires PowLike(pow)
    ensures 0.18 <= a.opacity <= 0.80
    ensures 6.0 <= a.size <= 16.0
    ensures 10.0 <= a.glow <= 36.0
    ensures 0.10 <= a.glowAlpha <= 0.32
    ensures depth01 <= 0.0 ==> a.opacity == 0.80 && a.size == 16.0 && a.glow == 36.0
    ensures depth01 >= 1.0 ==> a.opacity == 0.18 && a.size == 6.0 && a.glow == 10.0
  {
    var b := Ease(pow, 1.0 - depth01);
    Appearance(0.18 + 0.62 * b, 6.0 + 10.0 * b, 10.0 + 26.0 * b, 0.10 + 0.22 * b, ZIndex(depth01))
  }

  /** A deeper light is never brighter, larger or more glowing, nor stacked higher. */
  lemma AppearanceAntitone(pow: real -> real, a: real, b: real)
    requires PowLike(pow)
    requires a <= b
    ensures var near := LightAppearance(pow, a);
      var far := LightAppearance(pow, b);
      && far.opacity <= near.opacity
      && far.size <= near.size
      && far.glow <= near.glow
      && far.glowAlpha <= near.glowAlpha
      && far.zIndex <= near.zIndex
  {
    EaseMonotone(pow, 1.0 - b, 1.0 - a);
    ZIndexAntitone(a, b);
  }

  /** An item together with its pixel position. */
  datatype PxItem = PxItem(item: LightRenderItem, px: LightLayout.Point)

  /** The `pxItems` memo: every item projected with `toPx(point, vp, safePaddingPx)`. */
  function PxItems(items: seq<LightRenderItem>, viewport: LightLayout.Size): (r: seq<PxItem>)
    ensures |r| == |items|
    ensures forall i :: 0 <= i < |items| ==>
      r[i].item == items[i] && r[i].px == LightLayout.ToPx(items[i].point, viewport, UxSpec.SafePaddingPx)
  {
    seq(|items|, i requires 0 <= i < |items| => PxItem(items[i], LightLayout.ToPx(items[i].point, viewport, UxSpec.SafePaddingPx)))
  }

  /** An item whose point is in the unit square is drawn inside the padded, usable rectangle. */
  lemma PxItemsInsideViewport(items: seq<LightRenderItem>, viewport: LightLayout.Size, i: nat)
    requires i < |items|
    requires 0.0 <= items[i].point.x <= 1.0 && 0.0 <= items[i].point.y <= 1.0
    ensures var px := PxItems(items, viewport)[i].px;
      var pad := UxSpec.SafePaddingPx;
      && pad <= px.x <= pad + LightLayout.Usable(viewport.w, pad)
      && pad <= px.y <= pad + LightLayout.Usable(viewport.h, pad)
  {
    LightLayout.ToPxRange(items[i].point, viewport, UxSpec.SafePaddingPx);
  }

  /** `props.highlightedId === it.id`: a null id highlights nothing. */
  function Highlighted(highlightedId: Option<string>, id: string): (h: bool)
    ensures h <==> highlightedId.Some? && highlightedId.value == id
  {
    highlightedId == Some(id)
  }

  /** The dot's `left`/`top`: the pixel position moved by the flicker offset. */
  function RenderPosition(px: LightLayout.Point, flick: DeepFlicker.Offset): (r: LightLayout.Point)
    ensures r.x - px.x == flick.x && r.y - px.y == flick.y
  {
    LightLayout.Point(px.x + flick.x, px.y + flick.y)
  }

  /** A flickering dot strays at most two pixels from its projected position on each axis. */
  lemma RenderPositionNearPoint(px: LightLayout.Point, flick: DeepFlicker.Offset)
    requires DeepFlicker.InBounds(flick)
    ensures var r := RenderPosition(px, flick);
      && px.x - DeepFlicker.MaxOffset <= r.x <= px.x + DeepFlicker.MaxOffset
      && px.y - DeepFlicker.MaxOffset <= r.y <= px.y + DeepFlicker.MaxOffset
  {
  }

  /** What one LightDot renders from. */
  datatype Dot = Dot(id: string, position: LightLayout.Point, look: Appearance, highlighted: bool)

  /** The dot of one projected item, given its current flicker offset. */
  function DotFor(pow: real -> real, it: PxItem, flick: DeepFlicker.Offset, highlightedId: Option<string>): (d: Dot)
    requires PowLike(pow)
    ensures d.id == it.item.id
    ensures d.look == LightAppearance(pow, it.item.depth01)
    ensures d.highlighted <==> highlightedId == Some(it.item.id)
    ensures d.position.x - it.px.x == flick.x && d.position.y - it.px.y == flick.y
  {
    Dot(it.item.id, RenderPosition(it.px, flick), LightAppearance(pow, it.item.depth01), Highlighted(highlightedId, it.item.id))
  }
}
