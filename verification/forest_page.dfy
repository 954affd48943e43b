/**
 * The forest page's `items` memo, which both forest pages share: the
 * entries arrive newest first, and the lights are laid out in that order.
 * Each entry gets a depth from its rank, 0 for the newest and 1 for the oldest.
 * Its point is looked up by id among the laid-out lights. With duplicate ids
 * the lookup map keeps the last light, so duplicates share that light's point.
 */
module ForestPage {

  import opened Wrappers
  import Numeric
  import SeededRng
  import LightLayout
  import LightsLayer
  import Lookup

  /** A row of `diary_entries`: its id (a string) and creation time, newest first. */
  datatype EntryRow = EntryRow(id: string, createdAt: string)

  /**
   * The depth of rank `idx` among `count` entries: 0 when there is a single
   * entry, otherwise `clamp01(idx / (n - 1))` with `n = max(1, count)`.
   */
  function Depth01(idx: nat, count: nat): (d: real)
    ensures 0.0 <= d <= 1.0
    ensures idx == 0 ==> d == 0.0
    ensures count >= 2 && idx == count - 1 ==> d == 1.0
    ensures count >= 2 && idx < count ==> d == idx as real / (count - 1) as real
  {
    var n := if count >= 1 then count else 1;
    if n == 1 then 0.0
    else
      RankFraction(idx, n - 1);
      Numeric.Clamp01(idx as real / (n - 1) as real)
  }

  /** A rank within the last one is a fraction in [0, 1]. */
  lemma RankFraction(idx: nat, last: nat)
    requires last > 0
    ensures idx <= last ==> 0.0 <= idx as real / last as real <= 1.0
    ensures idx as real / last as real >= 0.0
  {
  }

  /** Dividing by a positive number keeps the order. */
  lemma DivideMonotone(a: real, b: real, last: real)
    requires a <= b && last > 0.0
    ensures a / last <= b / last
  {
    assert (b - a) / last >= 0.0;
    assert b / last - a / last == (b - a) / last;
  }

  /** An older entry (higher rank) is never nearer than a newer one. */
  lemma Depth01Monotone(i: nat, j: nat, count: nat)
    requires i <= j
    ensures Depth01(i, count) <= Depth01(j, count)
  {
    if count >= 2 {
      var last := (count - 1) as real;
      DivideMonotone(i as real, j as real, last);
      Numeric.ClampMonotone(i as real / last, j as real / last, 0.0, 1.0);
    }
  }

  // ---------------------------------------------------------------------
  // The id lookup
  // ---------------------------------------------------------------------

  function PointId(p: LightLayout.LightPoint): string { p.id }

  /** `new Map(points.map(p => [p.id, p]))`: later lights overwrite earlier ones. */
  function ById(points: seq<LightLayout.LightPoint>): map<string, LightLayout.LightPoint> {
    Lookup.LastBy(points, PointId)
  }

  /** `j` is the last position of `id` among the lights. */
  predicate IsLastIndex(points: seq<LightLayout.LightPoint>, id: string, j: int) {
    Lookup.IsLastIndex(points, PointId, id, j)
  }

  // ---------------------------------------------------------------------
  // items
  // ---------------------------------------------------------------------

  function Ids(entries: seq<EntryRow>): (ids: seq<string>)
    ensures |ids| == |entries|
    ensures forall i :: 0 <= i < |entries| ==> ids[i] == entries[i].id
  {
    seq(|entries|, i requires 0 <= i < |entries| => entries[i].id)
  }

  /** The items for the laid-out lights `points`, one per entry, in entry order. */
  function ItemsFrom(entries: seq<EntryRow>, points: seq<LightLayout.LightPoint>): (items: seq<LightsLayer.LightRenderItem>)
    requires |points| == |entries|
    requires forall i :: 0 <= i < |entries| ==> points[i].id == entries[i].id
    ensures |items| == |entries|
    ensures forall i :: 0 <= i < |entries| ==>
      && items[i].id == entries[i].id
      && items[i].createdAt == entries[i].createdAt
      && items[i].depth01 == Depth01(i, |entries|)
  {
    var byId := ById(points);
    seq(|entries|, i requires 0 <= i < |entries| =>
      Lookup.LastBySpec(points, PointId, entries[i].id);
      LightsLayer.LightRenderItem(entries[i].id, entries[i].createdAt, Depth01(i, |entries|), byId[entries[i].id]))
  }

  /**
   * Each item's point is the light at the last position of its id, so
   * entries sharing an id share one point.
   */
  lemma ItemsFromLastLight(entries: seq<EntryRow>, points: seq<LightLayout.LightPoint>, i: nat)
    requires |points| == |entries|
    requires forall i :: 0 <= i < |entries| ==> points[i].id == entries[i].id
    requires i < |entries|
    ensures exists j :: IsLastIndex(points, entries[i].id, j) && ItemsFrom(entries, points)[i].point == points[j]
  {
    Lookup.LastBySpec(points, PointId, entries[i].id);
  }

  /**
   * The lights of the page for a viewport: laid out in entry order with the
   * default options, then matched to the entries by id. The lookup `byId.get(id)!`
   * never fails, because every entry's id was laid out.
   */
  function Items(entries: seq<EntryRow>, viewport: LightLayout.Size): (items: seq<LightsLayer.LightRenderItem>)
    ensures |items| == |entries|
    ensures forall i :: 0 <= i < |entries| ==>
      && items[i].id == entries[i].id
      && items[i].createdAt == entries[i].createdAt
      && items[i].depth01 == Depth01(i, |entries|)
  {
    ItemsFrom(entries, LightLayout.LayoutLights(Ids(entries), viewport, None))
  }

  /** Two entries with the same id get the same point. */
  lemma DuplicateIdsSharePoint(entries: seq<EntryRow>, viewport: LightLayout.Size, i: nat, j: nat)
    requires i < |entries| && j < |entries|
    requires entries[i].id == entries[j].id
    ensures Items(entries, viewport)[i].point == Items(entries, viewport)[j].point
  {
  }

  /**
   * The newest entry is laid out first: when its id is not repeated, its
   * point is the first two draws of its own generator.
   */
  lemma NewestTakesFirstDraws(entries: seq<EntryRow>, viewport: LightLayout.Size)
    requires |entries| > 0
    requires forall k :: 0 < k < |entries| ==> entries[k].id != entries[0].id
    ensures var g := SeededRng.RngFromSeed(entries[0].id);
      Items(entries, viewport)[0].point == LightLayout.LightPoint(entries[0].id, SeededRng.DrawAt(g, 0), SeededRng.DrawAt(g, 1))
  {
    var ids := Ids(entries);
    var points := LightLayout.LayoutLights(ids, viewport, None);
    ItemsFromLastLight(entries, points, 0);
    var j :| IsLastIndex(points, entries[0].id, j) && ItemsFrom(entries, points)[0].point == points[j];
    assert j == 0;
    LightLayout.SeededLayoutFirstDraws(ids, viewport, None, 0);
  }
}
