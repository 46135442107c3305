/**
 * The page arithmetic of `client/src/components/shared/BannerCarousel.tsx`:
 * an unbounded page counter moved by buttons, swipes and autoplay, folded
 * onto the four banners with JavaScript's truncating remainder.
 */
module Carousel {
  import opened Js

  const BannerCount := 4
  /** Pixels a drag must travel before it turns the page; drag offsets are fractional. */
  const SwipeThreshold: real := 80.0

  /** `[page, direction]`: the counter and the sign of the last move. */
  datatype View = View(page: int, direction: int)

  const Start := View(0, 0)

  /** `((page % n) + n) % n`: the banner shown for a page, for negative pages too. */
  function Index(page: int): (i: int)
    ensures 0 <= i < BannerCount
    ensures i == page % BannerCount
  {
    var r := Rem(page, BannerCount);
    Rem(r + BannerCount, BannerCount)
  }

  /** Four pages on, the same banner. */
  lemma IndexPeriodic(page: int)
    ensures Index(page + BannerCount) == Index(page)
  {
    var x := page % BannerCount;
    var q := page / BannerCount;
    assert page + BannerCount == (q + 1) * BannerCount + x;
  }

  /** The next page shows the next banner, wrapping after the last. */
  lemma IndexSuccessor(page: int)
    ensures Index(page + 1) == Rem(Index(page) + 1, BannerCount)
    ensures Index(page - 1) == if Index(page) == 0 then BannerCount - 1 else Index(page) - 1
  {
    NextResidue(page);
    NextResidue(page - 1);
  }

  /** One step on changes the Euclidean residue by one, wrapping after the last. */
  lemma NextResidue(p: int)
    ensures (p + 1) % BannerCount == if p % BannerCount == BannerCount - 1 then 0 else p % BannerCount + 1
  {
    var x := p % BannerCount;
    var q := p / BannerCount;
    assert p == q * BannerCount + x;
    if x == BannerCount - 1 {
      assert p + 1 == (q + 1) * BannerCount;
    } else {
      assert p + 1 == q * BannerCount + (x + 1);
    }
  }

  /** `paginate(dir)`. */
  function Paginate(v: View, dir: int): (w: View)
    ensures w.page - v.page == dir && w.direction == dir
  {
    View(v.page + dir, dir)
  }

  /** `onDragEnd`: a drag right past the threshold goes back, one left past it goes forward. */
  function DragEnd(v: View, offsetX: real): (w: View)
    ensures offsetX > SwipeThreshold ==> w == Paginate(v, -1)
    ensures offsetX < -SwipeThreshold ==> w == Paginate(v, 1)
    ensures -SwipeThreshold <= offsetX <= SwipeThreshold ==> w == v
  {
    if offsetX > SwipeThreshold then Paginate(v, -1)
    else if offsetX < -SwipeThreshold then Paginate(v, 1)
    else v
  }

  /** A forward swipe followed by a backward one shows the first banner again. */
  lemma SwipesCancel(v: View, forward: real, back: real)
    requires forward < -SwipeThreshold && back > SwipeThreshold
    ensures Index(DragEnd(DragEnd(v, forward), back).page) == Index(v.page)
  {
  }

  /** The banner whose image is preloaded: `(index + 1) % n`. */
  function Preload(page: int): (i: int)
    ensures 0 <= i < BannerCount
    ensures i == Index(page + 1)
  {
    IndexSuccessor(page);
    Rem(Index(page) + 1, BannerCount)
  }

  /** The indicator row: bar `i` is wide exactly when `index === i`. */
  function Indicators(page: int): (bars: seq<bool>)
    ensures |bars| == BannerCount
    ensures forall i :: 0 <= i < BannerCount ==> (bars[i] <==> i == Index(page))
  {
    seq(BannerCount, i => i == Index(page))
  }

  /** Exactly one indicator is active. */
  lemma OneIndicatorActive(page: int)
    ensures exists i :: 0 <= i < BannerCount && Indicators(page)[i]
    ensures forall i, j :: 0 <= i < BannerCount && 0 <= j < BannerCount && Indicators(page)[i] && Indicators(page)[j] ==> i == j
  {
    assert Indicators(page)[Index(page)];
  }
}
