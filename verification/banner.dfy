/** The home page carousel: which slide is shown, the arrow and dot
    controls, and the autoplay step that pauses while the mouse is over
    the carousel. */
module Banner {

  /** The number of slides the banner defines. */
  const SlideCount: nat := 3

  /** `(i + 1) % len`. The operands are never negative, so JavaScript's
      truncating `%` and Dafny's Euclidean `%` agree. */
  function NextIndex(i: nat, len: nat): (r: nat)
    requires len > 0
    ensures r < len
    ensures i + 1 < len ==> r == i + 1
    ensures i == len - 1 ==> r == 0
  {
    (i + 1) % len
  }

  /** `(i - 1 + len) % len`; the operand is non-negative for every index
      in range. */
  function PrevIndex(i: nat, len: nat): (r: nat)
    requires i < len
    ensures r < len
    ensures 0 < i ==> r == i - 1
    ensures i == 0 ==> r == len - 1
  {
    (i - 1 + len) % len
  }

  /** `prev` undoes `next` and `next` undoes `prev`. */
  lemma {:induction false} NextPrevInverse(i: nat, len: nat)
    requires i < len
    ensures PrevIndex(NextIndex(i, len), len) == i
    ensures NextIndex(PrevIndex(i, len), len) == i
  {
    if i + 1 < len {
      assert NextIndex(i, len) == i + 1;
    } else {
      assert NextIndex(i, len) == 0;
    }
  }

  /** Any number `k` of steps forward from slide `i` lands on slide
      `(i + k) % len`. */
  lemma {:induction false} NextCycles(i: nat, len: nat, k: nat)
    requires i < len
    ensures Advance(i, len, k) == (i + k) % len
  {
    if k == 0 {
      SmallMod(i, len);
    } else {
      NextCycles(i, len, k - 1);
      ModStep(i + k - 1, len);
    }
  }

  /** Taking the remainder before adding one does not change the
      remainder after. */
  lemma ModStep(m: nat, len: nat)
    requires len > 0
    ensures ((m % len) + 1) % len == (m + 1) % len
  {
    var q := m / len;
    var r := m % len;
    if r + 1 < len {
      ModUnique(m + 1, len, q, r + 1);
      ModUnique(r + 1, len, 0, r + 1);
    } else {
      ModUnique(m + 1, len, q + 1, 0);
      ModUnique(r + 1, len, 1, 0);
    }
  }

  /** The remainder is the only `r` in `[0, len)` with `x == q * len + r`. */
  lemma ModUnique(x: int, len: int, q: int, r: int)
    requires 0 < len && 0 <= r < len && x == q * len + r
    ensures x % len == r
  {
    var q2, r2 := x / len, x % len;
    assert x == q2 * len + r2;
    var d := q - q2;
    assert d * len == q * len - q2 * len;
    assert d * len == r2 - r;
    if d >= 1 {
      MulGe(d, len);
    } else if d <= -1 {
      MulGe(-d, len);
    }
  }

  lemma MulGe(a: int, len: int)
    requires a >= 1 && len > 0
    ensures a * len >= len
  {
    var b := a - 1;
    assert a * len == b * len + len;
    MulNonneg(b, len);
  }

  lemma {:induction false} MulNonneg(b: int, len: int)
    requires b >= 0 && len > 0
    ensures b * len >= 0
    decreases b
  {
    if b > 0 {
      MulNonneg(b - 1, len);
      assert b * len == (b - 1) * len + len;
    }
  }

  /** Below `2 * len`, the remainder subtracts `len` at most once. */
  lemma SmallMod(m: nat, len: nat)
    requires 0 < len && m < 2 * len
    ensures m % len == if m < len then m else m - len
  {
    if m >= len {
      assert m == 1 * len + (m - len);
    }
  }

  /** `k` applications of `next`. */
  function Advance(i: nat, len: nat, k: nat): (r: nat)
    requires i < len
    ensures r < len
  {
    if k == 0 then i else NextIndex(Advance(i, len, k - 1), len)
  }

  /** A full round of autoplay ticks comes back to the same slide. */
  lemma FullRoundReturns(i: nat, len: nat)
    requires i < len
    ensures Advance(i, len, len) == i
  {
    NextCycles(i, len, len);
    SmallMod(i + len, len);
  }

  class Carousel {
    const len: nat
    var index: nat
    var hovered: bool

    ghost predicate Valid()
      reads this
    {
      0 < len && index < len
    }

    /** The carousel starts on the first slide, not hovered. */
    constructor ()
      ensures Valid() && len == SlideCount && index == 0 && !hovered
    {
      len := SlideCount;
      index := 0;
      hovered := false;
    }

    /** `next` */
    method Next()
      requires Valid()
      modifies this
      ensures Valid() && index == NextIndex(old(index), len) && hovered == old(hovered)
    {
      index := NextIndex(index, len);
    }

    /** `prev` */
    method Prev()
      requires Valid()
      modifies this
      ensures Valid() && index == PrevIndex(old(index), len) && hovered == old(hovered)
    {
      index := PrevIndex(index, len);
    }

    /** `goTo(i)`, called from the dot of slide `i`. */
    method GoTo(i: nat)
      requires Valid() && i < len
      modifies this
      ensures Valid() && index == i && hovered == old(hovered)
    {
      index := i;
    }

    /** `onMouseEnter` / `onMouseLeave` */
    method SetHovered(h: bool)
      requires Valid()
      modifies this
      ensures Valid() && hovered == h && index == old(index)
    {
      hovered := h;
    }

    /** One autoplay interval: advance unless the mouse is over the
        carousel. */
    method Tick()
      requires Valid()
      modifies this
      ensures Valid() && hovered == old(hovered)
      ensures old(hovered) ==> index == old(index)
      ensures !old(hovered) ==> index == NextIndex(old(index), len)
    {
      if !hovered {
        Next();
      }
    }
  }
}
