/** The clipped two-pixel outline drawn into the luma plane. */
module Drawing {
  import opened Words

  const BOX_LUMA: byte := 235
  const THICKNESS := 2

  datatype Box = Box(x: int, y: int, w: int, h: int)

  /** Within `t` of either end of the span of `size` from `start`. */
  predicate NearEnd(start: int, size: int, t: int, p: int) {
    start <= p < start + t || start + size - t <= p < start + size
  }

  /** The points the two passes visit: horizontal edges, then vertical ones. */
  predicate Outline(b: Box, px: int, py: int) {
    || (b.x <= px < b.x + b.w && NearEnd(b.y, b.h, THICKNESS, py))
    || (b.y <= py < b.y + b.h && NearEnd(b.x, b.w, THICKNESS, px))
  }

  predicate InBox(b: Box, px: int, py: int) {
    b.x <= px < b.x + b.w && b.y <= py < b.y + b.h
  }

  // A byte's place in the plane.

  function Column(stride: nat, i: nat): int {
    if stride == 0 then 0 else i % stride
  }

  function Line(stride: nat, i: nat): int {
    if stride == 0 then 0 else i / stride
  }

  /** Is byte `i` on a visible line? With no stride nothing is visible. */
  predicate Visible(stride: nat, height: nat, i: nat) {
    stride > 0 && Line(stride, i) < height
  }

  predicate Inked(stride: nat, height: nat, b: Box, i: nat) {
    Visible(stride, height, i) && Outline(b, Column(stride, i), Line(stride, i))
  }

  lemma PlaceOf(stride: nat, px: nat, py: nat, i: nat)
    requires px < stride
    ensures i == py * stride + px <==> Column(stride, i) == px && Line(stride, i) == py
  {
    if i == py * stride + px {
      DivModUnique(i, stride, py, px);
    } else {
      assert i == (i / stride) * stride + i % stride;
    }
  }

  method Put(plane: array<byte>, stride: nat, height: nat, px: int, py: int)
    modifies plane
    ensures forall i :: 0 <= i < plane.Length ==>
              plane[i] == if Visible(stride, height, i) && Column(stride, i) == px && Line(stride, i) == py
                  then BOX_LUMA else old(plane[i])
  {
    if px < 0 || py < 0 || px >= stride || py >= height {
      return;
    }
    forall i | 0 <= i < plane.Length
      ensures i == py * stride + px <==> Column(stride, i) == px && Line(stride, i) == py
    {
      PlaceOf(stride, px, py, i);
    }
    var at := py * stride + px;
    if at < plane.Length {
      plane[at] := BOX_LUMA;
    }
  }

  /** The horizontal edges up to column `i`, and the first `k` lines of column `i`. */
  predicate Rows(b: Box, i: int, k: int, px: int, py: int) {
    || (b.x <= px < b.x + i && NearEnd(b.y, b.h, THICKNESS, py))
    || (px == b.x + i && NearEnd(b.y, b.h, k, py))
  }

  predicate Columns(b: Box, j: int, k: int, px: int, py: int) {
    || (b.y <= py < b.y + j && NearEnd(b.x, b.w, THICKNESS, px))
    || (py == b.y + j && NearEnd(b.x, b.w, k, px))
  }

  /** Every byte on the visible part of the outline is painted and no other byte changes. */
  method DrawRect(plane: array<byte>, stride: nat, height: nat, b: Box)
    modifies plane
    ensures forall i :: 0 <= i < plane.Length ==>
              plane[i] == if Inked(stride, height, b, i) then 235 else old(plane[i])
  {
    hide Column; hide Line;
    var i := 0;
    while i < b.w
      invariant 0 <= i && (i <= b.w || i == 0)
      invariant forall n :: 0 <= n < plane.Length ==>
                  plane[n] == if Visible(stride, height, n) && Rows(b, i, 0, Column(stride, n), Line(stride, n))
                      then BOX_LUMA else old(plane[n])
    {
      var k := 0;
      while k < THICKNESS
        invariant 0 <= k <= THICKNESS
        invariant forall n :: 0 <= n < plane.Length ==>
                    plane[n] == if Visible(stride, height, n) && Rows(b, i, k, Column(stride, n), Line(stride, n))
                        then BOX_LUMA else old(plane[n])
      {
        Put(plane, stride, height, b.x + i, b.y + k);
        Put(plane, stride, height, b.x + i, b.y + b.h - 1 - k);
        k := k + 1;
      }
      i := i + 1;
    }
    ghost var half := plane[..];
    var j := 0;
    while j < b.h
      invariant 0 <= j && (j <= b.h || j == 0)
      invariant forall n :: 0 <= n < plane.Length ==>
                  plane[n] == if Visible(stride, height, n) && Columns(b, j, 0, Column(stride, n), Line(stride, n))
                      then BOX_LUMA else half[n]
    {
      var k := 0;
      while k < THICKNESS
        invariant 0 <= k <= THICKNESS
        invariant forall n :: 0 <= n < plane.Length ==>
                    plane[n] == if Visible(stride, height, n) && Columns(b, j, k, Column(stride, n), Line(stride, n))
                        then BOX_LUMA else half[n]
      {
        Put(plane, stride, height, b.x + k, b.y + j);
        Put(plane, stride, height, b.x + b.w - 1 - k, b.y + j);
        k := k + 1;
      }
      j := j + 1;
    }
  }

  /** Drawing a list of boxes paints the union of their outlines, whatever their order. */
  method DrawAll(plane: array<byte>, stride: nat, height: nat, boxes: seq<Box>)
    modifies plane
    ensures forall i :: 0 <= i < plane.Length ==>
              plane[i] == if exists b :: b in boxes && Inked(stride, height, b, i) then BOX_LUMA else old(plane[i])
  {
    hide Inked;
    var n := 0;
    while n < |boxes|
      invariant 0 <= n <= |boxes|
      invariant forall i :: 0 <= i < plane.Length ==>
                  plane[i] == if exists b :: b in boxes[..n] && Inked(stride, height, b, i) then BOX_LUMA
                      else old(plane[i])
    {
      DrawRect(plane, stride, height, boxes[n]);
      assert boxes[..n + 1] == boxes[..n] + [boxes[n]];
      n := n + 1;
    }
    assert boxes[..|boxes|] == boxes;
  }

  /** The byte of pixel (px, py) is inked exactly when the pixel is visible and within two of an edge it runs along. */
  lemma InkedAt(stride: nat, height: nat, b: Box, px: nat, py: nat)
    requires px < stride
    ensures Inked(stride, height, b, py * stride + px) <==>
            && py < height
            && (|| (b.x <= px < b.x + b.w && py in {b.y, b.y + 1, b.y + b.h - 2, b.y + b.h - 1})
                || (b.y <= py < b.y + b.h && px in {b.x, b.x + 1, b.x + b.w - 2, b.x + b.w - 1}))
  {
    hide Column; hide Line;
    PlaceOf(stride, px, py, py * stride + px);
  }

  /** For a box at least two pixels each way the outline is the box less its interior. */
  lemma OutlineIsFrame(b: Box, px: int, py: int)
    requires b.w >= 2 && b.h >= 2
    ensures Outline(b, px, py) <==> InBox(b, px, py) && !InBox(Box(b.x + 2, b.y + 2, b.w - 4, b.h - 4), px, py)
  {
  }

  /** The paint stays in the box exactly when both sides are at least two, or nothing is drawn at all. */
  lemma OutlineStaysInBoxIff(b: Box)
    ensures (forall px, py :: Outline(b, px, py) ==> InBox(b, px, py)) <==>
            (b.w >= 2 && b.h >= 2) || (b.w <= 0 && b.h <= 0)
  {
    if b.w >= 1 && b.h <= 1 {
      assert Outline(b, b.x, b.y + 1) && !InBox(b, b.x, b.y + 1);
    }
    if b.h >= 1 && b.w <= 1 {
      assert Outline(b, b.x + 1, b.y) && !InBox(b, b.x + 1, b.y);
    }
  }

  /** A box one pixel each way is drawn into its neighbours. */
  lemma OnePixelBoxSpills()
    ensures Outline(Box(5, 5, 1, 1), 5, 6) && !InBox(Box(5, 5, 1, 1), 5, 6)
  {
  }
}
