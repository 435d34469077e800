// internal/api/thumbs.go: the seven loops that flip and turn an image, and the
// group they form. Pictures are given relative to the corner of their bounds.
module Orientation {

  /** Rows of pixels, from the top. */
  datatype Pic<C> = Pic(w: nat, h: nat, rows: seq<seq<C>>)

  predicate Ok<C>(p: Pic<C>) { |p.rows| == p.h && forall y :: 0 <= y < p.h ==> |p.rows[y]| == p.w }

  /** A symmetry of the rectangle: exchange the axes, then flip. */
  datatype Sym = Sym(swap: bool, flipX: bool, flipY: bool)

  const SAME := Sym(false, false, false)
  const FLIPPED_H := Sym(false, true, false)
  const FLIPPED_V := Sym(false, false, true)
  const ROTATED_180 := Sym(false, true, true)
  const TRANSPOSED := Sym(true, false, false)
  const ROTATED_90 := Sym(true, true, false)
  const ROTATED_270 := Sym(true, false, true)
  const TRANSVERSED := Sym(true, true, true)

  function Width(s: Sym, w: nat, h: nat): nat { if s.swap then h else w }

  function Height(s: Sym, w: nat, h: nat): nat { if s.swap then w else h }

  /** Where the pixel at (x, y) goes. */
  function ToX(s: Sym, w: nat, h: nat, x: int, y: int): int {
    var x' := if s.swap then y else x;
    if s.flipX then Width(s, w, h) - 1 - x' else x'
  }

  function ToY(s: Sym, w: nat, h: nat, x: int, y: int): int {
    var y' := if s.swap then x else y;
    if s.flipY then Height(s, w, h) - 1 - y' else y'
  }

  /** Where the pixel at (x, y) of the result comes from. */
  function FromX(s: Sym, w: nat, h: nat, x: int, y: int): int {
    var x', y' := if s.flipX then Width(s, w, h) - 1 - x else x, if s.flipY then Height(s, w, h) - 1 - y else y;
    if s.swap then y' else x'
  }

  function FromY(s: Sym, w: nat, h: nat, x: int, y: int): int {
    var x', y' := if s.flipX then Width(s, w, h) - 1 - x else x, if s.flipY then Height(s, w, h) - 1 - y else y;
    if s.swap then x' else y'
  }

  function Row<C>(s: Sym, p: Pic<C>, y: nat): (r: seq<C>)
    requires Ok(p) && y < Height(s, p.w, p.h)
    ensures |r| == Width(s, p.w, p.h)
    ensures forall x :: 0 <= x < |r| ==> r[x] == p.rows[FromY(s, p.w, p.h, x, y)][FromX(s, p.w, p.h, x, y)]
  {
    seq(Width(s, p.w, p.h), x requires 0 <= x < Width(s, p.w, p.h) =>
      p.rows[FromY(s, p.w, p.h, x, y)][FromX(s, p.w, p.h, x, y)])
  }

  function Apply<C>(s: Sym, p: Pic<C>): (r: Pic<C>)
    requires Ok(p)
    ensures Ok(r)
  {
    Pic(Width(s, p.w, p.h), Height(s, p.w, p.h),
        seq(Height(s, p.w, p.h), y requires 0 <= y < Height(s, p.w, p.h) => Row(s, p, y)))
  }

  // ---------------------------------------------------------------------
  // The loops
  // ---------------------------------------------------------------------

  ghost predicate Shows<C>(a: array2<C>, p: Pic<C>)
    reads a
  {
    Ok(p) && a.Length0 == p.w && a.Length1 == p.h &&
    forall x, y :: 0 <= x < p.w && 0 <= y < p.h ==> a[x, y] == p.rows[y][x]
  }

  /** The pixels of the first rows and columns of img are where s sends them. */
  ghost predicate Sent<C>(s: Sym, img: array2<C>, dst: array2<C>, rows: nat, cols: nat)
    requires dst.Length0 == Width(s, img.Length0, img.Length1) && dst.Length1 == Height(s, img.Length0, img.Length1)
    reads img, dst
  {
    forall x, y :: 0 <= x < img.Length0 && 0 <= y < img.Length1 && (y < rows || (y == rows && x < cols)) ==>
      dst[ToX(s, img.Length0, img.Length1, x, y), ToY(s, img.Length0, img.Length1, x, y)] == img[x, y]
  }

  lemma AllSent<C>(s: Sym, img: array2<C>, dst: array2<C>, p: Pic<C>)
    requires Shows(img, p)
    requires dst.Length0 == Width(s, p.w, p.h) && dst.Length1 == Height(s, p.w, p.h)
    requires Sent(s, img, dst, p.h, 0)
    ensures Shows(dst, Apply(s, p))
  {
    var r := Apply(s, p);
    forall x, y | 0 <= x < r.w && 0 <= y < r.h
      ensures dst[x, y] == r.rows[y][x]
    {
      var x', y' := FromX(s, p.w, p.h, x, y), FromY(s, p.w, p.h, x, y);
      assert img[x', y'] == p.rows[y'][x'];
      assert ToX(s, p.w, p.h, x', y') == x && ToY(s, p.w, p.h, x', y') == y;
    }
  }

  method FlipH<C(0)>(img: array2<C>, ghost p: Pic<C>) returns (dst: array2<C>)
    requires Shows(img, p)
    ensures fresh(dst) && Shows(dst, Apply(FLIPPED_H, p))
  {
    var w, h := img.Length0, img.Length1;
    dst := new C[w, h];
    for y := 0 to h
      invariant Sent(FLIPPED_H, img, dst, y, 0) && Shows(img, p)
    {
      for x := 0 to w
        invariant Sent(FLIPPED_H, img, dst, y, x) && Shows(img, p)
      {
        dst[w - 1 - x, y] := img[x, y];
      }
    }
    AllSent(FLIPPED_H, img, dst, p);
  }

  method FlipV<C(0)>(img: array2<C>, ghost p: Pic<C>) returns (dst: array2<C>)
    requires Shows(img, p)
    ensures fresh(dst) && Shows(dst, Apply(FLIPPED_V, p))
  {
    var w, h := img.Length0, img.Length1;
    dst := new C[w, h];
    for y := 0 to h
      invariant Sent(FLIPPED_V, img, dst, y, 0) && Shows(img, p)
    {
      for x := 0 to w
        invariant Sent(FLIPPED_V, img, dst, y, x) && Shows(img, p)
      {
        dst[x, h - 1 - y] := img[x, y];
      }
    }
    AllSent(FLIPPED_V, img, dst, p);
  }

  method Rotate90<C(0)>(img: array2<C>, ghost p: Pic<C>) returns (dst: array2<C>)
    requires Shows(img, p)
    ensures fresh(dst) && Shows(dst, Apply(ROTATED_90, p))
  {
    var w, h := img.Length0, img.Length1;
    dst := new C[h, w];
    for y := 0 to h
      invariant Sent(ROTATED_90, img, dst, y, 0) && Shows(img, p)
    {
      for x := 0 to w
        invariant Sent(ROTATED_90, img, dst, y, x) && Shows(img, p)
      {
        dst[h - 1 - y, x] := img[x, y];
      }
    }
    AllSent(ROTATED_90, img, dst, p);
  }

  method Rotate180<C(0)>(img: array2<C>, ghost p: Pic<C>) returns (dst: array2<C>)
    requires Shows(img, p)
    ensures fresh(dst) && Shows(dst, Apply(ROTATED_180, p))
  {
    var w, h := img.Length0, img.Length1;
    dst := new C[w, h];
    for y := 0 to h
      invariant Sent(ROTATED_180, img, dst, y, 0) && Shows(img, p)
    {
      for x := 0 to w
        invariant Sent(ROTATED_180, img, dst, y, x) && Shows(img, p)
      {
        dst[w - 1 - x, h - 1 - y] := img[x, y];
      }
    }
    AllSent(ROTATED_180, img, dst, p);
  }

  method Rotate270<C(0)>(img: array2<C>, ghost p: Pic<C>) returns (dst: array2<C>)
    requires Shows(img, p)
    ensures fresh(dst) && Shows(dst, Apply(ROTATED_270, p))
  {
    var w, h := img.Length0, img.Length1;
    dst := new C[h, w];
    for y := 0 to h
      invariant Sent(ROTATED_270, img, dst, y, 0) && Shows(img, p)
    {
      for x := 0 to w
        invariant Sent(ROTATED_270, img, dst, y, x) && Shows(img, p)
      {
        dst[y, w - 1 - x] := img[x, y];
      }
    }
    AllSent(ROTATED_270, img, dst, p);
  }

  method Transpose<C(0)>(img: array2<C>, ghost p: Pic<C>) returns (dst: array2<C>)
    requires Shows(img, p)
    ensures fresh(dst) && Shows(dst, Apply(TRANSPOSED, p))
  {
    var w, h := img.Length0, img.Length1;
    dst := new C[h, w];
    for y := 0 to h
      invariant Sent(TRANSPOSED, img, dst, y, 0) && Shows(img, p)
    {
      for x := 0 to w
        invariant Sent(TRANSPOSED, img, dst, y, x) && Shows(img, p)
      {
        dst[y, x] := img[x, y];
      }
    }
    AllSent(TRANSPOSED, img, dst, p);
  }

  method Transverse<C(0)>(img: array2<C>, ghost p: Pic<C>) returns (dst: array2<C>)
    requires Shows(img, p)
    ensures fresh(dst) && Shows(dst, Apply(TRANSVERSED, p))
  {
    var w, h := img.Length0, img.Length1;
    dst := new C[h, w];
    for y := 0 to h
      invariant Sent(TRANSVERSED, img, dst, y, 0) && Shows(img, p)
    {
      for x := 0 to w
        invariant Sent(TRANSVERSED, img, dst, y, x) && Shows(img, p)
      {
        dst[h - 1 - y, w - 1 - x] := img[x, y];
      }
    }
    AllSent(TRANSVERSED, img, dst, p);
  }

  /** What an orientation asks for; other values ask for nothing. */
  function SymOf(orientation: int): Sym {
    match orientation
    case 2 => FLIPPED_H
    case 3 => ROTATED_180
    case 4 => FLIPPED_V
    case 5 => TRANSPOSED
    case 6 => ROTATED_90
    case 7 => TRANSVERSED
    case 8 => ROTATED_270
    case _ => SAME
  }

  method ApplyOrientation<C(0)>(img: array2<C>, orientation: int, ghost p: Pic<C>) returns (dst: array2<C>)
    requires Shows(img, p)
    ensures Shows(dst, Apply(SymOf(orientation), p))
  {
    match orientation
    case 2 => dst := FlipH(img, p);
    case 3 => dst := Rotate180(img, p);
    case 4 => dst := FlipV(img, p);
    case 5 => dst := Transpose(img, p);
    case 6 => dst := Rotate90(img, p);
    case 7 => dst := Transverse(img, p);
    case 8 => dst := Rotate270(img, p);
    case _ =>
      dst := img;
      ApplySame(p);
  }

  // ---------------------------------------------------------------------
  // The group
  // ---------------------------------------------------------------------

  /** The loops go over every source pixel once; each pixel of the result is the
      place of exactly one of them, so each is written exactly once. */
  lemma EachPixelOnce(s: Sym, w: nat, h: nat)
    ensures forall x, y :: 0 <= x < w && 0 <= y < h ==>
              var x', y' := ToX(s, w, h, x, y), ToY(s, w, h, x, y);
              0 <= x' < Width(s, w, h) && 0 <= y' < Height(s, w, h) &&
              FromX(s, w, h, x', y') == x && FromY(s, w, h, x', y') == y
    ensures forall x, y :: 0 <= x < Width(s, w, h) && 0 <= y < Height(s, w, h) ==>
              var x', y' := FromX(s, w, h, x, y), FromY(s, w, h, x, y);
              0 <= x' < w && 0 <= y' < h && ToX(s, w, h, x', y') == x && ToY(s, w, h, x', y') == y
  {}

  lemma SamePic<C>(p: Pic<C>, q: Pic<C>)
    requires Ok(p) && Ok(q) && p.w == q.w && p.h == q.h
    requires forall x, y :: 0 <= x < p.w && 0 <= y < p.h ==> p.rows[y][x] == q.rows[y][x]
    ensures p == q
  {
    forall y | 0 <= y < p.h
      ensures p.rows[y] == q.rows[y]
    {
      assert forall x :: 0 <= x < p.w ==> p.rows[y][x] == q.rows[y][x];
    }
  }

  lemma ApplySame<C>(p: Pic<C>)
    requires Ok(p)
    ensures Apply(SAME, p) == p
  {
    SamePic(Apply(SAME, p), p);
  }

  /** First s, then t. */
  function Then(s: Sym, t: Sym): Sym {
    Sym(s.swap != t.swap,
        t.flipX != (if t.swap then s.flipY else s.flipX),
        t.flipY != (if t.swap then s.flipX else s.flipY))
  }

  lemma FromTwice(s: Sym, t: Sym, w: nat, h: nat, x: int, y: int)
    ensures var w', h' := Width(s, w, h), Height(s, w, h); var st := Then(s, t);
            var x', y' := FromX(t, w', h', x, y), FromY(t, w', h', x, y);
            Width(t, w', h') == Width(st, w, h) && Height(t, w', h') == Height(st, w, h) &&
            FromX(s, w, h, x', y') == FromX(st, w, h, x, y) && FromY(s, w, h, x', y') == FromY(st, w, h, x, y)
  {}

  /** A pixel of the result is the pixel it comes from. */
  lemma PixelOf<C>(s: Sym, p: Pic<C>, x: int, y: int)
    requires Ok(p) && 0 <= x < Width(s, p.w, p.h) && 0 <= y < Height(s, p.w, p.h)
    ensures var x', y' := FromX(s, p.w, p.h, x, y), FromY(s, p.w, p.h, x, y);
            0 <= x' < p.w && 0 <= y' < p.h && Apply(s, p).rows[y][x] == p.rows[y'][x']
  {}

  /** Doing one after the other is doing their product, on pictures of any size. */
  lemma Composition<C>(s: Sym, t: Sym, p: Pic<C>)
    requires Ok(p)
    ensures Apply(t, Apply(s, p)) == Apply(Then(s, t), p)
  {
    var q := Apply(s, p);
    var r := Apply(t, q);
    FromTwice(s, t, p.w, p.h, 0, 0);
    forall x, y | 0 <= x < r.w && 0 <= y < r.h
      ensures r.rows[y][x] == Apply(Then(s, t), p).rows[y][x]
    {
      PixelOf(t, q, x, y);
      PixelOf(s, p, FromX(t, q.w, q.h, x, y), FromY(t, q.w, q.h, x, y));
      PixelOf(Then(s, t), p, x, y);
      FromTwice(s, t, p.w, p.h, x, y);
    }
    SamePic(r, Apply(Then(s, t), p));
  }

  function Inverse(s: Sym): Sym { if s == ROTATED_90 then ROTATED_270 else if s == ROTATED_270 then ROTATED_90 else s }

  /** The eight are a group, rotations by 270 and by 90 degrees undo each other and
      the others undo themselves. */
  lemma Group<C>(s: Sym, p: Pic<C>)
    requires Ok(p)
    ensures Apply(Inverse(s), Apply(s, p)) == p
  {
    Composition(s, Inverse(s), p);
    ApplySame(p);
  }

  lemma Identities<C>(p: Pic<C>)
    requires Ok(p)
    ensures Apply(ROTATED_90, p) == Apply(FLIPPED_H, Apply(TRANSPOSED, p))
    ensures Apply(ROTATED_90, Apply(ROTATED_90, p)) == Apply(ROTATED_180, p)
    ensures Apply(ROTATED_270, p) == Apply(ROTATED_90, Apply(ROTATED_180, p))
    ensures Apply(ROTATED_180, p) == Apply(FLIPPED_V, Apply(FLIPPED_H, p))
    ensures Apply(TRANSVERSED, p) == Apply(ROTATED_180, Apply(TRANSPOSED, p))
  {
    Composition(TRANSPOSED, FLIPPED_H, p);
    Composition(ROTATED_90, ROTATED_90, p);
    Composition(ROTATED_180, ROTATED_90, p);
    Composition(FLIPPED_H, FLIPPED_V, p);
    Composition(TRANSPOSED, ROTATED_180, p);
  }

  /** Every orientation is undone by another one. */
  lemma OrientationUndone<C>(orientation: int, p: Pic<C>)
    requires Ok(p)
    ensures var undo := if orientation == 6 then 8 else if orientation == 8 then 6 else orientation;
            Apply(SymOf(undo), Apply(SymOf(orientation), p)) == p
  {
    Group(SymOf(orientation), p);
  }

  ghost predicate AllDifferent<C(!new)>(p: Pic<C>)
    requires Ok(p)
  {
    forall x, y, x', y' ::
      0 <= x < p.w && 0 <= y < p.h && 0 <= x' < p.w && 0 <= y' < p.h && p.rows[y][x] == p.rows[y'][x'] ==>
        x == x' && y == y'
  }

  /** No two of the eight are the same: any picture of at least two by two different
      pixels tells them apart. */
  lemma Faithful<C(!new)>(s: Sym, t: Sym, p: Pic<C>)
    requires Ok(p) && AllDifferent(p) && p.w >= 2 && p.h >= 2 && Apply(s, p) == Apply(t, p)
    ensures s == t
  {
    var r, q := Apply(s, p), Apply(t, p);
    var w, h := p.w, p.h;
    assert r.rows[0][0] == q.rows[0][0] && r.rows[0][1] == q.rows[0][1];
    assert FromX(s, w, h, 0, 0) == FromX(t, w, h, 0, 0) && FromY(s, w, h, 0, 0) == FromY(t, w, h, 0, 0);
    assert FromX(s, w, h, 1, 0) == FromX(t, w, h, 1, 0) && FromY(s, w, h, 1, 0) == FromY(t, w, h, 1, 0);
  }

  // ---------------------------------------------------------------------
  // What the orientation values mean
  // ---------------------------------------------------------------------

  datatype Side = Top | Right | Bottom | Left

  /** Section 8 of TIFF 6.0, tag Orientation: where the 0th row of the stored image
      is to be seen, and where its 0th column. */
  function RowSide(orientation: int): Side
    requires 1 <= orientation <= 8
  {
    [Top, Top, Bottom, Bottom, Left, Right, Right, Left][orientation - 1]
  }

  function ColumnSide(orientation: int): Side
    requires 1 <= orientation <= 8
  {
    [Left, Right, Right, Left, Top, Top, Bottom, Bottom][orientation - 1]
  }

  predicate OnSide(w: nat, h: nat, x: int, y: int, side: Side) {
    match side
    case Top => y == 0
    case Bottom => y == h - 1
    case Left => x == 0
    case Right => x == w - 1
  }

  lemma SidesAsTagged(orientation: int, w: nat, h: nat, x: int, y: int)
    requires 1 <= orientation <= 8
    ensures var s := SymOf(orientation);
            var x', y', w', h' := ToX(s, w, h, x, y), ToY(s, w, h, x, y), Width(s, w, h), Height(s, w, h);
            (y == 0 ==> OnSide(w', h', x', y', RowSide(orientation))) &&
            (x == 0 ==> OnSide(w', h', x', y', ColumnSide(orientation)))
  {}

  predicate Within(p: Pic, x: int, y: int) { 0 <= x < p.w && 0 <= y < p.h }

  /** What is shown of a stored image has its pixels, the 0th row and the 0th column
      on the sides the standard says. Values outside 1 to 8 change nothing. */
  lemma ShownAsTagged<C>(orientation: int, p: Pic<C>, x: int, y: int)
    requires Ok(p) && Within(p, x, y)
    ensures var q := Apply(SymOf(orientation), p);
            if 1 <= orientation <= 8 then
              exists x', y' :: Within(q, x', y') && q.rows[y'][x'] == p.rows[y][x] &&
                (y == 0 ==> OnSide(q.w, q.h, x', y', RowSide(orientation))) &&
                (x == 0 ==> OnSide(q.w, q.h, x', y', ColumnSide(orientation)))
            else q == p
  {
    var s := SymOf(orientation);
    var q := Apply(s, p);
    if 1 <= orientation <= 8 {
      var x', y' := ToX(s, p.w, p.h, x, y), ToY(s, p.w, p.h, x, y);
      EachPixelOnce(s, p.w, p.h);
      PixelOf(s, p, x', y');
      assert Within(q, x', y') && q.rows[y'][x'] == p.rows[y][x];
      SidesAsTagged(orientation, p.w, p.h, x, y);
    } else {
      ApplySame(p);
    }
  }
}
