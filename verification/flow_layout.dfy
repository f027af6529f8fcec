/**
 `FlowLayout._do_layout` of the projects page (kaya/ui/projects_page.py):
 items are placed left to right and wrap to a new row when the next one
 would pass the right edge of the content area, provided the current row
 already has some height. Widgets are replaced by their size hints and
 the placement is returned instead of applied.
 */
module FlowLayout {

  datatype Rect = Rect(x: int, y: int, w: int, h: int)
  datatype Margins = Margins(left: int, top: int, right: int, bottom: int)
  datatype Size = Size(w: int, h: int)
  datatype Point = Point(x: int, y: int)

  /** The content area: where rows start, where the first row is, and the
      last usable column, `rect.right() - margins.right()` with
      `QRect.right()` being `x + width - 1`. */
  datatype Area = Area(left: int, top: int, right: int)

  function AreaOf(r: Rect, m: Margins): Area {
    Area(r.x + m.left, r.y + m.top, r.x + r.w - 1 - m.right)
  }

  /** The loop's variables `x`, `y` and `line_height`. */
  datatype Cursor = Cursor(x: int, y: int, lh: int)

  /** Whether the item of size `s` starts a new row. */
  predicate Wraps(c: Cursor, s: Size, a: Area) {
    c.x + s.w > a.right && c.lh > 0
  }

  /** Where the item of size `s` is placed. */
  function At(c: Cursor, s: Size, a: Area, vs: int): Point {
    if Wraps(c, s, a) then Point(a.left, c.y + c.lh + vs) else Point(c.x, c.y)
  }

  /** The loop variables after placing the item. */
  function Advance(c: Cursor, s: Size, a: Area, hs: int, vs: int): Cursor {
    var p := At(c, s, a, vs);
    var lh := if Wraps(c, s, a) then 0 else c.lh;
    Cursor(p.x + s.w + hs, p.y, if lh < s.h then s.h else lh)
  }

  /** The spot right after an item in the same row. */
  function Beside(p: Point, s: Size, hs: int): Point {
    Point(p.x + s.w + hs, p.y)
  }

  /** How an item at `q` of size `t` relates to its predecessor at `p` of
      size `s`: right beside it, or at the start of a lower row below it;
      beside it whenever it fits; at the start of a row whenever it does
      not fit and the predecessor has height. */
  predicate Link(p: Point, s: Size, q: Point, t: Size, a: Area, hs: int, vs: int) {
    && (q == Beside(p, s, hs) || (q.x == a.left && q.y > p.y + vs && q.y >= p.y + s.h + vs))
    && (p.x + s.w + hs + t.w <= a.right ==> q == Beside(p, s, hs))
    && (p.x + s.w + hs + t.w > a.right && s.h > 0 ==> q.x == a.left)
  }

  predicate Linked(pos: seq<Point>, sizes: seq<Size>, a: Area, hs: int, vs: int)
    requires |pos| <= |sizes|
  {
    forall j :: 0 < j < |pos| ==> Link(pos[j - 1], sizes[j - 1], pos[j], sizes[j], a, hs, vs)
  }

  /** `_do_layout(rect, test_only)`: the position of each item and the
      returned height. With `test_only` the same positions are computed
      and only not applied. */
  method DoLayout(r: Rect, m: Margins, hs: int, vs: int, sizes: seq<Size>) returns (pos: seq<Point>, height: int)
    ensures |pos| == |sizes|
    ensures sizes == [] ==> height == m.top
    ensures sizes != [] ==> pos[0] == Point(r.x + m.left, r.y + m.top)
    ensures Linked(pos, sizes, AreaOf(r, m), hs, vs)
    // with non-negative spacing every item lies within the returned height
    ensures vs >= 0 ==> forall k :: 0 <= k < |pos| ==> pos[k].y + sizes[k].h <= r.y + height
    // and, with non-negative heights, some item reaches it
    ensures sizes != [] && (forall k :: 0 <= k < |sizes| ==> sizes[k].h >= 0) ==>
      exists k :: 0 <= k < |pos| && pos[k].y + sizes[k].h == r.y + height
  {
    var a := AreaOf(r, m);
    var c := Cursor(a.left, a.top, 0);
    pos := [];
    ghost var rowStart := 0;
    var k := 0;
    while k < |sizes|
      invariant k <= |sizes|
      invariant RowOk(pos, sizes, k, rowStart, c, vs)
      invariant k == 0 ==> c == Cursor(a.left, a.top, 0)
      invariant k > 0 ==> pos[0] == Point(a.left, a.top) && c.x == pos[k - 1].x + sizes[k - 1].w + hs
      invariant Linked(pos, sizes, a, hs, vs)
    {
      var q := At(c, sizes[k], a, vs);
      if k > 0 {
        NewLink(pos[k - 1], sizes[k - 1], c, sizes[k], a, hs, vs);
      }
      LinkedExtend(pos, sizes, q, a, hs, vs);
      ghost var rs := if Wraps(c, sizes[k], a) then k else rowStart;
      RowStep(pos, sizes, k, rowStart, c, a, hs, vs);
      pos := pos + [q];
      c := Advance(c, sizes[k], a, hs, vs);
      rowStart := rs;
      k := k + 1;
    }
    height := c.y + c.lh - r.y;
    Finish(pos, sizes, rowStart, c, vs);
  }

  /** What the loop keeps about the current row: its items share the
      cursor's row, `line_height` is the tallest of them (or 0), and every
      earlier row ends at least `vs` above it. */
  ghost predicate RowOk(pos: seq<Point>, sizes: seq<Size>, k: int, rs: int, c: Cursor, vs: int) {
    && 0 <= rs <= k <= |sizes| && |pos| == k
    && (k > 0 ==> rs < k)
    && (forall j :: rs <= j < k ==> pos[j].y == c.y)
    && c.lh >= 0
    && (forall j :: rs <= j < k ==> sizes[j].h <= c.lh)
    && (c.lh == 0 || exists j :: rs <= j < k && sizes[j].h == c.lh)
    && (vs >= 0 ==> forall j :: 0 <= j < rs ==> pos[j].y + sizes[j].h + vs <= c.y)
  }

  lemma NewLink(p: Point, s: Size, c: Cursor, t: Size, a: Area, hs: int, vs: int)
    requires c.x == p.x + s.w + hs && c.y == p.y && c.lh >= 0 && s.h <= c.lh
    ensures Link(p, s, At(c, t, a, vs), t, a, hs, vs)
  {
  }

  lemma LinkedExtend(pos: seq<Point>, sizes: seq<Size>, q: Point, a: Area, hs: int, vs: int)
    requires |pos| < |sizes| && Linked(pos, sizes, a, hs, vs)
    requires pos != [] ==> Link(pos[|pos| - 1], sizes[|pos| - 1], q, sizes[|pos|], a, hs, vs)
    ensures Linked(pos + [q], sizes, a, hs, vs)
  {
    var pos' := pos + [q];
    forall j | 0 < j < |pos'|
      ensures Link(pos'[j - 1], sizes[j - 1], pos'[j], sizes[j], a, hs, vs)
    {
      if j < |pos| {
        assert pos'[j - 1] == pos[j - 1] && pos'[j] == pos[j];
      }
    }
  }

  lemma RowStep(pos: seq<Point>, sizes: seq<Size>, k: int, rs: int, c: Cursor, a: Area, hs: int, vs: int)
    requires k < |sizes| && RowOk(pos, sizes, k, rs, c, vs)
    ensures var w := Wraps(c, sizes[k], a);
      RowOk(pos + [At(c, sizes[k], a, vs)], sizes, k + 1, if w then k else rs,
            Advance(c, sizes[k], a, hs, vs), vs)
  {
    var s := sizes[k];
    var q := At(c, s, a, vs);
    var pos' := pos + [q];
    var c' := Advance(c, s, a, hs, vs);
    if Wraps(c, s, a) {
      assert forall j :: rs <= j < k ==> pos[j].y + sizes[j].h <= c.y + c.lh;
      if vs >= 0 {
        forall j | 0 <= j < k
          ensures pos'[j].y + sizes[j].h + vs <= c'.y
        {
          assert pos'[j] == pos[j];
        }
      }
      assert sizes[k].h <= c'.lh;
      assert c'.lh == 0 || sizes[k].h == c'.lh;
    } else {
      assert forall j :: 0 <= j < k ==> pos'[j] == pos[j];
      if c'.lh != c.lh {
        assert sizes[k].h == c'.lh;
      } else if c.lh != 0 {
        var j :| rs <= j < k && sizes[j].h == c.lh;
        assert sizes[j].h == c'.lh;
      }
    }
  }

  lemma Finish(pos: seq<Point>, sizes: seq<Size>, rs: int, c: Cursor, vs: int)
    requires RowOk(pos, sizes, |sizes|, rs, c, vs)
    ensures vs >= 0 ==> forall k :: 0 <= k < |pos| ==> pos[k].y + sizes[k].h <= c.y + c.lh
    ensures sizes != [] && (forall k :: 0 <= k < |sizes| ==> sizes[k].h >= 0) ==>
      exists k :: 0 <= k < |pos| && pos[k].y + sizes[k].h == c.y + c.lh
  {
    if sizes != [] && (forall k :: 0 <= k < |sizes| ==> sizes[k].h >= 0) {
      if c.lh == 0 {
        assert pos[rs].y + sizes[rs].h == c.y + c.lh;
      } else {
        var j :| rs <= j < |sizes| && sizes[j].h == c.lh;
        assert pos[j].y + sizes[j].h == c.y + c.lh;
      }
    }
  }
}
