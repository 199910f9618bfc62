/** Integer box geometry used to size a die's region of interest:
    the corner points of a die's bounding rectangle and the width and
    height of their axis-aligned extent (ComputeBoxSize). */
module BoxGeometry {

  /** A pixel position; the corners produced for a die are integers. */
  datatype Point = Point(x: int, y: int)

  /** The (width, height) pair returned by ComputeBoxSize. */
  datatype Size = Size(width: int, height: int)

  /** The x coordinates of the points, in order (the `Xs` list comprehension).
      The contract gives them index by index, which is the form the proofs
      about the box size use. */
  function Xs(box: seq<Point>): (r: seq<int>)
    ensures |r| == |box|
    ensures forall k :: 0 <= k < |box| ==> r[k] == box[k].x
  {
    seq(|box|, k requires 0 <= k < |box| => box[k].x)
  }

  /** The y coordinates of the points, in order (the `Ys` list comprehension),
      index by index as for `Xs`. */
  function Ys(box: seq<Point>): (r: seq<int>)
    ensures |r| == |box|
    ensures forall k :: 0 <= k < |box| ==> r[k] == box[k].y
  {
    seq(|box|, k requires 0 <= k < |box| => box[k].y)
  }

  /** Python's `min` on a non-empty list: an element no larger than any other. */
  function Min(s: seq<int>): (m: int)
    requires |s| > 0
    ensures m in s
    ensures forall k :: 0 <= k < |s| ==> m <= s[k]
  {
    if |s| == 1 then s[0]
    else
      var rest := Min(s[1..]);
      if s[0] <= rest then s[0] else rest
  }

  /** Python's `max` on a non-empty list: an element no smaller than any other. */
  function Max(s: seq<int>): (m: int)
    requires |s| > 0
    ensures m in s
    ensures forall k :: 0 <= k < |s| ==> s[k] <= m
  {
    if |s| == 1 then s[0]
    else
      var rest := Max(s[1..]);
      if rest <= s[0] then s[0] else rest
  }

  /** `w` is the spread of `vals`: the difference between an element that
      bounds all others from above and one that bounds them from below. */
  ghost predicate Spread(vals: seq<int>, w: int)
  {
    exists i, j :: 0 <= i < |vals| && 0 <= j < |vals| && w == vals[j] - vals[i] &&
      Between(vals, vals[i], vals[j])
  }

  /** Every element of `vals` lies in the closed interval `[lo, hi]`. */
  ghost predicate Between(vals: seq<int>, lo: int, hi: int)
  {
    forall k :: 0 <= k < |vals| ==> lo <= vals[k] <= hi
  }

  /** Width and height of the axis-aligned extent of the box corners. */
  function ComputeBoxSize(box: seq<Point>): (r: Size)
    requires |box| > 0
    ensures r.width >= 0 && r.height >= 0
    ensures Spread(Xs(box), r.width) && Spread(Ys(box), r.height)
  {
    var x1 := Min(Xs(box));
    var x2 := Max(Xs(box));
    var y1 := Min(Ys(box));
    var y2 := Max(Ys(box));
    SpreadOfMinMax(Xs(box));
    SpreadOfMinMax(Ys(box));
    Size(x2 - x1, y2 - y1)
  }

  lemma SpreadOfMinMax(vals: seq<int>)
    requires |vals| > 0
    ensures Spread(vals, Max(vals) - Min(vals))
  {
    var lo, hi := Min(vals), Max(vals);
    var i :| 0 <= i < |vals| && vals[i] == lo;
    var j :| 0 <= j < |vals| && vals[j] == hi;
    assert Between(vals, lo, hi);
    assert hi - lo == vals[j] - vals[i];
  }

  /** The spread of a sequence is unique: it is always maximum minus minimum. */
  lemma SpreadIsUnique(vals: seq<int>, w: int)
    requires Spread(vals, w)
    ensures |vals| > 0 && w == Max(vals) - Min(vals)
  {
    var i, j :| 0 <= i < |vals| && 0 <= j < |vals| && w == vals[j] - vals[i] &&
      Between(vals, vals[i], vals[j]);
    MinIsUnique(vals, vals[i]);
    MaxIsUnique(vals, vals[j]);
  }

  lemma MinIsUnique(s: seq<int>, m: int)
    requires m in s && forall k :: 0 <= k < |s| ==> m <= s[k]
    ensures Min(s) == m
  {
  }

  lemma MaxIsUnique(s: seq<int>, m: int)
    requires m in s && forall k :: 0 <= k < |s| ==> s[k] <= m
    ensures Max(s) == m
  {
  }

  /** Two lists holding the same values have the same minimum and maximum. */
  lemma SameValuesSameBounds(s: seq<int>, t: seq<int>)
    requires |s| > 0
    requires forall v :: v in s <==> v in t
    ensures |t| > 0 && Min(s) == Min(t) && Max(s) == Max(t)
  {
    assert Min(s) in t;
    assert Max(s) in t;
    forall k | 0 <= k < |t| ensures Min(s) <= t[k] <= Max(s) {
      assert t[k] in t;
      var j :| 0 <= j < |s| && s[j] == t[k];
      assert Min(s) <= s[j] <= Max(s);
    }
    MinIsUnique(t, Min(s));
    MaxIsUnique(t, Max(s));
  }

  /** ComputeBoxSize depends only on the points, not on the order they come in. */
  lemma BoxSizeIgnoresOrder(a: seq<Point>, b: seq<Point>)
    requires |a| > 0
    requires multiset(a) == multiset(b)
    ensures |b| > 0 && ComputeBoxSize(b) == ComputeBoxSize(a)
  {
    assert forall v :: v in Xs(a) <==> v in Xs(b) by {
      forall v ensures v in Xs(a) ==> v in Xs(b) {
        if v in Xs(a) {
          var k :| 0 <= k < |a| && Xs(a)[k] == v;
          assert a[k] in multiset(a);
          var l :| 0 <= l < |b| && b[l] == a[k];
          assert Xs(b)[l] == v;
        }
      }
      forall v ensures v in Xs(b) ==> v in Xs(a) {
        if v in Xs(b) {
          var k :| 0 <= k < |b| && Xs(b)[k] == v;
          assert b[k] in multiset(b);
          var l :| 0 <= l < |a| && a[l] == b[k];
          assert Xs(a)[l] == v;
        }
      }
    }
    assert forall v :: v in Ys(a) <==> v in Ys(b) by {
      forall v ensures v in Ys(a) ==> v in Ys(b) {
        if v in Ys(a) {
          var k :| 0 <= k < |a| && Ys(a)[k] == v;
          assert a[k] in multiset(a);
          var l :| 0 <= l < |b| && b[l] == a[k];
          assert Ys(b)[l] == v;
        }
      }
      forall v ensures v in Ys(b) ==> v in Ys(a) {
        if v in Ys(b) {
          var k :| 0 <= k < |b| && Ys(b)[k] == v;
          assert b[k] in multiset(b);
          var l :| 0 <= l < |a| && a[l] == b[k];
          assert Ys(a)[l] == v;
        }
      }
    }
    SameValuesSameBounds(Xs(a), Xs(b));
    SameValuesSameBounds(Ys(a), Ys(b));
  }

  /** Every point moved by the same offset, index by index as for `Xs`. */
  function Translate(box: seq<Point>, dx: int, dy: int): (r: seq<Point>)
    ensures |r| == |box|
    ensures forall k :: 0 <= k < |box| ==> r[k] == Point(box[k].x + dx, box[k].y + dy)
  {
    seq(|box|, k requires 0 <= k < |box| => Point(box[k].x + dx, box[k].y + dy))
  }

  /** Shifting a list by `d` shifts its minimum by `d`. */
  lemma ShiftedMin(s: seq<int>, t: seq<int>, d: int)
    requires |s| > 0 && |t| == |s|
    requires forall k :: 0 <= k < |s| ==> t[k] == s[k] + d
    ensures Min(t) == Min(s) + d
  {
    var lo := Min(s);
    var i :| 0 <= i < |s| && s[i] == lo;
    assert t[i] == lo + d;
    forall k | 0 <= k < |t| ensures lo + d <= t[k] {
      assert lo <= s[k];
    }
    MinIsUnique(t, lo + d);
  }

  /** Shifting a list by `d` shifts its maximum by `d`. */
  lemma ShiftedMax(s: seq<int>, t: seq<int>, d: int)
    requires |s| > 0 && |t| == |s|
    requires forall k :: 0 <= k < |s| ==> t[k] == s[k] + d
    ensures Max(t) == Max(s) + d
  {
    var hi := Max(s);
    var j :| 0 <= j < |s| && s[j] == hi;
    assert t[j] == hi + d;
    forall k | 0 <= k < |t| ensures t[k] <= hi + d {
      assert s[k] <= hi;
    }
    MaxIsUnique(t, hi + d);
  }

  /** ComputeBoxSize is unchanged when all points move by the same offset. */
  lemma BoxSizeIgnoresTranslation(box: seq<Point>, dx: int, dy: int)
    requires |box| > 0
    ensures ComputeBoxSize(Translate(box, dx, dy)) == ComputeBoxSize(box)
  {
    var moved := Translate(box, dx, dy);
    assert forall k :: 0 <= k < |box| ==> Xs(moved)[k] == Xs(box)[k] + dx;
    assert forall k :: 0 <= k < |box| ==> Ys(moved)[k] == Ys(box)[k] + dy;
    ShiftedMin(Xs(box), Xs(moved), dx);
    ShiftedMax(Xs(box), Xs(moved), dx);
    ShiftedMin(Ys(box), Ys(moved), dy);
    ShiftedMax(Ys(box), Ys(moved), dy);
  }
}
