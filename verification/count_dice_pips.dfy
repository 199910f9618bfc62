/** The die-selection and pip-counting loop of CountDicePips.

    Each contour found in the thresholded image is reduced to the values the
    loop reads from it: the vertex count of its approximated polygon, its
    area, its centroid, the integer corners of its minimum-area rectangle and
    the number of pips the blob detector finds in its region. The drawing
    done on the image is modelled as the list of annotations it draws, in
    drawing order. */
module CountDice {
  import opened BoxGeometry
  import opened Decimal

  /** The line reported when the input image does not exist. */
  const MissingImageMessage := "No image file found"

  /** The smallest area (in pixels squared, exclusive) a die may have. */
  const MinDieArea: nat := 1000

  /** Abstract view of one external contour.
      `doubledArea` is twice the contour area: the area of a polygon with
      integer vertices is a multiple of one half, so twice it is a whole
      number. */
  datatype Contour = Contour(
    vertices: nat,
    doubledArea: nat,
    center: Point,
    box: seq<Point>,
    pips: nat)

  /** A drawing command on the output image: the outline of an accepted die,
      or a text label with its bottom-left position and stroke thickness. */
  datatype Annotation =
    | Outline(die: Contour)
    | Text(at: Point, text: string, thickness: nat)

  /** Result of one run: either no input image, or the annotations drawn,
      the reported total and the name the annotated image is written under. */
  datatype Outcome =
    | NoImageFound(diagnostic: string)
    | Annotated(annotations: seq<Annotation>, total: nat, outputName: string)

  /** A contour is a die when its polygon has four corners and its area
      exceeds the minimum. The test is made on the doubled area, which is
      the same as testing the area itself. */
  function IsDie(c: Contour): (r: bool)
    ensures r <==> c.vertices == 4 && (c.doubledArea as real) / 2.0 > MinDieArea as real
  {
    c.vertices == 4 && c.doubledArea > 2 * MinDieArea
  }

  /** Every die among `cs` carries the corners of its bounding rectangle. */
  predicate BoxedDice(cs: seq<Contour>)
  {
    forall k :: 0 <= k < |cs| && IsDie(cs[k]) ==> |cs[k].box| > 0
  }

  /** Every contour of `ds` carries the corners of its bounding rectangle. */
  predicate AllBoxed(ds: seq<Contour>)
  {
    forall k :: 0 <= k < |ds| ==> |ds[k].box| > 0
  }

  /** The dice among `cs`, in visiting order. */
  function Dice(cs: seq<Contour>): (r: seq<Contour>)
    ensures |r| <= |cs|
    ensures forall k :: 0 <= k < |r| ==> IsDie(r[k])
    ensures BoxedDice(cs) ==> AllBoxed(r)
  {
    if cs == [] then []
    else
      var init, last := cs[..|cs| - 1], cs[|cs| - 1];
      assert BoxedDice(cs) ==> BoxedDice(init);
      Dice(init) + (if IsDie(last) then [last] else [])
  }

  /** Total number of pips on a list of dice: at least the pips of each
      one, and zero only when none of them has a pip. */
  function PipSum(ds: seq<Contour>): (r: nat)
    ensures forall k :: 0 <= k < |ds| ==> ds[k].pips <= r
    ensures r == 0 <==> forall k :: 0 <= k < |ds| ==> ds[k].pips == 0
  {
    if ds == [] then 0 else PipSum(ds[..|ds| - 1]) + ds[|ds| - 1].pips
  }

  /** The label coordinate `int(c + s / 2)`: Python's true division
      followed by truncation toward zero. */
  function LabelCoord(c: int, s: int): (r: int)
    ensures 2 * c + s >= 0 ==> 2 * r <= 2 * c + s < 2 * r + 2
    ensures 2 * c + s < 0 ==> 2 * r - 2 < 2 * c + s <= 2 * r
  {
    var twice := 2 * c + s;
    if twice >= 0 then twice / 2 else -((-twice) / 2)
  }

  /** For a non-negative centre and size the label coordinate is
      `c + s div 2`. */
  lemma LabelCoordOfNonNegative(c: int, s: int)
    requires c >= 0 && s >= 0
    ensures LabelCoord(c, s) == c + s / 2
  {
  }

  /** Where a die's pip count is written: half its box size below and to
      the right of its centre. */
  function LabelLocation(d: Contour): (r: Point)
    requires |d.box| > 0
    ensures d.center.x >= 0 ==> r.x == d.center.x + ComputeBoxSize(d.box).width / 2
    ensures d.center.y >= 0 ==> r.y == d.center.y + ComputeBoxSize(d.box).height / 2
  {
    var size := ComputeBoxSize(d.box);
    Point(LabelCoord(d.center.x, size.width), LabelCoord(d.center.y, size.height))
  }

  /** The pip count of a die, written at its label location: a string of
      decimal digits that reads back as the count. */
  function DieLabel(d: Contour): (r: Annotation)
    requires |d.box| > 0
    ensures r.Text? && r.at == LabelLocation(d) && r.thickness == 3
    ensures forall k :: 0 <= k < |r.text| ==> IsDigit(r.text[k])
    ensures |r.text| > 0 && (r.text[0] == '0' ==> r.text == "0")
    ensures DigitsValue(r.text) == d.pips
  {
    DecimalRoundTrip(d.pips);
    Text(LabelLocation(d), DecimalString(d.pips), 3)
  }

  /** What is drawn for one die: its outline, then its pip count. */
  function DieAnnotation(d: Contour): seq<Annotation>
    requires |d.box| > 0
  {
    [Outline(d), DieLabel(d)]
  }

  /** What is drawn for a list of dice, in order: two commands per die. */
  function DieAnnotations(ds: seq<Contour>): (r: seq<Annotation>)
    requires AllBoxed(ds)
    ensures |r| == 2 * |ds|
  {
    if ds == [] then []
    else
      DieAnnotations(ds[..|ds| - 1]) + DieAnnotation(ds[|ds| - 1])
  }

  /** The total label drawn in the top-left corner: `Sum: ` followed by
      digits that read back as the total. */
  function SumAnnotation(total: nat): (r: Annotation)
    ensures r.Text? && r.at == Point(25, 50) && r.thickness == 4
    ensures |r.text| > 5 && r.text[..5] == "Sum: "
    ensures forall k :: 5 <= k < |r.text| ==> IsDigit(r.text[k])
    ensures r.text[5] == '0' ==> r.text == "Sum: 0"
    ensures DigitsValue(r.text[5..]) == total
  {
    DecimalRoundTrip(total);
    var digits := DecimalString(total);
    assert ("Sum: " + digits)[5..] == digits;
    assert ("Sum: " + digits)[5] == digits[0];
    Text(Point(25, 50), "Sum: " + digits, 4)
  }

  /** The name the annotated image is written under. */
  function OutputName(image: string): (r: string)
    ensures |r| == |image| + 7
    ensures r[..7] == "output_" && r[7..] == image
  {
    "output_" + image
  }

  /** Different images never share an output name. */
  lemma OutputNameInjective(a: string, b: string)
    requires OutputName(a) == OutputName(b)
    ensures a == b
  {
    assert a == OutputName(a)[7..];
  }

  /** Contours ordered by decreasing area. */
  predicate SortedByArea(cs: seq<Contour>)
  {
    forall i, j :: 0 <= i < j < |cs| ==> cs[i].doubledArea >= cs[j].doubledArea
  }

  /** Inserts `c` before the first contour whose area is not larger. */
  function InsertByArea(c: Contour, cs: seq<Contour>): (r: seq<Contour>)
    requires SortedByArea(cs)
    ensures |r| == |cs| + 1
    ensures multiset(r) == multiset(cs) + multiset{c}
  {
    if cs == [] || c.doubledArea >= cs[0].doubledArea then [c] + cs
    else
      assert cs == [cs[0]] + cs[1..];
      [cs[0]] + InsertByArea(c, cs[1..])
  }

  /** `sorted(contours, key=cv2.contourArea, reverse=True)`. */
  function SortByArea(cs: seq<Contour>): (r: seq<Contour>)
    ensures |r| == |cs|
    ensures multiset(r) == multiset(cs)
    ensures SortedByArea(r)
  {
    if cs == [] then []
    else
      assert cs == [cs[0]] + cs[1..];
      var rest := SortByArea(cs[1..]);
      InsertKeepsSorted(cs[0], rest);
      InsertByArea(cs[0], rest)
  }

  /** No contour of `cs` has an area above `bound`. */
  predicate AreaAtMost(cs: seq<Contour>, bound: nat)
  {
    forall k :: 0 <= k < |cs| ==> cs[k].doubledArea <= bound
  }

  lemma {:induction false} InsertKeepsBound(c: Contour, cs: seq<Contour>, bound: nat)
    requires SortedByArea(cs)
    requires AreaAtMost(cs, bound) && c.doubledArea <= bound
    ensures AreaAtMost(InsertByArea(c, cs), bound)
  {
    if !(cs == [] || c.doubledArea >= cs[0].doubledArea) {
      InsertKeepsBound(c, cs[1..], bound);
    }
  }

  lemma {:induction false} InsertKeepsSorted(c: Contour, cs: seq<Contour>)
    requires SortedByArea(cs)
    ensures SortedByArea(InsertByArea(c, cs))
  {
    if !(cs == [] || c.doubledArea >= cs[0].doubledArea) {
      var rest := InsertByArea(c, cs[1..]);
      InsertKeepsSorted(c, cs[1..]);
      InsertKeepsBound(c, cs[1..], cs[0].doubledArea);
      var r := [cs[0]] + rest;
      forall i, j | 0 <= i < j < |r| ensures r[i].doubledArea >= r[j].doubledArea {
        if i > 0 {
          assert r[i] == rest[i - 1] && r[j] == rest[j - 1];
        } else {
          assert r[j] == rest[j - 1];
        }
      }
    }
  }

  // ---------------------------------------------------------------------------
  // Properties of the selection and of the running total

  /** A contour occurs among the dice exactly as often as among all contours
      when it is a die, and not at all otherwise. */
  lemma {:induction false} DiceCount(cs: seq<Contour>, c: Contour)
    ensures multiset(Dice(cs))[c] == if IsDie(c) then multiset(cs)[c] else 0
  {
    if cs != [] {
      var init, last := cs[..|cs| - 1], cs[|cs| - 1];
      DiceCount(init, c);
      assert cs == init + [last];
    }
  }

  /** A contour is among the dice exactly when it is one of the contours
      and is a die: every other contour is skipped. */
  lemma DiceMembers(cs: seq<Contour>, c: Contour)
    ensures c in Dice(cs) <==> c in cs && IsDie(c)
  {
    DiceCount(cs, c);
    assert c in Dice(cs) <==> multiset(Dice(cs))[c] > 0;
    assert c in cs <==> multiset(cs)[c] > 0;
  }

  /** Reordering the contours reorders the dice and nothing else. */
  lemma DiceOfPermutation(a: seq<Contour>, b: seq<Contour>)
    requires multiset(a) == multiset(b)
    ensures multiset(Dice(a)) == multiset(Dice(b))
  {
    forall c ensures multiset(Dice(a))[c] == multiset(Dice(b))[c] {
      DiceCount(a, c);
      DiceCount(b, c);
    }
  }

  /** Visiting two runs of contours one after the other accepts the dice of
      the first run, then those of the second: the visiting order is kept. */
  lemma {:induction false} DiceAppend(a: seq<Contour>, b: seq<Contour>)
    ensures Dice(a + b) == Dice(a) + Dice(b)
    decreases |b|
  {
    if b == [] {
      assert a + b == a;
    } else {
      var init, last := b[..|b| - 1], b[|b| - 1];
      DiceAppend(a, init);
      assert (a + b)[..|a + b| - 1] == a + init;
    }
  }

  lemma {:induction false} PipSumAppend(a: seq<Contour>, b: seq<Contour>)
    ensures PipSum(a + b) == PipSum(a) + PipSum(b)
    decreases |b|
  {
    if b == [] {
      assert a + b == a;
    } else {
      var init := b[..|b| - 1];
      PipSumAppend(a, init);
      assert (a + b)[..|a + b| - 1] == a + init;
    }
  }

  /** The total does not depend on the order the dice are visited in. */
  lemma {:induction false} PipSumOfPermutation(a: seq<Contour>, b: seq<Contour>)
    requires multiset(a) == multiset(b)
    ensures PipSum(a) == PipSum(b)
    decreases |a|
  {
    if a != [] {
      var init, last := a[..|a| - 1], a[|a| - 1];
      assert a == init + [last];
      assert last in multiset(b);
      var k :| 0 <= k < |b| && b[k] == last;
      var rest := b[..k] + b[k + 1..];
      assert b == b[..k] + [last] + b[k + 1..];
      assert multiset(b) == multiset(rest) + multiset{last};
      assert multiset(a) == multiset(init) + multiset{last};
      assert multiset(rest) == multiset(b) - multiset{last};
      assert multiset(init) == multiset(a) - multiset{last};
      PipSumOfPermutation(init, rest);
      PipSumAppend(b[..k] + [last], b[k + 1..]);
      PipSumAppend(b[..k], [last]);
      PipSumAppend(b[..k], b[k + 1..]);
      assert [last][..0] == [];
    }
  }

  /** The total over all contours is the total over the dice among them,
      whatever order the contours are visited in. */
  lemma TotalIgnoresOrder(a: seq<Contour>, b: seq<Contour>)
    requires multiset(a) == multiset(b)
    ensures PipSum(Dice(a)) == PipSum(Dice(b))
  {
    DiceOfPermutation(a, b);
    PipSumOfPermutation(Dice(a), Dice(b));
  }

  /** Only dice contribute to the total: a contour that is not a die can be
      added anywhere without changing it, and a die adds its pips. */
  lemma TotalOfAppend(cs: seq<Contour>, c: Contour)
    ensures PipSum(Dice(cs + [c])) == PipSum(Dice(cs)) + if IsDie(c) then c.pips else 0
  {
    assert (cs + [c])[..|cs|] == cs;
    PipSumAppend(Dice(cs), if IsDie(c) then [c] else []);
  }

  /** Per-die annotations: exactly two per die, in order, the second being
      its pip count written in decimal at its label location. */
  lemma {:induction false} DieAnnotationsAt(ds: seq<Contour>, k: nat)
    requires AllBoxed(ds)
    requires k < |ds|
    ensures DieAnnotations(ds)[2 * k] == Outline(ds[k])
    ensures DieAnnotations(ds)[2 * k + 1] == DieLabel(ds[k])
    decreases |ds|
  {
    var init := ds[..|ds| - 1];
    assert AllBoxed(init);
    var prev, last := DieAnnotations(init), DieAnnotation(ds[|ds| - 1]);
    assert DieAnnotations(ds) == prev + last;
    var all := prev + last;
    if k < |init| {
      DieAnnotationsAt(init, k);
      assert ds[k] == init[k];
      assert all[2 * k] == prev[2 * k] && all[2 * k + 1] == prev[2 * k + 1];
    } else {
      assert k == |ds| - 1 && 2 * k == |prev|;
      assert all[2 * k] == last[0] && all[2 * k + 1] == last[1];
    }
  }

  /** Sorting keeps every die boxed. */
  lemma SortKeepsBoxes(cs: seq<Contour>)
    requires BoxedDice(cs)
    ensures BoxedDice(SortByArea(cs))
  {
    var sorted := SortByArea(cs);
    forall k | 0 <= k < |sorted| && IsDie(sorted[k]) ensures |sorted[k].box| > 0 {
      assert sorted[k] in multiset(sorted);
      assert sorted[k] in multiset(cs);
      var j :| 0 <= j < |cs| && cs[j] == sorted[k];
    }
  }

  /** Visiting one more contour adds it to the dice exactly when it is one. */
  lemma VisitStep(cs: seq<Contour>, i: nat)
    requires i < |cs|
    ensures IsDie(cs[i]) ==> Dice(cs[..i + 1]) == Dice(cs[..i]) + [cs[i]]
    ensures !IsDie(cs[i]) ==> Dice(cs[..i + 1]) == Dice(cs[..i])
  {
    assert cs[..i + 1][..i] == cs[..i];
    if !IsDie(cs[i]) {
      assert Dice(cs[..i]) + [] == Dice(cs[..i]);
    }
  }

  /** One more die adds its annotations and its pips. */
  lemma AppendDie(ds: seq<Contour>, d: Contour)
    requires AllBoxed(ds) && |d.box| > 0
    ensures AllBoxed(ds + [d])
    ensures DieAnnotations(ds + [d]) == DieAnnotations(ds) + DieAnnotation(d)
    ensures PipSum(ds + [d]) == PipSum(ds) + d.pips
  {
    assert (ds + [d])[..|ds|] == ds;
  }

  // ---------------------------------------------------------------------------
  // The pipeline

  /** The `for c in cnts` loop: each die gets its outline and pip count
      drawn, and its pips added to the running total `sum_dots`. */
  method VisitContours(cnts: seq<Contour>) returns (drawn: seq<Annotation>, sumDots: nat)
    requires BoxedDice(cnts)
    ensures AllBoxed(Dice(cnts))
    ensures drawn == DieAnnotations(Dice(cnts))
    ensures sumDots == PipSum(Dice(cnts))
  {
    drawn, sumDots := [], 0;
    ghost var dice: seq<Contour> := [];
    var i := 0;
    assert cnts[..i] == [];
    while i < |cnts|
      invariant 0 <= i <= |cnts|
      invariant dice == Dice(cnts[..i])
      invariant AllBoxed(dice)
      invariant drawn == DieAnnotations(dice)
      invariant sumDots == PipSum(dice)
    {
      var c := cnts[i];
      VisitStep(cnts, i);
      if c.vertices == 4 && c.doubledArea > 2 * MinDieArea {
        var location := LabelLocation(c);
        drawn := drawn + [Outline(c), Text(location, DecimalString(c.pips), 3)];
        sumDots := sumDots + c.pips;
        AppendDie(dice, c);
        dice := dice + [c];
      }
      i := i + 1;
    }
    assert cnts[..i] == cnts;
  }

  /** One run over an image. `imageFound` stands for the file-existence
      check, and `contours` for the external contours extracted from the
      thresholded image. Contours are visited largest first; the total is
      finally drawn at the top-left corner. */
  method CountDicePips(imageFound: bool, contours: seq<Contour>, image: string)
    returns (r: Outcome)
    requires BoxedDice(contours)
    ensures !imageFound ==> r == NoImageFound(MissingImageMessage)
    ensures imageFound ==> r.Annotated?
    ensures imageFound ==> r.total == PipSum(Dice(contours))
    ensures imageFound ==> r.outputName == OutputName(image)
    ensures imageFound ==> (BoxedDice(SortByArea(contours)) &&
      r.annotations == DieAnnotations(Dice(SortByArea(contours))) + [SumAnnotation(r.total)])
    ensures imageFound && Dice(contours) == [] ==>
      r.total == 0 && r.annotations == [Text(Point(25, 50), "Sum: 0", 4)]
  {
    if !imageFound {
      return NoImageFound(MissingImageMessage);
    }
    var cnts := SortByArea(contours);
    SortKeepsBoxes(contours);
    var drawn, sumDots := VisitContours(cnts);
    TotalIgnoresOrder(cnts, contours);
    var text := "Sum: " + DecimalString(sumDots);
    assert Text(Point(25, 50), text, 4) == SumAnnotation(sumDots);
    drawn := drawn + [Text(Point(25, 50), text, 4)];
    if Dice(contours) == [] {
      DiceOfPermutation(cnts, contours);
      assert Dice(cnts) == [];
      assert text == "Sum: 0";
    }
    r := Annotated(drawn, sumDots, "output_" + image);
  }
}
