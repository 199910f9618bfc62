# Counting dice pips — a Dafny model

`CountDicePips` reads an image of dice and finds the external contours of its
thresholded greyscale version. It visits those contours from the largest area
to the smallest. A contour counts as a die when its approximated polygon has
exactly four corners and its area exceeds 1000 square pixels. For each die the
script:

- draws the die's outline;
- cuts out a region of interest sized by `ComputeBoxSize` of the die's
  rotated bounding-box corners;
- counts the round blobs (pips) in that region;
- writes the count next to the die;
- adds the count to a running total.

The total is drawn as `Sum: <total>` at (25, 50). The annotated image is
written as `output_<image>`.

This project models the integer and sequence logic between the OpenCV calls:

- `box_geometry.dfy` (module `BoxGeometry`): integer points, Python's
  `min`/`max`, `ComputeBoxSize`, and its independence from point order and
  translation.
- `decimal.dfy` (module `Decimal`): `str` of a non-negative integer, with a
  reading-back function and the round trip between them.
- `count_dice_pips.dfy` (module `CountDice`):
  - each contour as an abstract record (`Contour`: vertex count of the
    approximated polygon, doubled area, centre, integer box corners, pip
    count);
  - the die test `IsDie`, the filter `Dice` and the total `PipSum`;
  - the descending-area sort `SortByArea`;
  - the label arithmetic `LabelCoord`/`LabelLocation`;
  - the drawing commands (`Annotation`: an outline, or a text with position
    and stroke thickness);
  - the loop `VisitContours`;
  - the whole run `CountDicePips`, which returns either `NoImageFound` with
    the diagnostic line or the annotations, the total and the output name.

Modelling choices:

- **Area.** `cv2.contourArea` of a polygon with integer vertices is a
  multiple of 0.5, so the model carries twice the area as a `nat`. The test
  `area > 1000` becomes `doubledArea > 2000`. The same value is the sort key.
- **Label position.** The label position `int(center + size/2)` is modelled
  with Python 3 semantics: true division, then truncation toward zero.
  `LabelCoord` is that truncation of `(2c + s) / 2`. For a non-negative
  centre and size it equals `c + s div 2`, which is also what Python 2's
  floor division gives.
- **Drawing.** Drawing on the image is modelled as the list of drawing
  commands, in the order they are drawn. Colours, font, font scale, the
  outline's 3-pixel thickness and the anti-aliased line type are the same
  constants for every command of a kind and are not carried.
- **Box size vs. rectangle size.** The die's region is sized by
  `ComputeBoxSize` of the integer corners of the rotated minimum-area
  rectangle (`CountDicePips.py:55-61`). That is the axis-aligned extent of
  those corners, not the rectangle's own width and height.

## Model

| member | source | states |
|---|---|---|
| `BoxGeometry.Min` | CountDicePips.py:118-120 | `min` of a non-empty list is one of its elements and no larger than any element |
| `BoxGeometry.Max` | CountDicePips.py:119-121 | `max` of a non-empty list is one of its elements and no smaller than any element |
| `BoxGeometry.ComputeBoxSize` | CountDicePips.py:113-123 | both components are non-negative. On each axis (the coordinate lists `Xs`/`Ys` of lines 116-117) there are two corners such that every corner's coordinate lies between theirs, and the component is their difference |
| `BoxGeometry.SpreadIsUnique` | CountDicePips.py:116-123 | any value with that spread property on an axis is exactly `max - min` of the coordinates, so the box size is `(max X - min X, max Y - min Y)` |
| `BoxGeometry.BoxSizeIgnoresOrder` | CountDicePips.py:116-123 | any reordering of the corners gives the same box size |
| `BoxGeometry.BoxSizeIgnoresTranslation` | CountDicePips.py:116-123 | moving all corners by the same offset gives the same box size |
| `Decimal.DecimalString` | CountDicePips.py:85 | `str(n)` is a non-empty string of decimal digits. It starts with `0` only for `n = 0`, and is exactly `"0"` then |
| `Decimal.DecimalRoundTrip` | CountDicePips.py:85 | reading the digits of `str(n)` back gives `n` |
| `Decimal.DecimalInjective` | CountDicePips.py:85 | different numbers give different digit strings |
| `CountDice.IsDie` | CountDicePips.py:48-51 | a contour is a die exactly when its polygon has 4 vertices and its area (half the doubled area) exceeds 1000; the doubled-area test `doubledArea > 2000` is the same test |
| `CountDice.Dice` | CountDicePips.py:46-51 | the dice are no more than the contours, and every one of them passes the die test |
| `CountDice.DiceMembers` | CountDicePips.py:48-51 | a contour is accepted exactly when it is one of the contours, its polygon has 4 vertices and its area exceeds 1000. Every other contour is skipped |
| `CountDice.DiceAppend` | CountDicePips.py:45-51 | the dice of two runs visited one after the other are the dice of the first run followed by those of the second, so the visiting order is kept |
| `CountDice.DiceCount` | CountDicePips.py:46-51 | each die occurs among the accepted contours as often as among all contours, and a non-die never occurs |
| `CountDice.DiceOfPermutation` | CountDicePips.py:43-51 | visiting the contours in another order changes only the order of the accepted dice |
| `CountDice.InsertByArea` | CountDicePips.py:43 | inserting one contour gives a list one longer, holding the old contours plus the new one |
| `CountDice.InsertKeepsSorted` | CountDicePips.py:43 | inserting into a list sorted by decreasing area keeps it sorted |
| `CountDice.SortByArea` | CountDicePips.py:43 | `sorted(..., key=contourArea, reverse=True)` is a permutation of the contours, ordered by non-increasing area |
| `CountDice.PipSum` | CountDicePips.py:45-86 | the total is at least the pip count of every die, and is 0 exactly when no die has a pip |
| `CountDice.PipSumOfPermutation` | CountDicePips.py:86 | the accumulated pip total does not depend on the order the dice are added in |
| `CountDice.TotalIgnoresOrder` | CountDicePips.py:43-86 | the total over the accepted contours is the same for any visiting order, so the descending-area sort does not change it |
| `CountDice.TotalOfAppend` | CountDicePips.py:45-86 | visiting one more contour adds its pips to the total when it is a die, and nothing otherwise |
| `CountDice.LabelCoord` | CountDicePips.py:80-81 | the label coordinate is `c + s/2` truncated toward zero |
| `CountDice.LabelCoordOfNonNegative` | CountDicePips.py:80-82 | for a non-negative centre and size the coordinate is `c + s div 2` |
| `CountDice.LabelLocation` | CountDicePips.py:80-82 | for a non-negative centre the label sits at the centre plus half the box size, rounded down, on each axis |
| `CountDice.DieLabel` | CountDicePips.py:85 | the die's label is a text of thickness 3 at its label location holding the decimal form of its pip count: non-empty digits with no leading zero (exactly `0` for zero) that read back as the count |
| `CountDice.DieAnnotations` | CountDicePips.py:52-85 | the dice produce exactly two drawing commands each |
| `CountDice.DieAnnotationsAt` | CountDicePips.py:52-85 | in visiting order, the k-th die's commands are its outline, then its label |
| `CountDice.SumAnnotation` | CountDicePips.py:88-89 | the total is drawn at (25, 50), thickness 4, as `Sum: ` followed by the decimal form of the total: digits with no leading zero (exactly `Sum: 0` for zero) that read back as the total |
| `CountDice.OutputName` | CountDicePips.py:94 | the output name is `output_` followed by the image name |
| `CountDice.OutputNameInjective` | CountDicePips.py:94 | different image names give different output names |
| `CountDice.VisitContours` | CountDicePips.py:45-86 | the loop draws exactly the commands of the accepted contours in visiting order, and `sum_dots` ends as the sum of their pip counts |
| `CountDice.CountDicePips` | CountDicePips.py:27-94 | a missing image gives only the diagnostic. Otherwise the total is the pip sum over the accepted contours in any order, and the commands are those of the dice in descending-area order followed by `Sum: <total>` at (25, 50). The output name is `output_<image>`. With no dice, the total is 0 and the only command is `Sum: 0` |

## Left out

- File-system I/O (`os.path.isfile`, `cv2.imread`, `os.makedirs`,
  `cv2.imwrite`): the existence check is the `imageFound` parameter. Reading,
  directory creation and writing are not modelled. Only the output file name
  is.
- Display with `plt.imshow`/`plt.show`: interactive UI.
- Colour conversion and Otsu thresholding: pixel numerics inside OpenCV.
- Contour extraction and geometry (`findContours`, `approxPolyDP`,
  `arcLength`, `contourArea`, `minAreaRect`, `boxPoints`): these are library
  routines with floating-point internals. Their results are the fields of
  `Contour`. The box corners are required to be non-empty for dice only,
  since `boxPoints` always yields four corners and `min` of an empty list
  would fail.
- `ComputeContourCenter` (`CountDicePips.py:102-111`): it divides
  floating-point image moments. The centre is an input. The division by a
  zero moment that would crash it is not modelled.
- Pip detection (`getRectSubPix`, `SimpleBlobDetector` with circularity 0.5
  and inertia ratio 0.75): the pip count is an input per contour.
- Pixel effects of `drawContours`/`putText`, colours, font and font scale:
  only the commands are modelled.
- CountDice.SortByArea: does not state stability, i.e. that contours of
  equal area keep their original relative order as Python's `sorted` does.
  Stability only affects the drawing order of labels for equal-area dice.
  The total does not depend on it.
