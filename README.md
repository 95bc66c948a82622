# SVG auto-crop, modelled in Dafny

The tool computes the bounding box of an SVG document's artwork and suggests
a cropped `viewBox`. On request it writes the crop back into the document and
checks the result.

- **The walk.** The walk goes down the element tree from the root. It carries
  a cumulative affine matrix and a "background" flag.
  - Every `path`, `circle` and `rect` adds some corner points, mapped through
    the matrix.
  - Only elements whose tag ends in `g` or `svg` have their children visited.
- **The plan.** The box is grown by a margin on every side to give the
  suggested viewBox. An empty box means the file is skipped.
- **The in-place edit.**
  - It removes background children of the root: a `background-logo` group,
    or a rect more than 1000 wide or high.
  - It writes `viewBox`, then `width`/`height` (the rounded-up size, `100%`,
    or removed, depending on the responsive mode), then `class`.
- **The verification** (`verify_file`).
  - It reads the viewBox back and checks that the box lies inside it, within
    `eps`.
  - It checks the size attributes against the responsive mode.
  - It checks that the requested class is present.

Two versions of the tool share this core.

- `svg-tools/svg_auto_crop.py` is the full one.
- `svg_auto_crop.py` at the top level has the same helpers. Its `apply_crop`
  has no responsive mode and no class.

The model covers both. The helpers are shared. The top-level `apply_crop` is
`Crop.SvgRoot.ApplyCropReduced`. The table below cites the helpers in
`svg-tools/svg_auto_crop.py`. Their twins in `svg_auto_crop.py` are identical
line for line:

| function | `svg-tools/svg_auto_crop.py` | `svg_auto_crop.py` |
|---|---|---|
| `parse_transform` | 10-22 | 5-17 |
| `multiply_matrix` | 24-27 | 19-22 |
| `apply_matrix_to_point` | 29-31 | 24-26 |
| `find_points_in_d` | 33-38 | 28-33 |
| `collect_bbox_for_element` | 40-73 | 35-68 |
| `compute_svg_bbox` | 75-78 | 70-73 |
| plan of `apply_crop` | 81-88 | 76-83 |
| removal of background children | 109-126 | 101-118 |

Module layout, one file each:

| module | file | what |
|---|---|---|
| `Wrappers` | `wrappers.dfy` | `Option`, and `Result` with the exceptions the core can raise |
| `Text` | `text.dfy` | `strip`, `split()`, `re.split('[, ]+')`, `endswith`, `in`, `join` |
| `Numbers` | `numbers.dfy` | `float()` on a string, the numeric-literal scan of `re.findall`, `:.4f`, `math.ceil`, `str(int)` |
| `Affine` | `affine.dfy` | `multiply_matrix`, `apply_matrix_to_point` |
| `Boxes` | `boxes.dfy` | the running min/max box, with `Empty` in place of the `inf` sentinel |
| `Transform` | `transform.dfy` | `parse_transform` |
| `Walker` | `walker.dfy` | `find_points_in_d`, `collect_bbox_for_element`, `compute_svg_bbox` |
| `Crop` | `crop.dfy` | the plan of `apply_crop` and the in-place edit of the root (class `SvgRoot`) |
| `Verify` | `verify.dfy` | the decision of `verify_file`, and crop-then-verify |

How the model represents the program:

- **Numbers.** Numbers are exact `real`s.
  - `float(s)` is `Numbers.ParseFloat`. It returns `None` where Python raises.
  - An exception is an `Err` of `Result`, and it propagates as Python's
    exception does.
- **The document.** The document is a tree of `Walker.Element` values: a
  tag, an attribute map and a sequence of children.
- **The root.** The root, the one element the tool changes in place, is the
  class `Crop.SvgRoot`. Its methods `Set`, `Delete` and `Remove` are
  `root.set`, `del root.attrib[...]` and `root.remove`.
- **The loops and updates.** The loops of the source are loops here:
  - the pairing loop of `find_points_in_d`;
  - the running min/max of the walker and its loop over the children;
  - the two passes of the removal.

  The `ok` flag of `verify_file`, which a chain of `if`s clears, is a
  method that updates it in the same order. Each of these methods is
  proved equal to a specification function. The properties are proved
  about those functions.
- **The class test.** `Verify.ClassRule` selects the class test of
  `verify_file`: `AsWritten` is the program as it stands, and `Intended`
  is the corrected test of the Findings section.
- **The matrix layout.** The tool keeps a matrix `(a, b, c, d, e, f)` so
  that it maps `(x, y)` to `(a*x + b*y + e, c*x + d*y + f)`. The model keeps
  that layout. It is the transpose of the `matrix(a b c d e f)` reading of
  section 7.6 of SVG 1.1 (Second Edition), where `x' = a*x + c*y + e`. The
  tool's `multiply_matrix` composes consistently with its own layout, which is
  what `Affine.ApplyMultiply` states.

## Model

| member | source | states |
|---|---|---|
| Transform.ParseTransform | svg-tools/svg_auto_crop.py:10-11 | an absent or empty `transform` is the identity |
| Transform.MatchCall | svg-tools/svg_auto_crop.py:13 | a match of `name\s*\(([^)]+)\)` starts the string with `name`, and its group is non-empty with no `)` |
| Transform.TranslateOrIdentity | svg-tools/svg_auto_crop.py:17-22 | a string that does not start with `translate` falls through to the identity |
| Transform.ParseAll | svg-tools/svg_auto_crop.py:15 | reading the parts gives one number per part; a failure names a part that `float()` rejects |
| Transform.ParseAllMeaning | svg-tools/svg_auto_crop.py:15 | the parts are read exactly when every part is a number, and each reads as its own value |
| Transform.ParseAllExact | svg-tools/svg_auto_crop.py:19 | parts that denote given numbers read as those numbers |
| Transform.ParseMatrixCall | svg-tools/svg_auto_crop.py:13-16 | a matched `matrix(...)` gives its six numbers in order, and any other count gives the identity |
| Transform.ParseTranslateCall | svg-tools/svg_auto_crop.py:17-21 | a matched `translate(...)` moves by its first number in x, and by its second (0 when absent) in y |
| Transform.CallOfNumerals | svg-tools/svg_auto_crop.py:13-21 | `matrix`/`translate` with numerals joined by `", "` read back as the numbers the numerals denote |
| Transform.MatrixRoundTrip | svg-tools/svg_auto_crop.py:13-16 | a written `matrix(...)` of six numbers reads back as those numbers rounded to four decimals; any other count is the identity |
| Transform.TranslateRoundTrip | svg-tools/svg_auto_crop.py:17-21 | a written `translate(t1[, t2, ...])` is `(1,0,0,1,t1,t2)`, with `t2 = 0` for one number and later numbers ignored |
| Transform.UnrecognisedIsIdentity | svg-tools/svg_auto_crop.py:22 | a string that, once stripped, starts with neither name is the identity |
| Transform.MatchCallExtends | svg-tools/svg_auto_crop.py:13 | `re.match` is anchored only at the start, so text after a matched call does not change the match |
| Transform.LaterCallsIgnored | svg-tools/svg_auto_crop.py:13-21 | only the leading call counts: `translate(3,4) scale(2)` is the translation alone |
| Transform.OtherNameUnmatched | svg-tools/svg_auto_crop.py:13-17 | a string whose first character is not that of the name holds no call of it |
| Transform.TabArgumentsFail | svg-tools/svg_auto_crop.py:15 | two numbers with a tab between them are one field of `re.split('[, ]+')`, which `float()` rejects |
| Transform.CallArgumentsFail | svg-tools/svg_auto_crop.py:13-21 | a matched call whose numbers `float()` rejects makes `parse_transform` raise |
| Transform.TabSeparatedFails | svg-tools/svg_auto_crop.py:15-19 | a tab between the numbers of `matrix` or `translate` makes the walk raise |
| Transform.SpacesEndExtends | svg-tools/svg_auto_crop.py:13 | the `\s*` run that stops inside a string stops at the same place when text follows |
| Transform.CloseParenExtends | svg-tools/svg_auto_crop.py:13 | the first `)` inside a string stays the first when text follows |
| Transform.ArgumentsOfNumerals | svg-tools/svg_auto_crop.py:15 | the argument text of joined numerals strips to itself, splits into the numerals and reads as their values |
| Transform.MatchCallText | svg-tools/svg_auto_crop.py:13 | `name(g)` with no `)` in `g` matches `name` with group `g` |
| Transform.CloseParenAt | svg-tools/svg_auto_crop.py:13 | `[^)]+` stops at the first `)` |
| Affine.Apply | svg-tools/svg_auto_crop.py:29-31 | the identity leaves a point where it is, and a pure translation shifts it by `(e, f)` |
| Affine.Multiply | svg-tools/svg_auto_crop.py:24-27 | the identity is a left and a right unit of the product |
| Affine.ApplyMultiply | svg-tools/svg_auto_crop.py:24-31 | applying a product is applying its right factor, then its left one |
| Affine.MultiplyAssociative | svg-tools/svg_auto_crop.py:24-27 | the product is associative, so the cumulative matrix does not depend on grouping |
| Affine.SameAction | svg-tools/svg_auto_crop.py:29-31 | two matrices that move the origin and both unit points alike are equal |
| Affine.Expand | svg-tools/svg_auto_crop.py:27 | one coordinate of a product, expanded |
| Boxes.Include | svg-tools/svg_auto_crop.py:53 | folding in a point gives the least box that holds the old box and the point, and keeps it well formed |
| Boxes.Union | svg-tools/svg_auto_crop.py:72 | merging a child's box gives the least box that holds both, and keeps it well formed |
| Boxes.Bound | svg-tools/svg_auto_crop.py:43-73 | the box of the points is well formed, is empty exactly when there is no point, and holds every point |
| Boxes.BoundLeast | svg-tools/svg_auto_crop.py:43-73 | any box holding every point holds the computed box |
| Boxes.BoundAttained | svg-tools/svg_auto_crop.py:53 | each edge of a non-empty box lies on one of the points |
| Boxes.BoundSubset | svg-tools/svg_auto_crop.py:72 | points drawn from another run give a box within that run's box |
| Boxes.BoundSet | svg-tools/svg_auto_crop.py:69-72 | the box depends only on the set of points, not on their order or repetition |
| Boxes.BoundConcat | svg-tools/svg_auto_crop.py:70-72 | folding two runs in turn is merging their boxes |
| Boxes.WithinBothWays | svg-tools/svg_auto_crop.py:72 | boxes that hold each other are equal |
| Numbers.ParseFloatStrips | svg-tools/svg_auto_crop.py:55 | `float(s)` reads the literal `s.strip()` |
| Numbers.ParseFloatTrimmed | svg-tools/svg_auto_crop.py:60 | a literal with no surrounding whitespace is read as it is |
| Numbers.LiteralShape | svg-tools/svg_auto_crop.py:55 | the layout of a literal `float()` accepts: sign, digits, fraction, exponent, in order, covering the string |
| Numbers.LiteralHasNoSpace | svg-tools/svg_auto_crop.py:15 | no character of a literal is whitespace |
| Numbers.InnerSpaceRejected | svg-tools/svg_auto_crop.py:15 | whitespace inside a literal makes `float()` raise |
| Numbers.DigitsEnd | svg-tools/svg_auto_crop.py:34 | `[0-9]*` stops at the first non-digit |
| Numbers.DigitsEndSlice | svg-tools/svg_auto_crop.py:34-37 | inside a slice, a run of digits ends where it ends in the whole string, or at the slice's end |
| Numbers.MatchEnds | svg-tools/svg_auto_crop.py:34 | a match starts with a sign, digit or point and ends with a digit |
| Numbers.MantissaInSlice | svg-tools/svg_auto_crop.py:34-37 | the sign and mantissa the scan takes are read alike by `float()` |
| Numbers.ExponentInSlice | svg-tools/svg_auto_crop.py:34-37 | the exponent the scan takes is read alike by `float()` |
| Numbers.MatchShapeOf | svg-tools/svg_auto_crop.py:34-37 | every match of the scan has the layout of a literal `float()` accepts |
| Numbers.MatchParses | svg-tools/svg_auto_crop.py:34-37 | every match is accepted by `float()`, so the path scan never raises |
| Numbers.ScanFrom | svg-tools/svg_auto_crop.py:34 | every literal `re.findall` returns is accepted by `float()` |
| Numbers.ScanNumbers | svg-tools/svg_auto_crop.py:34 | the literals `re.findall` returns for a whole `d`, each accepted by `float()` |
| Numbers.NoDigitsNoNumbers | svg-tools/svg_auto_crop.py:34 | a string without a digit holds no literal |
| Numbers.Values | svg-tools/svg_auto_crop.py:37 | one value per literal, each the value `float()` gives |
| Numbers.NatToString | svg-tools/svg_auto_crop.py:142 | `str(n)` is a non-empty digit string that denotes `n` |
| Numbers.Ceil | svg-tools/svg_auto_crop.py:142 | `math.ceil(x)` is the integer in `[x, x + 1)` |
| Numbers.RoundHalfEven | svg-tools/svg_auto_crop.py:128 | rounding to the nearest integer, ties to the even one |
| Numbers.Magnitude4 | svg-tools/svg_auto_crop.py:128 | the magnitude in ten-thousandths is within half a unit of the exact one |
| Numbers.Rounded4 | svg-tools/svg_auto_crop.py:128 | the number `:.4f` writes is within `0.00005` of the value |
| Numbers.PadDigits | svg-tools/svg_auto_crop.py:128 | the four decimals are four digits denoting the fractional part |
| Numbers.FixedPoint4RoundTrip | svg-tools/svg_auto_crop.py:128-158 | `float(f"{v:.4f}")` is `v` rounded to four decimals |
| Numbers.FixedPoint4Numeral | svg-tools/svg_auto_crop.py:128 | what `:.4f` writes starts with a digit or `-`, ends with a digit and reads back rounded |
| Numbers.TenThousandthsParse | svg-tools/svg_auto_crop.py:128 | `[-]w.dddd` reads as the signed number of ten-thousandths it writes |
| Numbers.TenThousandthsDigits | svg-tools/svg_auto_crop.py:128 | the same, with the digit strings named |
| Numbers.TenThousandthsValue | svg-tools/svg_auto_crop.py:128 | the whole and fractional digits together denote `n / 10000` |
| Numbers.TenThousandthsChars | svg-tools/svg_auto_crop.py:128 | what `:.4f` writes is a numeral |
| Numbers.FourDigitFraction | svg-tools/svg_auto_crop.py:128 | four digits after the point count ten-thousandths |
| Numbers.PointedLiteralShape | svg-tools/svg_auto_crop.py:158 | `[-]digits.digits` has the layout of a literal `float()` accepts |
| Numbers.ParsePointed | svg-tools/svg_auto_crop.py:158 | `[-]digits.digits` reads as the number it denotes |
| Numbers.DecimalSplit | svg-tools/svg_auto_crop.py:128 | the whole part and the ten-thousandths add up to `n / 10000` |
| Text.StripUnchanged | svg-tools/svg_auto_crop.py:12 | a string that neither starts nor ends with whitespace is its own strip |
| Text.Fields | svg-tools/svg_auto_crop.py:15 | `re.split('[, ]+')` without its empty pieces, and `split()`, give non-empty runs of non-delimiters |
| Text.FieldsCons | svg-tools/svg_auto_crop.py:158 | a field followed by a delimiter, or by nothing, is split off whole |
| Text.FieldsSkip | svg-tools/svg_auto_crop.py:158 | a delimiter in front adds no field |
| Text.FieldsSkipAll | svg-tools/svg_auto_crop.py:15 | a run of delimiters in front adds no field |
| Text.FieldThenSeparator | svg-tools/svg_auto_crop.py:15 | a field then delimiters then the rest splits into the field and the rest's fields |
| Text.FieldsJoin | svg-tools/svg_auto_crop.py:15 | splitting fields joined by a delimiter separator gives back the fields |
| Text.JoinEnds | svg-tools/svg_auto_crop.py:128 | a join of non-empty parts starts as its first part and ends as its last |
| Text.ContainsAt | svg-tools/svg_auto_crop.py:64 | `sub in s` holds when `sub` sits at some index of `s` |
| Text.FieldEnd | svg-tools/svg_auto_crop.py:158 | a field runs to the first delimiter |
| Walker.NumberMeaning | svg-tools/svg_auto_crop.py:55 | `float(s)` on an attribute value gives a number exactly when the value, stripped of surrounding whitespace, is a decimal literal, and then that literal's value; otherwise it raises, naming the value |
| Walker.FloatAttrDefault | svg-tools/svg_auto_crop.py:55-60 | `float(el.get(key, '0'))`: an absent attribute reads as `"0"` |
| Walker.Pairs | svg-tools/svg_auto_crop.py:36-37 | n numbers give ⌊n/2⌋ points, each made from two consecutive numbers; an odd last one is dropped |
| Walker.PairsFlatten | svg-tools/svg_auto_crop.py:36-37 | the points give back the numbers they were made from, without the odd last one |
| Walker.FlattenPairs | svg-tools/svg_auto_crop.py:36-37 | pairing the coordinates of points gives back the points |
| Walker.FindPointsInD | svg-tools/svg_auto_crop.py:33-38 | the loop returns ⌊n/2⌋ points for n scanned literals, namely the consecutive pairs of their values |
| Walker.PairLiterals | svg-tools/svg_auto_crop.py:35-37 | the loop over `range(0, len(nums)-1, 2)` builds the consecutive pairs |
| Walker.PairsPrefix | svg-tools/svg_auto_crop.py:36-37 | one more turn of the loop appends the next pair |
| Walker.NoDigitsNoPoints | svg-tools/svg_auto_crop.py:34-38 | a `d` with no digit gives no point, whatever its command letters |
| Walker.TagKinds | svg-tools/svg_auto_crop.py:48-69 | the `path`, `circle`, `rect` and `g`/`svg` suffix tests exclude one another |
| Walker.CircleCornersOf | svg-tools/svg_auto_crop.py:55-56 | the corners are `(cx-r, cy-r)` and `(cx+r, cy+r)` |
| Walker.RectCornersOf | svg-tools/svg_auto_crop.py:60-66 | `(x, y)` and `(x+w, y+h)`, or nothing when `style` holds `fill-opacity: 0`, `fill-opacity` is `"0"`, or both sides are at least 1000 |
| Walker.MappedPair | svg-tools/svg_auto_crop.py:56-57 | two points map to their two images |
| Walker.CollectBBox | svg-tools/svg_auto_crop.py:40-73 | the result is the box of every contributing point. It is therefore well formed (`Boxes.Bound`), empty exactly when nothing contributes, holds every contributing point and is the least box that does. A `float()` that raises is an `Err` |
| Walker.LocalPoints | svg-tools/svg_auto_crop.py:46-68 | the branches of the element's own points: path unless flagged, circle always, rect unless flagged or excluded |
| Walker.FoldPoints | svg-tools/svg_auto_crop.py:51-53 | the running min/max over the mapped points is their box |
| Walker.MappedSnoc | svg-tools/svg_auto_crop.py:51-53 | one more point in the loop folds one more mapped point in |
| Walker.VisitChildren | svg-tools/svg_auto_crop.py:69-72 | the loop over the children merges each child's box into the running box, or stops at the first child that raises |
| Walker.MergeBoxes | svg-tools/svg_auto_crop.py:72 | merging the next child's box gives the box of all points gathered so far |
| Walker.ChildStep | svg-tools/svg_auto_crop.py:70-72 | one more child appends its points, or its error is the run's error |
| Walker.ChildErrorStays | svg-tools/svg_auto_crop.py:70-71 | an error raised by a child stops the whole walk |
| Walker.ComputeSvgBBox | svg-tools/svg_auto_crop.py:75-78 | the walk from the root with the identity matrix and the flag clear |
| Walker.ChildrenGathered | svg-tools/svg_auto_crop.py:69-72 | the children's points are the children walked in turn |
| Walker.GatherOk | svg-tools/svg_auto_crop.py:70-71 | a run walked without error has each child walked without error |
| Walker.GatherAllOk | svg-tools/svg_auto_crop.py:70-71 | children each walked without error make a run walked without error |
| Walker.GatherFrom | svg-tools/svg_auto_crop.py:70-72 | every point of the run comes from one of the children |
| Walker.GatherTo | svg-tools/svg_auto_crop.py:70-72 | every point of a child is a point of the run |
| Walker.GatherSubset | svg-tools/svg_auto_crop.py:69-72 | children drawn from another run walk without error when it does, and their points are among its points |
| Walker.ChildrenSubset | svg-tools/svg_auto_crop.py:69-72 | `Walker.GatherSubset` for a container's children |
| Walker.ChildOrderIrrelevant | svg-tools/svg_auto_crop.py:69-72 | a container's box does not depend on the order, or the repetition, of its children |
| Walker.NonContainerIgnoresChildren | svg-tools/svg_auto_crop.py:69 | only tags ending in `g`/`svg` have children visited: other elements walk alike with any children |
| Walker.ContainerOwnsNothing | svg-tools/svg_auto_crop.py:48-69 | a `g`/`svg` element adds no point of its own |
| Walker.PruneChildren | svg-tools/svg_auto_crop.py:69-72 | a container keeping some of its children (same transform and id) walks without error, and its points are among the original's |
| Walker.BackgroundLogoFlags | svg-tools/svg_auto_crop.py:46-47 | `id="background-logo"` sets the flag: the element walks as if its parent were flagged |
| Walker.FlaggedOnlyCircles | svg-tools/svg_auto_crop.py:46-71 | once set, the flag is passed to every descendant, and under it a tree without circles adds no point |
| Walker.FlaggedChildrenOnlyCircles | svg-tools/svg_auto_crop.py:69-72 | the same for a run of flagged children |
| Walker.FlaggedPathOrRect | svg-tools/svg_auto_crop.py:48-59 | a flagged `path` or `rect` adds no point |
| Walker.PathPoints | svg-tools/svg_auto_crop.py:48-53 | an unflagged path adds its `d` points through the cumulative matrix |
| Walker.CirclePoints | svg-tools/svg_auto_crop.py:54-58 | a circle adds its two corners through the cumulative matrix, flagged or not |
| Walker.CircleOwn | svg-tools/svg_auto_crop.py:54-56 | a circle's own points are its two corners |
| Walker.OwnIsCircle | svg-tools/svg_auto_crop.py:54 | a `circle` tag takes the circle branch, flagged or not |
| Walker.RectPoints | svg-tools/svg_auto_crop.py:59-68 | an unflagged rect adds `(x, y)` and `(x+w, y+h)` through the matrix, or nothing when excluded |
| Walker.OwnIsRect | svg-tools/svg_auto_crop.py:59 | an unflagged `rect` tag takes the rect branch |
| Crop.PlanCrop | svg-tools/svg_auto_crop.py:81-88 | no plan exactly when the box is empty; otherwise the frame is the box grown by the margin on every side |
| Crop.PlanContains | svg-tools/svg_auto_crop.py:85-88 | with a margin that is not negative, the frame is well formed and holds the box |
| Crop.SuggestedFrames | svg-tools/svg_auto_crop.py:81-88 | the file is skipped exactly when nothing contributes, and otherwise the suggested frame holds every contributing point |
| Crop.KeptMembers | svg-tools/svg_auto_crop.py:109-126 | a child survives exactly when it is a child that is not a background artifact |
| Crop.KeptConcat | svg-tools/svg_auto_crop.py:110 | filtering goes child by child, so survivors and removed children keep their order |
| Crop.HeadFiltered | svg-tools/svg_auto_crop.py:110-123 | one turn of the first pass |
| Crop.KeptIdempotent | svg-tools/svg_auto_crop.py:109-126 | a second pass removes nothing more |
| Crop.RemoveFirst | svg-tools/svg_auto_crop.py:126 | `root.remove(child)` on children that hold the child drops exactly one of them |
| Crop.DropNone | svg-tools/svg_auto_crop.py:124 | before the second pass nothing is removed |
| Crop.DropAll | svg-tools/svg_auto_crop.py:124-126 | after the second pass exactly the survivors remain |
| Crop.GoneArePicked | svg-tools/svg_auto_crop.py:112-123 | every child in `to_remove` is a background artifact |
| Crop.RemoveNext | svg-tools/svg_auto_crop.py:124-126 | removing the next child of `to_remove` removes that child and no other |
| Crop.NextPresent | svg-tools/svg_auto_crop.py:124-126 | the next child of `to_remove` is still a child when its turn comes, so `root.remove` does not raise |
| Crop.GoneStep | svg-tools/svg_auto_crop.py:110-123 | the first pass appends each background artifact in order |
| Crop.SvgRoot.RemoveBackgroundChildren | svg-tools/svg_auto_crop.py:109-126 | the root keeps exactly the children that are not background artifacts, in order, with its tag and attributes unchanged |
| Crop.SvgRoot.Set | svg-tools/svg_auto_crop.py:129 | `root.set` changes that one attribute only |
| Crop.SvgRoot.Delete | svg-tools/svg_auto_crop.py:137-140 | `del root.attrib[key]` removes that one attribute only |
| Crop.SvgRoot.Remove | svg-tools/svg_auto_crop.py:126 | `root.remove` is called only with a present child (ElementTree raises otherwise), drops its first occurrence and leaves the tag and attributes alone |
| Crop.SvgRoot.Resize | svg-tools/svg_auto_crop.py:131-143 | `width`/`height` become the rounded-up size, `100%` (percent), removed (remove) or stay (other modes); nothing else changes |
| Crop.SvgRoot.Reframe | svg-tools/svg_auto_crop.py:128-145 | `viewBox`, the size and (for a non-empty name) `class` are written; the children and tag stay |
| Crop.CroppedAttrsMeaning | svg-tools/svg_auto_crop.py:128-145 | each of `viewBox`, `width`, `height` and `class` holds what the edit writes, and every other attribute is unchanged |
| Crop.SvgRoot.ApplyCrop | svg-tools/svg_auto_crop.py:80-148 | returns the suggested plan (or none for an empty box, or the walk's error). The root changes only when applied in place with a plan, and then becomes the cropped root |
| Crop.SvgRoot.ApplyCropReduced | svg_auto_crop.py:75-127 | the same, without responsive mode or class: `viewBox` and the rounded-up `width`/`height` |
| Crop.SvgRoot.constructor | svg-tools/svg_auto_crop.py:93 | the root object holds the parsed root element |
| Verify.ViewBoxNumbers | svg-tools/svg_auto_crop.py:158 | a viewBox that reads gives exactly four numbers |
| Verify.VerifyFile | svg-tools/svg_auto_crop.py:150-191 | with the class test as written, the decision of `verify_file`: `false` without a viewBox, `Err` when the viewBox or the walk raises, and otherwise whether the three tests pass |
| Verify.Tests | svg-tools/svg_auto_crop.py:160-191 | the `ok` flag ends true exactly when the geometry, size and class tests all pass; the class test as written is `expected_class in cls.split()` |
| Verify.NoViewBoxFails | svg-tools/svg_auto_crop.py:154-157 | a missing or empty `viewBox` gives `false` |
| Verify.TestFailures | svg-tools/svg_auto_crop.py:161-190 | each failing case fails the tests: any edge of the box beyond the viewBox by more than `eps`; in percent (or no) mode a present `width` or `height` other than `100%`; in remove mode a `width` or `height` present; when not responsive a `width` or `height` missing or empty; as written, a requested class name that is not one of the words of the root's class; as intended, a word of the name that is not |
| Verify.EmptyBoxPasses | svg-tools/svg_auto_crop.py:161 | an empty box passes the geometry test against any viewBox |
| Verify.NumeralsRead | svg-tools/svg_auto_crop.py:158 | four numerals joined with spaces read back as their four numbers |
| Verify.ViewBoxRoundTrip | svg-tools/svg_auto_crop.py:128-158 | the written `viewBox` reads back as the plan rounded to four decimals |
| Verify.RoundedFrameHolds | svg-tools/svg_auto_crop.py:161 | a box within the planned box passes the geometry test against the rounded viewBox for `eps ≥ 1e-4` |
| Verify.CroppedBoxWithin | svg-tools/svg_auto_crop.py:109-126 | removing background children leaves a walk without error whose box is within the original box |
| Verify.CroppedAttrsPass | svg-tools/svg_auto_crop.py:131-145 | the size and class written pass the size and class tests as the command line requests them |
| Verify.CroppedOutcome | svg-tools/svg_auto_crop.py:258-264 | after the in-place crop of a container root with a non-negative margin the geometry and size tests pass, so `verify_file` as called after `--apply` answers the class test alone |
| Verify.CropThenVerify | svg-tools/svg_auto_crop.py:258-264 | with the intended class test, a container root cropped in place with a non-negative margin passes `verify_file` as called after `--apply`, in every mode and with any class |
| Verify.CropThenVerifyAsWritten | svg-tools/svg_auto_crop.py:258-264 | with the class test as written, the same cropped root passes exactly when no class is asked for or the class name is one word with no whitespace |
| Verify.ClassTestsAgree | svg-tools/svg_auto_crop.py:186-188 | for a single class name the test as written and the intended test agree |
| Verify.TwoWords | svg-tools/svg_auto_crop.py:188 | `"a b".split()` is `["a", "b"]` |
| Verify.SeveralClassesMissed | svg-tools/svg_auto_crop.py:186-190 | a class name of two or more words, set by the crop, fails the test as written and passes the intended one |
| Verify.CroppedClass | svg-tools/svg_auto_crop.py:144-145 | a non-empty class name is the root's class after the edit |
| Verify.EmptyClassMissed | svg-tools/svg_auto_crop.py:186-190 | an empty class name is never found by the test as written |

## Left out

- Files and XML: `ET.parse`, `tree.write`, the `.bak` backups and reverts, and the globbing of paths are not modelled. The document is an element tree given as a value, and the namespace handling of tags is not modelled.
- The command line, the batch loop, exit codes, `print` diagnostics and their `:.2f` formatting are not modelled. `Verify.CropThenVerifyAsWritten` and `Verify.CropThenVerify` state the one call pattern of the command line that matters here: verify right after apply.
- Rasterisation through `cairosvg` is a foreign library and is not modelled.
- Numbers.ParseFloat: reads ASCII decimal literals only. Python's `float()` also accepts `inf`, `nan`, `infinity`, `_` digit separators and non-ASCII digits; here those are failures. Values are exact reals, so IEEE rounding and overflow are not modelled.
- Boxes.Bound: the `inf`/`-inf` sentinel is the constructor `Empty`, so an infinite coordinate cannot arise. The tool tests emptiness by `minx == math.inf`.
- Crop.SvgRoot.Remove: requires the child to be present, where ElementTree raises `ValueError`; the tool only removes children it has just listed, and `Crop.NextPresent` proves each is still there. It removes the first child equal in value, where ElementTree removes that very object. Whether a child is picked depends only on its value, so every child equal to a picked one ahead of it is already gone. `Crop.RemoveNext` proves that the result is the same.
- Walker.LocalPoints: the early `return` of the sentinel for an excluded rect is folded into "no own points". A `rect` is never a container, so the box is the same.
- Verify.VerifyFile: takes the class test as a parameter. `AsWritten` (`Verify.ClassListed`, `expected_class in cls.split()`) is the program; `Intended` (`Verify.ClassesListed`) is the corrected test of the Findings section.
- Verify.CropThenVerify: holds for the intended class test only. For the program as written, `Verify.CropThenVerifyAsWritten` gives the answer, which is `false` for a class name of several words or an empty one.
- Crop.SvgRoot.ApplyCrop: the backup step, the `backup_overwrite` option and the re-parsing of the file between the walk and the edit are not modelled. The root object stands for the parsed document.

## Findings

| source | as written | input that shows it | evidently intended | confidence | as-written member | corrected member |
|---|---|---|---|---|---|---|
| svg-tools/svg_auto_crop.py:186-190 | `verify_file` checks `expected_class not in cls.split()`, and the command line passes the `--svg-class` value as both `class_name` and `expected_class` (lines 258 and 264), which `apply_crop` sets whole (lines 144-145) | `--apply --verify --svg-class "a b"`: the crop sets `class="a b"`, `"a b"` is not among `["a", "b"]`, and the check fails. `--svg-class ""` sets no class, and `""` is never among the fields | each requested class (the help text allows space-separated classes) is one of the root's classes | not executed | Verify.CropThenVerifyAsWritten | Verify.CropThenVerify |
