/** `collect_bbox_for_element` and its helpers: the walk of the element tree
    that gathers the points each element contributes, maps them through the
    cumulative transform and folds them into one box. */
module Walker {
  import opened Wrappers
  import opened Text
  import opened Numbers
  import opened Affine
  import opened Boxes
  import opened Transform

  /** An element as ElementTree holds it: its tag, its attributes and its
      children in document order. */
  datatype Element = Element(tag: string, attrs: map<string, string>, children: seq<Element>)

  /** `el.get(key)` */
  function Get(attrs: map<string, string>, key: string): Option<string> {
    if key in attrs then Some(attrs[key]) else None
  }

  /** `el.get(key, default)` */
  function GetOr(attrs: map<string, string>, key: string, default: string): string {
    if key in attrs then attrs[key] else default
  }

  /** `float(s)` on an attribute value, raising when it is not a number. */
  function Number(s: string): (r: Result<real>)
    ensures r.Ok? ==> ParseFloat(s) == Some(r.value)
    ensures r.Err? ==> ParseFloat(s).None? && r.error == NotANumber(s)
  {
    match ParseFloat(s)
    case Some(v) => Ok(v)
    case None => Err(NotANumber(s))
  }

  /** An attribute value reads as a number exactly when, stripped of
      surrounding whitespace, it is a decimal literal, and then as the
      value that literal denotes; otherwise reading it raises, naming the
      value. */
  lemma NumberMeaning(s: string)
    ensures Number(s).Ok? <==> LiteralShape(Strip(s)).Some?
    ensures Number(s).Ok? ==> Number(s).value == LiteralValue(Strip(s), LiteralShape(Strip(s)).value)
    ensures Number(s).Err? ==> Number(s).error == NotANumber(s)
  {
    ParseFloatStrips(s);
  }

  /** `float(el.get(key, '0'))`: an absent attribute reads as zero. */
  function FloatAttr(attrs: map<string, string>, key: string): Result<real> {
    if key in attrs then Number(attrs[key]) else Ok(0.0)
  }

  /** The default `'0'` reads as zero, so `FloatAttr` is `float()` of the
      attribute or of its default. */
  lemma FloatAttrDefault(attrs: map<string, string>, key: string)
    ensures FloatAttr(attrs, key) == Number(GetOr(attrs, key, "0"))
  {
    if key !in attrs {
      assert ParseFloat("0") == Some(0.0);
    }
  }

  /* ---- find_points_in_d ---- */

  /** Consecutive numbers taken two at a time as points; an odd last number
      is dropped. */
  function Pairs(ns: seq<real>): (ps: seq<Point>)
    ensures |ps| == |ns| / 2
    ensures forall k :: 0 <= k < |ps| ==> ps[k] == Point(ns[2 * k], ns[2 * k + 1])
  {
    if |ns| < 2 then []
    else
      var ps := [Point(ns[0], ns[1])] + Pairs(ns[2..]);
      assert forall k :: 1 <= k < |ps| ==> ps[k] == Pairs(ns[2..])[k - 1];
      ps
  }

  /** The coordinates of a sequence of points, in order. */
  function Flatten(ps: seq<Point>): (ns: seq<real>)
    ensures |ns| == 2 * |ps|
  {
    if ps == [] then [] else [ps[0].x, ps[0].y] + Flatten(ps[1..])
  }

  /** Pairing loses nothing but an odd last number: flattening the points
      gives the numbers back. */
  lemma {:induction false} PairsFlatten(ns: seq<real>)
    ensures Flatten(Pairs(ns)) == ns[..2 * (|ns| / 2)]
  {
    if |ns| >= 2 {
      PairsFlatten(ns[2..]);
      assert Pairs(ns)[1..] == Pairs(ns[2..]);
      assert ns[..2 * (|ns| / 2)] == [ns[0], ns[1]] + ns[2..][..2 * (|ns[2..]| / 2)];
    }
  }

  /** Flattened points pair up into the same points. */
  lemma {:induction false} FlattenPairs(ps: seq<Point>)
    ensures Pairs(Flatten(ps)) == ps
  {
    if ps != [] {
      FlattenPairs(ps[1..]);
      assert Flatten(ps)[2..] == Flatten(ps[1..]);
    }
  }

  /** The points `find_points_in_d(d)` returns. */
  function PointsInD(d: string): seq<Point> {
    Pairs(Values(ScanNumbers(d)))
  }

  /** `find_points_in_d(d_string)`: every numeric literal of `d` in order,
      paired two at a time; command letters are passed over by the scan. */
  method FindPointsInD(d: string) returns (pts: seq<Point>)
    ensures |pts| == |ScanNumbers(d)| / 2
    ensures pts == PointsInD(d)
  {
    var nums := ScanNumbers(d);
    pts := PairLiterals(nums);
  }

  /** The loop of `find_points_in_d`: `float()` of literals `2k` and
      `2k+1` for each `k`, none of which raises. */
  method PairLiterals(nums: seq<string>) returns (pts: seq<Point>)
    requires forall t :: t in nums ==> ParseFloat(t).Some?
    ensures pts == Pairs(Values(nums))
  {
    ghost var vs := Values(nums);
    ghost var k := 0;
    pts := [];
    var i := 0;
    while i < |nums| - 1
      invariant i == 2 * k && i <= |nums|
      invariant pts == Pairs(vs)[..k]
    {
      assert nums[i] in nums && nums[i + 1] in nums;
      var x, y := ParseFloat(nums[i]).value, ParseFloat(nums[i + 1]).value;
      PairsPrefix(vs, k, x, y);
      pts := pts + [Point(x, y)];
      i, k := i + 2, k + 1;
    }
    assert k == |vs| / 2;
  }

  /** One step of the pairing loop. */
  lemma PairsPrefix(vs: seq<real>, k: nat, x: real, y: real)
    requires 2 * k + 1 < |vs| && x == vs[2 * k] && y == vs[2 * k + 1]
    ensures Pairs(vs)[..k] + [Point(x, y)] == Pairs(vs)[..k + 1]
  {
    var ps := Pairs(vs);
    assert k < |ps| && ps[k] == Point(x, y);
    assert ps[..k + 1] == ps[..k] + [ps[k]];
  }

  /** A `d` without a digit gives no points. */
  lemma NoDigitsNoPoints(d: string)
    requires forall i :: 0 <= i < |d| ==> !IsDigit(d[i])
    ensures PointsInD(d) == []
  {
    NoDigitsNoNumbers(d, 0);
  }

  /* ---- what one element contributes ---- */

  /** Only tags ending in `g` or `svg` have their children visited. */
  predicate IsContainer(tag: string) {
    EndsWith(tag, "g") || EndsWith(tag, "svg")
  }

  /** The suffixes the walker tests exclude one another. */
  lemma TagKinds(tag: string)
    ensures EndsWith(tag, "path") ==> !EndsWith(tag, "circle") && !EndsWith(tag, "rect") && !IsContainer(tag)
    ensures EndsWith(tag, "circle") ==> !EndsWith(tag, "path") && !EndsWith(tag, "rect") && !IsContainer(tag)
    ensures EndsWith(tag, "rect") ==> !EndsWith(tag, "path") && !EndsWith(tag, "circle") && !IsContainer(tag)
  {
    if tag != [] {
      var c := tag[|tag| - 1];
      assert EndsWith(tag, "path") ==> c == 'h';
      assert EndsWith(tag, "circle") ==> c == 'e';
      assert EndsWith(tag, "rect") ==> c == 't';
      assert EndsWith(tag, "g") ==> c == 'g';
      assert EndsWith(tag, "svg") ==> c == 'g';
    }
  }

  predicate IsBackgroundLogo(attrs: map<string, string>) {
    Get(attrs, "id") == Some("background-logo")
  }

  /** `el.get('fill-opacity') or 'none'` */
  function FillOpacity(attrs: map<string, string>): string {
    match Get(attrs, "fill-opacity")
    case Some(v) => if v != [] then v else "none"
    case None => "none"
  }

  /** The rect heuristic: a transparent rect, or one at least 1000 by 1000
      (a canvas placeholder), adds nothing. */
  predicate RectExcluded(attrs: map<string, string>, w: real, h: real) {
    Text.Contains(GetOr(attrs, "style", ""), "fill-opacity: 0") || FillOpacity(attrs) == "0" || (w >= 1000.0 && h >= 1000.0)
  }

  /** The points an element adds by itself, before its transform is
      applied: a path its `d` points (unless flagged), a circle the corners
      `(cx-r, cy-r)` and `(cx+r, cy+r)` (flagged or not), a rect `(x, y)` and
      `(x+w, y+h)` (unless flagged or excluded); a `float()` that raises is
      an `Err`. */
  function OwnPoints(tag: string, attrs: map<string, string>, flagged: bool): Result<seq<Point>>
  {
    if EndsWith(tag, "path") && !flagged then
      match Get(attrs, "d")
      case Some(d) => if d != [] then Ok(PointsInD(d)) else Ok([])
      case None => Ok([])
    else if EndsWith(tag, "circle") then CircleCorners(attrs)
    else if EndsWith(tag, "rect") && !flagged then RectCorners(attrs)
    else Ok([])
  }

  /** `cx`, `cy` and `r` (each `"0"` when absent) give the corners
      `(cx-r, cy-r)` and `(cx+r, cy+r)`. */
  function CircleCorners(attrs: map<string, string>): (r: Result<seq<Point>>)
    ensures r.Ok? ==> |r.value| == 2
  {
    var cx :- FloatAttr(attrs, "cx");
    var cy :- FloatAttr(attrs, "cy");
    var r :- FloatAttr(attrs, "r");
    Ok([Point(cx - r, cy - r), Point(cx + r, cy + r)])
  }

  /** `x`, `y`, `width` and `height` (each `"0"` when absent) give the
      corners `(x, y)` and `(x+w, y+h)`, or nothing for an excluded rect. */
  function RectCorners(attrs: map<string, string>): (r: Result<seq<Point>>)
    ensures r.Ok? ==> |r.value| == 0 || |r.value| == 2
  {
    var x :- FloatAttr(attrs, "x");
    var y :- FloatAttr(attrs, "y");
    var w :- FloatAttr(attrs, "width");
    var h :- FloatAttr(attrs, "height");
    if RectExcluded(attrs, w, h) then Ok([]) else Ok([Point(x, y), Point(x + w, y + h)])
  }

  function Mapped(m: Matrix, ps: seq<Point>): (qs: seq<Point>)
    ensures |qs| == |ps|
  {
    seq(|ps|, i requires 0 <= i < |ps| => Apply(m, ps[i]))
  }

  /** Every point the walk of `el` folds into its box, in the order it
      folds them: the element's own points through the cumulative matrix,
      then those of each child in turn. `inherited` is the background flag
      passed down by the parent; `Err` is the first `float()` that raises. */
  function Contributions(el: Element, parent: Matrix, inherited: bool): (r: Result<seq<Point>>)
    decreases el
  {
    var local :- ParseTransform(Get(el.attrs, "transform"));
    var m := Multiply(parent, local);
    var flagged := inherited || IsBackgroundLogo(el.attrs);
    var own :- OwnPoints(el.tag, el.attrs, flagged);
    if IsContainer(el.tag) then
      var below :- ChildContributions(el.children, m, flagged);
      Ok(Mapped(m, own) + below)
    else Ok(Mapped(m, own))
  }

  /** The points of a run of siblings, each walked under `m` and `flagged`. */
  function ChildContributions(cs: seq<Element>, m: Matrix, flagged: bool): (r: Result<seq<Point>>)
    decreases cs
  {
    if cs == [] then Ok([])
    else
      var front :- ChildContributions(cs[..|cs| - 1], m, flagged);
      var last :- Contributions(cs[|cs| - 1], m, flagged);
      Ok(front + last)
  }

  function BoxOf(r: Result<seq<Point>>): Result<Box> {
    match r
    case Ok(ps) => Ok(Bound(ps))
    case Err(e) => Err(e)
  }

  /* ---- the walk ---- */

  /** `collect_bbox_for_element(el, parent_matrix, parent_is_background)`:
      the box of every point `Contributions` lists, so it is well formed,
      empty exactly when no point contributes, holds each contributing point
      and is the least box that does; `Err` when a `float()` raises. */
  method CollectBBox(el: Element, parentMatrix: Matrix, parentIsBackground: bool) returns (r: Result<Box>)
    ensures r == BoxOf(Contributions(el, parentMatrix, parentIsBackground))
    decreases el
  {
    var local :- ParseTransform(Get(el.attrs, "transform"));
    var cumulative := Multiply(parentMatrix, local);
    var flagged := parentIsBackground || IsBackgroundLogo(el.attrs);
    var own :- LocalPoints(el, flagged);
    var b := FoldPoints(cumulative, own);
    if IsContainer(el.tag) {
      r := VisitChildren(el.children, cumulative, flagged, b, Mapped(cumulative, own));
    } else {
      r := Ok(b);
    }
  }

  /** The loop over a container's children: each child's box is merged into
      `b`, the box of the points `prior` gathered so far. */
  method VisitChildren(cs: seq<Element>, m: Matrix, flagged: bool, b: Box, ghost prior: seq<Point>) returns (r: Result<Box>)
    requires b == Bound(prior)
    ensures r == BoxOf(Prefixed(prior, ChildContributions(cs, m, flagged)))
    decreases cs
  {
    var acc := b;
    assert prior + [] == prior;
    for j := 0 to |cs|
      invariant ChildContributions(cs[..j], m, flagged).Ok?
      invariant acc == Bound(prior + ChildContributions(cs[..j], m, flagged).value)
    {
      ChildStep(cs, j, m, flagged);
      var c :- CollectBBox(cs[j], m, flagged);
      MergeBoxes(prior, ChildContributions(cs[..j], m, flagged).value, Contributions(cs[j], m, flagged).value, acc, c);
      acc := Union(acc, c);
    }
    assert cs[..|cs|] == cs;
    return Ok(acc);
  }

  /** Merging the next child's box keeps the running box that of every
      point gathered so far. */
  lemma MergeBoxes(prior: seq<Point>, front: seq<Point>, last: seq<Point>, acc: Box, c: Box)
    requires acc == Bound(prior + front) && c == Bound(last)
    ensures Union(acc, c) == Bound(prior + (front + last))
  {
    BoundConcat(prior + front, last);
    assert prior + front + last == prior + (front + last);
  }

  /** `prior` followed by the points of `r`, or the error of `r`. */
  function Prefixed(prior: seq<Point>, r: Result<seq<Point>>): Result<seq<Point>> {
    match r
    case Ok(ps) => Ok(prior + ps)
    case Err(e) => Err(e)
  }

  /** The element's own points, branch by branch as the walker reads them. */
  method LocalPoints(el: Element, flagged: bool) returns (r: Result<seq<Point>>)
    ensures r == OwnPoints(el.tag, el.attrs, flagged)
  {
    r := Ok([]);
    if EndsWith(el.tag, "path") && !flagged {
      var d := Get(el.attrs, "d");
      if d.Some? && d.value != [] {
        var pts := FindPointsInD(d.value);
        r := Ok(pts);
      }
    } else if EndsWith(el.tag, "circle") {
      r := CircleCorners(el.attrs);
    } else if EndsWith(el.tag, "rect") && !flagged {
      r := RectCorners(el.attrs);
    }
  }

  /** The running `min`/`max` over the points, each mapped through `m`. */
  method FoldPoints(m: Matrix, ps: seq<Point>) returns (b: Box)
    ensures b == Bound(Mapped(m, ps))
  {
    b := Empty;
    for i := 0 to |ps|
      invariant b == Bound(Mapped(m, ps[..i]))
    {
      MappedSnoc(m, ps, i);
      b := Include(b, Apply(m, ps[i]));
    }
    assert ps[..|ps|] == ps;
  }

  /** The mapped prefix grows by one mapped point. */
  lemma MappedSnoc(m: Matrix, ps: seq<Point>, i: nat)
    requires i < |ps|
    ensures Bound(Mapped(m, ps[..i + 1])) == Include(Bound(Mapped(m, ps[..i])), Apply(m, ps[i]))
  {
    assert Mapped(m, ps[..i + 1])[..i] == Mapped(m, ps[..i]);
  }

  /** One more sibling: its points follow those of the siblings before it,
      and an error in it is the error of the whole run. */
  lemma ChildStep(cs: seq<Element>, j: nat, m: Matrix, flagged: bool)
    requires j < |cs| && ChildContributions(cs[..j], m, flagged).Ok?
    ensures Contributions(cs[j], m, flagged).Ok? ==>
      ChildContributions(cs[..j + 1], m, flagged)
        == Ok(ChildContributions(cs[..j], m, flagged).value + Contributions(cs[j], m, flagged).value)
    ensures Contributions(cs[j], m, flagged).Err? ==>
      ChildContributions(cs, m, flagged) == Err(Contributions(cs[j], m, flagged).error)
  {
    var run := cs[..j + 1];
    assert run != [] && run[..|run| - 1] == cs[..j] && run[|run| - 1] == cs[j];
    if Contributions(cs[j], m, flagged).Err? {
      ChildErrorStays(cs, j + 1, m, flagged);
      assert cs[..|cs|] == cs;
    }
  }

  /** An error in a run of siblings stays the error as the run grows. */
  lemma {:induction false} ChildErrorStays(cs: seq<Element>, n: nat, m: Matrix, flagged: bool)
    requires 0 < n <= |cs| && ChildContributions(cs[..n], m, flagged).Err?
    ensures ChildContributions(cs, m, flagged) == ChildContributions(cs[..n], m, flagged)
    decreases |cs| - n
  {
    if n < |cs| {
      assert cs[..n + 1][..n] == cs[..n];
      ChildErrorStays(cs, n + 1, m, flagged);
    } else {
      assert cs[..n] == cs;
    }
  }

  /** `compute_svg_bbox`: the walk from the document root with the identity
      matrix and the background flag clear. */
  method ComputeSvgBBox(root: Element) returns (r: Result<Box>)
    ensures r == BoxOf(Contributions(root, Identity, false))
  {
    r := CollectBBox(root, Identity, false);
  }

  /* ---- what the walk promises ---- */

  /** The points of a run of siblings, each walked by `walk`, in order; the
      first error stops the run. `ChildContributions` is this fold with
      `walk` the walk of `Contributions` (`ChildrenGathered`). */
  function Gather(cs: seq<Element>, walk: Element -> Result<seq<Point>>): Result<seq<Point>>
    decreases |cs|
  {
    if cs == [] then Ok([])
    else
      var front :- Gather(cs[..|cs| - 1], walk);
      var last :- walk(cs[|cs| - 1]);
      Ok(front + last)
  }

  /** The walk of one sibling under the parent's matrix and flag. */
  function Walk(m: Matrix, flagged: bool): Element -> Result<seq<Point>> {
    el => Contributions(el, m, flagged)
  }

  lemma {:induction false} ChildrenGathered(cs: seq<Element>, m: Matrix, flagged: bool)
    ensures ChildContributions(cs, m, flagged) == Gather(cs, Walk(m, flagged))
    decreases |cs|
  {
    if cs != [] {
      ChildrenGathered(cs[..|cs| - 1], m, flagged);
    }
  }

  /** A run walked without error has each sibling walked without error. */
  lemma {:induction false} GatherOk(cs: seq<Element>, walk: Element -> Result<seq<Point>>, i: nat)
    requires Gather(cs, walk).Ok? && i < |cs|
    ensures walk(cs[i]).Ok?
    decreases |cs|
  {
    var n := |cs| - 1;
    if i < n {
      var init := cs[..n];
      assert init[i] == cs[i];
      GatherOk(init, walk, i);
    }
  }

  /** Siblings each walked without error make a run walked without
      error. */
  lemma {:induction false} GatherAllOk(cs: seq<Element>, walk: Element -> Result<seq<Point>>)
    requires forall i :: 0 <= i < |cs| ==> walk(cs[i]).Ok?
    ensures Gather(cs, walk).Ok?
    decreases |cs|
  {
    if cs != [] {
      var n := |cs| - 1;
      var init := cs[..n];
      assert forall i :: 0 <= i < n ==> init[i] == cs[i];
      GatherAllOk(init, walk);
      assert walk(cs[n]).Ok?;
    }
  }

  /** Every point of a run comes from one of its siblings. */
  lemma {:induction false} GatherFrom(cs: seq<Element>, walk: Element -> Result<seq<Point>>, p: Point) returns (i: nat)
    requires Gather(cs, walk).Ok? && p in Gather(cs, walk).value
    ensures i < |cs| && walk(cs[i]).Ok? && p in walk(cs[i]).value
    decreases |cs|
  {
    var n := |cs| - 1;
    var init := cs[..n];
    var front := Gather(init, walk);
    if front.Ok? && p in front.value {
      i := GatherFrom(init, walk, p);
      assert init[i] == cs[i];
    } else {
      i := n;
    }
  }

  /** Every point of a sibling is a point of the run. */
  lemma {:induction false} GatherTo(cs: seq<Element>, walk: Element -> Result<seq<Point>>, p: Point, i: nat)
    requires Gather(cs, walk).Ok?
    requires i < |cs| && walk(cs[i]).Ok? && p in walk(cs[i]).value
    ensures p in Gather(cs, walk).value
    decreases |cs|
  {
    var n := |cs| - 1;
    if i < n {
      var init := cs[..n];
      assert init[i] == cs[i];
      GatherTo(init, walk, p, i);
    }
  }

  /** Siblings drawn from another run: if that run is walked without error
      so is this one, and each of its points is a point of the other. */
  lemma GatherSubset(cs: seq<Element>, ds: seq<Element>, walk: Element -> Result<seq<Point>>)
    requires forall c :: c in cs ==> c in ds
    requires Gather(ds, walk).Ok?
    ensures Gather(cs, walk).Ok?
    ensures forall p :: p in Gather(cs, walk).value ==> p in Gather(ds, walk).value
  {
    forall i | 0 <= i < |cs|
      ensures walk(cs[i]).Ok?
    {
      var k := Position(cs[i], ds);
      GatherOk(ds, walk, k);
    }
    GatherAllOk(cs, walk);
    forall p | p in Gather(cs, walk).value
      ensures p in Gather(ds, walk).value
    {
      var i := GatherFrom(cs, walk, p);
      var k := Position(cs[i], ds);
      GatherTo(ds, walk, p, k);
    }
  }

  /** `GatherSubset` for the children of a container. */
  lemma ChildrenSubset(cs: seq<Element>, ds: seq<Element>, m: Matrix, flagged: bool)
    requires forall c :: c in cs ==> c in ds
    requires ChildContributions(ds, m, flagged).Ok?
    ensures ChildContributions(cs, m, flagged).Ok?
    ensures forall p :: p in ChildContributions(cs, m, flagged).value ==> p in ChildContributions(ds, m, flagged).value
  {
    ChildrenGathered(cs, m, flagged);
    ChildrenGathered(ds, m, flagged);
    GatherSubset(cs, ds, Walk(m, flagged));
  }

  /** An index at which `c` occurs in `ds`. */
  lemma Position(c: Element, ds: seq<Element>) returns (k: nat)
    requires c in ds
    ensures k < |ds| && ds[k] == c
  {
    k :| 0 <= k < |ds| && ds[k] == c;
  }

  /** A container adds no point of its own. */
  lemma ContainerOwnsNothing(tag: string, attrs: map<string, string>, flagged: bool)
    requires IsContainer(tag)
    ensures OwnPoints(tag, attrs, flagged) == Ok([])
  {
    TagKinds(tag);
  }

  /** A container that keeps only some of its children, with its transform
      and id as they were, is walked without error when the original is, and
      each of its points is a point of the original. */
  lemma PruneChildren(el: Element, attrs: map<string, string>, kept: seq<Element>, parent: Matrix, inherited: bool)
    requires IsContainer(el.tag)
    requires Get(attrs, "transform") == Get(el.attrs, "transform") && Get(attrs, "id") == Get(el.attrs, "id")
    requires forall c :: c in kept ==> c in el.children
    requires Contributions(el, parent, inherited).Ok?
    ensures Contributions(Element(el.tag, attrs, kept), parent, inherited).Ok?
    ensures forall q :: (q in Contributions(Element(el.tag, attrs, kept), parent, inherited).value
      ==> q in Contributions(el, parent, inherited).value)
  {
    var local := ParseTransform(Get(el.attrs, "transform")).value;
    var m := Multiply(parent, local);
    var flagged := inherited || IsBackgroundLogo(el.attrs);
    ContainerOwnsNothing(el.tag, el.attrs, flagged);
    ContainerOwnsNothing(el.tag, attrs, flagged);
    ChildrenSubset(kept, el.children, m, flagged);
    assert Mapped(m, []) == [];
  }

  /** The walk of a container does not depend on the order of its children
      (nor on repeated children): the same children in any order give the
      same box, or both raise. */
  lemma ChildOrderIrrelevant(tag: string, attrs: map<string, string>, cs: seq<Element>, ds: seq<Element>, parent: Matrix, inherited: bool)
    requires forall c :: c in cs <==> c in ds
    ensures BoxOf(Contributions(Element(tag, attrs, cs), parent, inherited)).Ok?
        == BoxOf(Contributions(Element(tag, attrs, ds), parent, inherited)).Ok?
    ensures BoxOf(Contributions(Element(tag, attrs, cs), parent, inherited)).Ok? ==>
      BoxOf(Contributions(Element(tag, attrs, cs), parent, inherited)) == BoxOf(Contributions(Element(tag, attrs, ds), parent, inherited))
  {
    var e, f := Element(tag, attrs, cs), Element(tag, attrs, ds);
    var local := ParseTransform(Get(attrs, "transform"));
    if local.Ok? && IsContainer(tag) {
      var m := Multiply(parent, local.value);
      var flagged := inherited || IsBackgroundLogo(attrs);
      var own := OwnPoints(tag, attrs, flagged);
      if own.Ok? && ChildContributions(cs, m, flagged).Ok? {
        ChildrenSubset(ds, cs, m, flagged);
        ChildrenSubset(cs, ds, m, flagged);
        var mine := Mapped(m, own.value);
        var pc, pd := ChildContributions(cs, m, flagged).value, ChildContributions(ds, m, flagged).value;
        BoundSet(mine + pc, mine + pd);
      } else if own.Ok? && ChildContributions(ds, m, flagged).Ok? {
        ChildrenSubset(cs, ds, m, flagged);
      }
    }
  }

  /** Only containers have their children visited: any other element walks
      the same whatever its children. */
  lemma NonContainerIgnoresChildren(el: Element, ds: seq<Element>, parent: Matrix, inherited: bool)
    requires !IsContainer(el.tag)
    ensures Contributions(el.(children := ds), parent, inherited) == Contributions(el, parent, inherited)
  {
  }

  /** `id="background-logo"` sets the background flag for the element, as
      if its parent had passed it down. */
  lemma BackgroundLogoFlags(el: Element, parent: Matrix)
    requires IsBackgroundLogo(el.attrs)
    ensures Contributions(el, parent, false) == Contributions(el, parent, true)
  {
  }

  /** No element of the tree has a tag ending in `circle`. */
  predicate NoCircles(el: Element)
    decreases el
  {
    !EndsWith(el.tag, "circle") && forall c :: c in el.children ==> NoCircles(c)
  }

  /** Under the background flag only circles contribute: the flag, once
      set, is never cleared on the way down, so a flagged tree without
      circles adds no point. */
  lemma {:induction false} FlaggedOnlyCircles(el: Element, parent: Matrix)
    requires NoCircles(el)
    ensures Contributions(el, parent, true).Ok? ==> Contributions(el, parent, true).value == []
    decreases el
  {
    var local := ParseTransform(Get(el.attrs, "transform"));
    if local.Ok? {
      var m := Multiply(parent, local.value);
      assert OwnPoints(el.tag, el.attrs, true) == Ok([]);
      if IsContainer(el.tag) {
        FlaggedChildrenOnlyCircles(el.children, m);
      }
    }
  }

  lemma {:induction false} FlaggedChildrenOnlyCircles(cs: seq<Element>, m: Matrix)
    requires forall c :: c in cs ==> NoCircles(c)
    ensures ChildContributions(cs, m, true).Ok? ==> ChildContributions(cs, m, true).value == []
    decreases cs
  {
    if cs != [] {
      FlaggedChildrenOnlyCircles(cs[..|cs| - 1], m);
      FlaggedOnlyCircles(cs[|cs| - 1], m);
    }
  }

  /** A path adds the `d` points, each through the cumulative matrix, unless
      it is flagged. */
  lemma PathPoints(el: Element, parent: Matrix, local: Matrix, d: string)
    requires EndsWith(el.tag, "path") && !IsBackgroundLogo(el.attrs)
    requires ParseTransform(Get(el.attrs, "transform")) == Ok(local) && Get(el.attrs, "d") == Some(d)
    ensures Contributions(el, parent, false) == Ok(Mapped(Multiply(parent, local), PointsInD(d)))
  {
    TagKinds(el.tag);
    if d == [] {
      NoDigitsNoPoints(d);
    }
    assert OwnPoints(el.tag, el.attrs, false) == Ok(PointsInD(d));
  }

  /** A circle adds its corners `(cx-r, cy-r)` and `(cx+r, cy+r)` through
      the cumulative matrix, flagged or not. */
  lemma CirclePoints(el: Element, parent: Matrix, inherited: bool, local: Matrix, cx: real, cy: real, r: real)
    requires EndsWith(el.tag, "circle")
    requires ParseTransform(Get(el.attrs, "transform")) == Ok(local)
    requires FloatAttr(el.attrs, "cx") == Ok(cx) && FloatAttr(el.attrs, "cy") == Ok(cy)
    requires FloatAttr(el.attrs, "r") == Ok(r)
    ensures Contributions(el, parent, inherited)
      == Ok([Apply(Multiply(parent, local), Point(cx - r, cy - r)), Apply(Multiply(parent, local), Point(cx + r, cy + r))])
  {
    TagKinds(el.tag);
    var flagged := inherited || IsBackgroundLogo(el.attrs);
    CircleOwn(el.tag, el.attrs, flagged, cx, cy, r);
    MappedPair(Multiply(parent, local), Point(cx - r, cy - r), Point(cx + r, cy + r));
  }

  lemma CircleOwn(tag: string, attrs: map<string, string>, flagged: bool, cx: real, cy: real, r: real)
    requires EndsWith(tag, "circle")
    requires FloatAttr(attrs, "cx") == Ok(cx) && FloatAttr(attrs, "cy") == Ok(cy)
    requires FloatAttr(attrs, "r") == Ok(r)
    ensures OwnPoints(tag, attrs, flagged) == Ok([Point(cx - r, cy - r), Point(cx + r, cy + r)])
  {
    OwnIsCircle(tag, attrs, flagged);
    CircleCornersOf(attrs, cx, cy, r);
  }

  lemma OwnIsCircle(tag: string, attrs: map<string, string>, flagged: bool)
    requires EndsWith(tag, "circle")
    ensures OwnPoints(tag, attrs, flagged) == CircleCorners(attrs)
  {
    TagKinds(tag);
  }

  lemma CircleCornersOf(attrs: map<string, string>, cx: real, cy: real, r: real)
    requires FloatAttr(attrs, "cx") == Ok(cx) && FloatAttr(attrs, "cy") == Ok(cy)
    requires FloatAttr(attrs, "r") == Ok(r)
    ensures CircleCorners(attrs) == Ok([Point(cx - r, cy - r), Point(cx + r, cy + r)])
  {
  }

  lemma MappedPair(m: Matrix, p: Point, q: Point)
    ensures Mapped(m, [p, q]) == [Apply(m, p), Apply(m, q)]
  {
  }

  /** An unflagged rect adds `(x, y)` and `(x+w, y+h)` through the
      cumulative matrix, and nothing at all exactly when it is excluded:
      its `style` holds `fill-opacity: 0`, its `fill-opacity` is `"0"`, or
      it is at least 1000 wide and 1000 high. */
  lemma RectPoints(el: Element, parent: Matrix, local: Matrix, x: real, y: real, w: real, h: real)
    requires EndsWith(el.tag, "rect") && !IsBackgroundLogo(el.attrs)
    requires ParseTransform(Get(el.attrs, "transform")) == Ok(local)
    requires FloatAttr(el.attrs, "x") == Ok(x) && FloatAttr(el.attrs, "y") == Ok(y)
    requires FloatAttr(el.attrs, "width") == Ok(w) && FloatAttr(el.attrs, "height") == Ok(h)
    ensures Contributions(el, parent, false) == Ok(
      if Text.Contains(GetOr(el.attrs, "style", ""), "fill-opacity: 0") || Get(el.attrs, "fill-opacity") == Some("0")
        || (w >= 1000.0 && h >= 1000.0)
      then []
      else [Apply(Multiply(parent, local), Point(x, y)), Apply(Multiply(parent, local), Point(x + w, y + h))])
  {
    TagKinds(el.tag);
    assert FillOpacity(el.attrs) == "0" <==> Get(el.attrs, "fill-opacity") == Some("0");
    var corners := [Point(x, y), Point(x + w, y + h)];
    OwnIsRect(el.tag, el.attrs);
    RectCornersOf(el.attrs, x, y, w, h);
    if !RectExcluded(el.attrs, w, h) {
      MappedPair(Multiply(parent, local), corners[0], corners[1]);
    }
  }

  lemma OwnIsRect(tag: string, attrs: map<string, string>)
    requires EndsWith(tag, "rect")
    ensures OwnPoints(tag, attrs, false) == RectCorners(attrs)
  {
    TagKinds(tag);
  }

  lemma RectCornersOf(attrs: map<string, string>, x: real, y: real, w: real, h: real)
    requires FloatAttr(attrs, "x") == Ok(x) && FloatAttr(attrs, "y") == Ok(y)
    requires FloatAttr(attrs, "width") == Ok(w) && FloatAttr(attrs, "height") == Ok(h)
    ensures RectCorners(attrs) == Ok(if RectExcluded(attrs, w, h) then [] else [Point(x, y), Point(x + w, y + h)])
  {
  }

  /** A flagged path or rect adds no point. */
  lemma FlaggedPathOrRect(el: Element, parent: Matrix)
    requires EndsWith(el.tag, "path") || EndsWith(el.tag, "rect")
    ensures Contributions(el, parent, true).Ok? ==> Contributions(el, parent, true).value == []
  {
    TagKinds(el.tag);
  }
}
