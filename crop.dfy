/** `apply_crop`: the crop planned from the box of the document and, when
    applied in place, the edit of the root element: its background children
    removed and its `viewBox`, `width`, `height` and `class` rewritten. */
module Crop {
  import opened Wrappers
  import opened Text
  import opened Numbers
  import opened Affine
  import opened Boxes
  import opened Walker

  /* ---- the plan ---- */

  /** The suggested viewBox `(left, top, width, height)`. */
  datatype Plan = Plan(left: real, top: real, width: real, height: real)

  /** The rectangle a plan frames. */
  function Frame(p: Plan): Box {
    Box(p.left, p.top, p.left + p.width, p.top + p.height)
  }

  /** No plan for an empty box (the tool skips the file); otherwise the box
      grown by `margin` on every side. */
  function PlanCrop(b: Box, margin: real): (p: Option<Plan>)
    ensures p.None? <==> b.Empty?
    ensures p.Some? ==> Frame(p.value) == Box(b.minX - margin, b.minY - margin, b.maxX + margin, b.maxY + margin)
  {
    match b
    case Empty => None
    case Box(x0, y0, x1, y1) => Some(Plan(x0 - margin, y0 - margin, x1 - x0 + 2.0 * margin, y1 - y0 + 2.0 * margin))
  }

  /** A margin that is not negative frames the whole box, with a well-formed
      frame. */
  lemma PlanContains(b: Box, margin: real)
    requires WellFormed(b) && b.Box? && margin >= 0.0
    ensures WellFormed(Frame(PlanCrop(b, margin).value))
    ensures Within(b, Frame(PlanCrop(b, margin).value))
  {
    var f := Frame(PlanCrop(b, margin).value);
    assert f.minX <= b.minX && b.maxX <= f.maxX;
  }

  /** The suggestion `apply_crop` returns for the document `root`: `Err`
      when the walk raises, `None` when nothing contributes. */
  function Suggested(root: Element, margin: real): Result<Option<Plan>> {
    match BoxOf(Contributions(root, Identity, false))
    case Err(e) => Err(e)
    case Ok(b) => Ok(PlanCrop(b, margin))
  }

  /** The tool skips the file exactly when no point contributes, and with a
      margin that is not negative the suggested frame holds every point that
      does. */
  lemma SuggestedFrames(root: Element, margin: real)
    requires margin >= 0.0 && Suggested(root, margin).Ok?
    ensures Suggested(root, margin).value.None? <==> Contributions(root, Identity, false).value == []
    ensures Suggested(root, margin).value.Some? ==>
      forall q :: q in Contributions(root, Identity, false).value ==> Boxes.Contains(Frame(Suggested(root, margin).value.value), q)
  {
    var ps := Contributions(root, Identity, false).value;
    var b := Bound(ps);
    if ps != [] {
      PlanContains(b, margin);
      var f := Frame(PlanCrop(b, margin).value);
      forall q | q in ps
        ensures Boxes.Contains(f, q)
      {
        var i :| 0 <= i < |ps| && ps[i] == q;
        assert Boxes.Contains(b, ps[i]);
      }
    }
  }

  /* ---- the background children ---- */

  /** `float()` of `width` and `height` (each `'0'` when absent), both zero
      when either raises. */
  function RemovalSize(attrs: map<string, string>): (real, real) {
    match (FloatAttr(attrs, "width"), FloatAttr(attrs, "height"))
    case (Ok(w), Ok(h)) => (w, h)
    case _ => (0.0, 0.0)
  }

  /** A top-level child the in-place edit removes: a `background-logo`
      group, or a rect more than 1000 wide or more than 1000 high. */
  predicate IsBackgroundArtifact(child: Element) {
    (EndsWith(child.tag, "g") && IsBackgroundLogo(child.attrs))
    || (EndsWith(child.tag, "rect") && (RemovalSize(child.attrs).0 > 1000.0 || RemovalSize(child.attrs).1 > 1000.0))
  }

  /** The children of `cs` that `gone` does not pick, in their order. */
  function Kept(cs: seq<Element>, gone: Element -> bool): (ks: seq<Element>)
    ensures |ks| <= |cs|
  {
    if cs == [] then [] else (if gone(cs[0]) then [] else [cs[0]]) + Kept(cs[1..], gone)
  }

  /** The children of `cs` that `gone` picks, in their order. */
  function Gone(cs: seq<Element>, gone: Element -> bool): (rs: seq<Element>)
    ensures |rs| + |Kept(cs, gone)| == |cs|
  {
    if cs == [] then [] else (if gone(cs[0]) then [cs[0]] else []) + Gone(cs[1..], gone)
  }

  /** The children that stay after the in-place edit. */
  function Survivors(cs: seq<Element>): seq<Element> {
    Kept(cs, IsBackgroundArtifact)
  }

  /** `to_remove`: the children the in-place edit removes. */
  function Artifacts(cs: seq<Element>): seq<Element> {
    Gone(cs, IsBackgroundArtifact)
  }

  /** A child is kept exactly when it is not picked. */
  lemma {:induction false} KeptMembers(cs: seq<Element>, gone: Element -> bool, c: Element)
    ensures c in Kept(cs, gone) <==> c in cs && !gone(c)
  {
    if cs != [] {
      KeptMembers(cs[1..], gone, c);
      assert cs == [cs[0]] + cs[1..];
    }
  }

  /** Filtering is done child by child: it keeps the order of what stays
      and of what goes. */
  lemma {:induction false} KeptConcat(cs: seq<Element>, ds: seq<Element>, gone: Element -> bool)
    ensures Kept(cs + ds, gone) == Kept(cs, gone) + Kept(ds, gone)
    ensures Gone(cs + ds, gone) == Gone(cs, gone) + Gone(ds, gone)
  {
    if cs == [] {
      assert cs + ds == ds;
    } else {
      var c, tail := cs[0], cs[1..];
      assert cs + ds == [c] + (tail + ds) && cs == [c] + tail;
      KeptConcat(tail, ds, gone);
      HeadFiltered(c, tail + ds, gone);
      HeadFiltered(c, tail, gone);
      var k := if gone(c) then [] else [c];
      ConcatAssociates(k, Kept(tail, gone), Kept(ds, gone));
      var g := if gone(c) then [c] else [];
      ConcatAssociates(g, Gone(tail, gone), Gone(ds, gone));
    }
  }

  /** Concatenation of child lists is associative. */
  lemma ConcatAssociates(a: seq<Element>, b: seq<Element>, c: seq<Element>)
    ensures a + (b + c) == (a + b) + c
  {
  }

  /** One step of the filter. */
  lemma HeadFiltered(c: Element, rest: seq<Element>, gone: Element -> bool)
    ensures Kept([c] + rest, gone) == (if gone(c) then [] else [c]) + Kept(rest, gone)
    ensures Gone([c] + rest, gone) == (if gone(c) then [c] else []) + Gone(rest, gone)
  {
    assert ([c] + rest)[1..] == rest;
  }

  /** Filtering a second time removes nothing. */
  lemma {:induction false} KeptIdempotent(cs: seq<Element>, gone: Element -> bool)
    ensures Kept(Kept(cs, gone), gone) == Kept(cs, gone)
  {
    if cs != [] {
      KeptIdempotent(cs[1..], gone);
      var head := if gone(cs[0]) then [] else [cs[0]];
      KeptConcat(head, Kept(cs[1..], gone), gone);
      if !gone(cs[0]) {
        assert Kept(head, gone) == head by {
          assert head[1..] == [];
        }
      }
    }
  }

  /** `list.remove(x)`: the list without the first child equal to `x`. */
  function RemoveFirst(cs: seq<Element>, x: Element): (ks: seq<Element>)
    ensures x in cs ==> |ks| == |cs| - 1
    ensures x !in cs ==> ks == cs
  {
    if cs == [] then []
    else if cs[0] == x then cs[1..]
    else [cs[0]] + RemoveFirst(cs[1..], x)
  }

  /** The children with the first `k` of the picked ones removed: the state
      after `k` turns of the removal loop. */
  function DropFirst(cs: seq<Element>, gone: Element -> bool, k: nat): seq<Element> {
    if cs == [] then []
    else if gone(cs[0]) && k > 0 then DropFirst(cs[1..], gone, k - 1)
    else [cs[0]] + DropFirst(cs[1..], gone, k)
  }

  /** Nothing dropped is the list itself. */
  lemma {:induction false} DropNone(cs: seq<Element>, gone: Element -> bool)
    ensures DropFirst(cs, gone, 0) == cs
  {
    if cs != [] {
      DropNone(cs[1..], gone);
    }
  }

  /** Every picked child dropped leaves the kept ones. */
  lemma {:induction false} DropAll(cs: seq<Element>, gone: Element -> bool)
    ensures DropFirst(cs, gone, |Gone(cs, gone)|) == Kept(cs, gone)
  {
    if cs != [] {
      DropAll(cs[1..], gone);
    }
  }

  /** What `Gone` lists is picked. */
  lemma {:induction false} GoneArePicked(cs: seq<Element>, gone: Element -> bool, k: nat)
    requires k < |Gone(cs, gone)|
    ensures gone(Gone(cs, gone)[k])
  {
    if !gone(cs[0]) || k > 0 {
      GoneArePicked(cs[1..], gone, if gone(cs[0]) then k - 1 else k);
    }
  }

  /** Removing the next picked child removes its first remaining
      occurrence: every child ahead of it is either gone already or not
      picked, so not equal to it. */
  lemma {:induction false} RemoveNext(cs: seq<Element>, gone: Element -> bool, k: nat)
    requires k < |Gone(cs, gone)|
    ensures RemoveFirst(DropFirst(cs, gone, k), Gone(cs, gone)[k]) == DropFirst(cs, gone, k + 1)
  {
    var rest := cs[1..];
    if gone(cs[0]) {
      if k > 0 {
        RemoveNext(rest, gone, k - 1);
      } else {
        DropNone(cs, gone);
        DropNone(rest, gone);
      }
    } else {
      RemoveNext(rest, gone, k);
      var x := Gone(cs, gone)[k];
      assert x == Gone(rest, gone)[k];
      GoneArePicked(rest, gone, k);
      assert cs[0] != x;
    }
  }

  /** The next picked child is still among the children after the first
      `k` are removed, so `root.remove` finds it. */
  lemma {:induction false} NextPresent(cs: seq<Element>, gone: Element -> bool, k: nat)
    requires k < |Gone(cs, gone)|
    ensures Gone(cs, gone)[k] in DropFirst(cs, gone, k)
  {
    var rest := cs[1..];
    if gone(cs[0]) {
      if k > 0 {
        NextPresent(rest, gone, k - 1);
      }
    } else {
      NextPresent(rest, gone, k);
    }
  }

  /** One more child of the first pass. */
  lemma GoneStep(cs: seq<Element>, gone: Element -> bool, i: nat)
    requires i < |cs|
    ensures Gone(cs[..i + 1], gone) == Gone(cs[..i], gone) + (if gone(cs[i]) then [cs[i]] else [])
  {
    assert cs[..i + 1] == cs[..i] + [cs[i]];
    KeptConcat(cs[..i], [cs[i]], gone);
  }

  /* ---- the attributes written ---- */

  /** `f"{left:.4f} {top:.4f} {width:.4f} {height:.4f}"` */
  function ViewBoxText(p: Plan): string {
    Join([FixedPoint4(p.left), FixedPoint4(p.top), FixedPoint4(p.width), FixedPoint4(p.height)], " ")
  }

  /** `width` and `height` as the in-place edit leaves them: the rounded-up
      size, or `'100%'` (percent mode), or deleted (remove mode), or kept
      (any other responsive mode). */
  function SizedAttrs(attrs: map<string, string>, p: Plan, responsive: bool, mode: string): map<string, string> {
    if !responsive then attrs["width" := IntToString(Ceil(p.width))]["height" := IntToString(Ceil(p.height))]
    else if mode == "percent" then attrs["width" := "100%"]["height" := "100%"]
    else if mode == "remove" then attrs - {"width", "height"}
    else attrs
  }

  /** The root's attributes after the in-place edit: the new `viewBox`, the
      size as `SizedAttrs` leaves it, and `class` when a non-empty class
      name is given. */
  function CroppedAttrs(attrs: map<string, string>, p: Plan, responsive: bool, mode: string, className: Option<string>): map<string, string> {
    var sized := SizedAttrs(attrs["viewBox" := ViewBoxText(p)], p, responsive, mode);
    if className.Some? && className.value != [] then sized["class" := className.value] else sized
  }

  /** The root after the in-place edit. */
  function Cropped(root: Element, p: Plan, responsive: bool, mode: string, className: Option<string>): Element {
    Element(root.tag, CroppedAttrs(root.attrs, p, responsive, mode, className), Survivors(root.children))
  }

  /** What the edit leaves in each attribute, and that it leaves every
      other attribute as it was. */
  lemma CroppedAttrsMeaning(attrs: map<string, string>, p: Plan, responsive: bool, mode: string, className: Option<string>)
    ensures var a := CroppedAttrs(attrs, p, responsive, mode, className);
      && Get(a, "viewBox") == Some(ViewBoxText(p))
      && (!responsive ==> Get(a, "width") == Some(IntToString(Ceil(p.width))) && Get(a, "height") == Some(IntToString(Ceil(p.height))))
      && (responsive && mode == "percent" ==> Get(a, "width") == Some("100%") && Get(a, "height") == Some("100%"))
      && (responsive && mode == "remove" ==> Get(a, "width").None? && Get(a, "height").None?)
      && (responsive && mode != "percent" && mode != "remove" ==> Get(a, "width") == Get(attrs, "width") && Get(a, "height") == Get(attrs, "height"))
      && Get(a, "class") == (if className.Some? && className.value != [] then className else Get(attrs, "class"))
      && forall key :: key !in {"viewBox", "width", "height", "class"} ==> Get(a, key) == Get(attrs, key)
  {
  }

  /* ---- the root, edited in place ---- */

  /** The document's root element, the one element the edit changes. */
  class SvgRoot {
    var tag: string
    var attrs: map<string, string>
    var children: seq<Element>

    constructor (el: Element)
      ensures Snapshot() == el
    {
      tag := el.tag;
      attrs := el.attrs;
      children := el.children;
    }

    /** The root as an element value, as the file would hold it. */
    function Snapshot(): Element
      reads this
    {
      Element(tag, attrs, children)
    }

    /** `root.set(key, value)` */
    method Set(key: string, value: string)
      modifies this
      ensures attrs == old(attrs)[key := value]
      ensures tag == old(tag) && children == old(children)
    {
      attrs := attrs[key := value];
    }

    /** `del root.attrib[key]` */
    method Delete(key: string)
      requires key in attrs
      modifies this
      ensures attrs == old(attrs) - {key}
      ensures tag == old(tag) && children == old(children)
    {
      attrs := attrs - {key};
    }

    /** `root.remove(child)`, which raises unless `child` is one of the
        children. */
    method Remove(child: Element)
      requires child in children
      modifies this
      ensures children == RemoveFirst(old(children), child)
      ensures tag == old(tag) && attrs == old(attrs)
    {
      children := RemoveFirst(children, child);
    }

    /** The removal of the background children: `to_remove` is gathered in
        a first pass over `list(root)`, then each is removed in turn. */
    method RemoveBackgroundChildren()
      modifies this
      ensures children == Survivors(old(children))
      ensures tag == old(tag) && attrs == old(attrs)
    {
      var original := children;
      var toRemove: seq<Element> := [];
      for i := 0 to |original|
        invariant toRemove == Artifacts(original[..i])
        invariant children == original && tag == old(tag) && attrs == old(attrs)
      {
        var child := original[i];
        if EndsWith(child.tag, "g") && IsBackgroundLogo(child.attrs) {
          toRemove := toRemove + [child];
        } else if EndsWith(child.tag, "rect") {
          var w, h := 0.0, 0.0;
          var rw, rh := FloatAttr(child.attrs, "width"), FloatAttr(child.attrs, "height");
          if rw.Ok? && rh.Ok? {
            w, h := rw.value, rh.value;
          }
          if w > 1000.0 || h > 1000.0 {
            toRemove := toRemove + [child];
          }
        }
        GoneStep(original, IsBackgroundArtifact, i);
      }
      assert original[..|original|] == original;
      DropNone(original, IsBackgroundArtifact);
      for k := 0 to |toRemove|
        invariant children == DropFirst(original, IsBackgroundArtifact, k)
        invariant tag == old(tag) && attrs == old(attrs)
      {
        NextPresent(original, IsBackgroundArtifact, k);
        RemoveNext(original, IsBackgroundArtifact, k);
        Remove(toRemove[k]);
      }
      DropAll(original, IsBackgroundArtifact);
    }

    /** The attribute edits of the in-place crop to plan `p`. */
    method Reframe(p: Plan, responsive: bool, responsiveMode: string, className: Option<string>)
      modifies this
      ensures attrs == CroppedAttrs(old(attrs), p, responsive, responsiveMode, className)
      ensures tag == old(tag) && children == old(children)
    {
      Set("viewBox", ViewBoxText(p));
      Resize(p, responsive, responsiveMode);
      if className.Some? && className.value != [] {
        Set("class", className.value);
      }
    }

    /** The `width` and `height` edits. */
    method Resize(p: Plan, responsive: bool, responsiveMode: string)
      modifies this
      ensures attrs == SizedAttrs(old(attrs), p, responsive, responsiveMode)
      ensures tag == old(tag) && children == old(children)
    {
      if responsive {
        if responsiveMode == "percent" {
          Set("width", "100%");
          Set("height", "100%");
        } else if responsiveMode == "remove" {
          if "width" in attrs {
            Delete("width");
          }
          if "height" in attrs {
            Delete("height");
          }
        }
      } else {
        Set("width", IntToString(Ceil(p.width)));
        Set("height", IntToString(Ceil(p.height)));
      }
    }

    /** `apply_crop(svg_path, margin, inplace=..., responsive=...,
        class_name=..., responsive_mode=...)`, from the crop planning on. */
    method ApplyCrop(margin: real, inplace: bool, responsive: bool, className: Option<string>, responsiveMode: string)
      returns (r: Result<Option<Plan>>)
      modifies this
      ensures r == Suggested(old(Snapshot()), margin)
      ensures Snapshot() == if inplace && r.Ok? && r.value.Some?
        then Cropped(old(Snapshot()), r.value.value, responsive, responsiveMode, className)
        else old(Snapshot())
    {
      var bbox :- ComputeSvgBBox(Snapshot());
      var plan := PlanCrop(bbox, margin);
      if plan.None? {
        return Ok(None);
      }
      var p := plan.value;
      if inplace {
        RemoveBackgroundChildren();
        Reframe(p, responsive, responsiveMode, className);
      }
      return Ok(Some(p));
    }

    /** The `apply_crop` of the single-file version of the tool: the same
        plan and removal, then `viewBox` and the rounded-up `width` and
        `height`, with no responsive mode and no class. */
    method ApplyCropReduced(margin: real, inplace: bool) returns (r: Result<Option<Plan>>)
      modifies this
      ensures r == Suggested(old(Snapshot()), margin)
      ensures Snapshot() == if inplace && r.Ok? && r.value.Some?
        then Cropped(old(Snapshot()), r.value.value, false, "", None)
        else old(Snapshot())
    {
      var bbox :- ComputeSvgBBox(Snapshot());
      var plan := PlanCrop(bbox, margin);
      if plan.None? {
        return Ok(None);
      }
      var p := plan.value;
      if inplace {
        RemoveBackgroundChildren();
        Reframe(p, false, "", None);
      }
      return Ok(Some(p));
    }
  }
}
