/** `verify_file`: whether the artwork of a document lies inside its
    viewBox, and whether its size attributes and class are as requested. */
module Verify {
  import opened Wrappers
  import opened Text
  import opened Numbers
  import opened Affine
  import opened Boxes
  import opened Transform
  import opened Walker
  import opened Crop

  /** `x, y, w, h = [float(x) for x in vb.strip().split()]`: every part is
      read first, then exactly four are unpacked. */
  function ViewBoxNumbers(vb: string): (r: Result<seq<real>>)
    ensures r.Ok? ==> |r.value| == 4
  {
    var ns :- ParseAll(Fields(Strip(vb), Whitespace));
    if |ns| == 4 then Ok(ns) else Err(ViewBoxArity(|ns|))
  }

  /** No edge of the box lies more than `eps` outside the viewBox
      `(x, y, w, h)`. The empty box (the sentinel, whose comparisons are all
      false) passes. */
  predicate GeometryOk(b: Box, vb: seq<real>, eps: real)
    requires |vb| == 4
  {
    b.Box? ==> !(b.minX < vb[0] - eps || b.minY < vb[1] - eps || b.maxX > vb[0] + vb[2] + eps || b.maxY > vb[1] + vb[3] + eps)
  }

  /** An attribute value Python treats as true: present and not empty. */
  predicate Truthy(v: Option<string>) {
    v.Some? && v.value != []
  }

  /** The size test. With responsiveness required, percent mode (or no mode)
      wants `width` and `height` absent, empty or `'100%'`, and remove mode
      wants both absent; with it ruled out, both must be present and not
      empty; with no requirement anything passes. */
  predicate ResponsiveOk(attrs: map<string, string>, requireResponsive: Option<bool>, mode: Option<string>) {
    var width, height := Get(attrs, "width"), Get(attrs, "height");
    match requireResponsive
    case None => true
    case Some(required) =>
      if required then
        if mode.None? || mode == Some("percent") then
          (!Truthy(width) || width.value == "100%") && (!Truthy(height) || height.value == "100%")
        else if mode == Some("remove") then "width" !in attrs && "height" !in attrs
        else true
      else Truthy(width) && Truthy(height)
  }

  /** `root.get('class') or ''` */
  function ClassText(attrs: map<string, string>): string {
    match Get(attrs, "class")
    case Some(c) => c
    case None => ""
  }

  /** The class test as written: `expected_class in cls.split()`. */
  predicate ClassListed(attrs: map<string, string>, expected: string) {
    expected in Fields(ClassText(attrs), Whitespace)
  }

  /** The class test as intended: each of the space-separated classes asked
      for is one of the root's classes. */
  predicate ClassesListed(attrs: map<string, string>, expected: string) {
    forall w :: w in Fields(expected, Whitespace) ==> w in Fields(ClassText(attrs), Whitespace)
  }

  /** Which class test is applied: the one `verify_file` makes, or the one
      its command line evidently means. */
  datatype ClassRule = AsWritten | Intended

  predicate ClassOk(rule: ClassRule, attrs: map<string, string>, expected: string) {
    match rule
    case AsWritten => ClassListed(attrs, expected)
    case Intended => ClassesListed(attrs, expected)
  }

  /** The three tests `verify_file` makes once the viewBox `ns` is read and
      the box `b` computed, with the class test `rule`. */
  predicate Passes(b: Box, ns: seq<real>, attrs: map<string, string>, eps: real, requireResponsive: Option<bool>,
                   expectedClass: Option<string>, mode: Option<string>, rule: ClassRule)
    requires |ns| == 4
  {
    GeometryOk(b, ns, eps) && ResponsiveOk(attrs, requireResponsive, mode)
    && (expectedClass.None? || ClassOk(rule, attrs, expectedClass.value))
  }

  /** What `verify_file` decides for the document `root`: `false` without a
      viewBox; `Err` when the viewBox or the walk raises; otherwise whether
      the three tests pass. The program itself is `rule == AsWritten`. */
  function VerifyOutcome(root: Element, eps: real, requireResponsive: Option<bool>, expectedClass: Option<string>, mode: Option<string>,
                         rule: ClassRule): Result<bool> {
    var vb := Get(root.attrs, "viewBox");
    if !Truthy(vb) then Ok(false)
    else
      var ns :- ViewBoxNumbers(vb.value);
      var b :- BoxOf(Contributions(root, Identity, false));
      Ok(Passes(b, ns, root.attrs, eps, requireResponsive, expectedClass, mode, rule))
  }

  /** `verify_file`: the viewBox read, the box computed, then the tests;
      `VerifyFile(.., AsWritten)` is the program as it stands. */
  method VerifyFile(root: Element, eps: real, requireResponsive: Option<bool>, expectedClass: Option<string>, mode: Option<string>,
                    rule: ClassRule)
    returns (r: Result<bool>)
    ensures r == VerifyOutcome(root, eps, requireResponsive, expectedClass, mode, rule)
  {
    var vb := Get(root.attrs, "viewBox");
    if !Truthy(vb) {
      return Ok(false);
    }
    var ns :- ViewBoxNumbers(vb.value);
    var bbox :- ComputeSvgBBox(root);
    var ok := Tests(bbox, ns, root.attrs, eps, requireResponsive, expectedClass, mode, rule);
    return Ok(ok);
  }

  /** The tests, each failed one clearing `ok`. */
  method Tests(bbox: Box, ns: seq<real>, attrs: map<string, string>, eps: real, requireResponsive: Option<bool>,
               expectedClass: Option<string>, mode: Option<string>, rule: ClassRule) returns (ok: bool)
    requires |ns| == 4
    ensures ok == Passes(bbox, ns, attrs, eps, requireResponsive, expectedClass, mode, rule)
  {
    var x, y, w, h := ns[0], ns[1], ns[2], ns[3];
    ok := true;
    if bbox.Box? && (bbox.minX < x - eps || bbox.minY < y - eps || bbox.maxX > x + w + eps || bbox.maxY > y + h + eps) {
      ok := false;
    }
    if requireResponsive.Some? {
      var width, height := Get(attrs, "width"), Get(attrs, "height");
      if requireResponsive.value {
        if mode == Some("percent") || mode.None? {
          if Truthy(width) && width.value != "100%" {
            ok := false;
          }
          if Truthy(height) && height.value != "100%" {
            ok := false;
          }
        } else if mode == Some("remove") {
          if "width" in attrs || "height" in attrs {
            ok := false;
          }
        }
      } else if !Truthy(width) || !Truthy(height) {
        ok := false;
      }
    }
    if expectedClass.Some? && !ClassOk(rule, attrs, expectedClass.value) {
      ok := false;
    }
  }

  /* ---- what the decision promises ---- */

  /** Without a viewBox the answer is `false`. */
  lemma NoViewBoxFails(root: Element, eps: real, requireResponsive: Option<bool>, expectedClass: Option<string>, mode: Option<string>,
                       rule: ClassRule)
    requires !Truthy(Get(root.attrs, "viewBox"))
    ensures VerifyOutcome(root, eps, requireResponsive, expectedClass, mode, rule) == Ok(false)
  {
  }

  /** The cases the tests fail: a box beyond the viewBox by more than
      `eps`, a size that does not match the responsive requirement, or a
      class asked for that the root does not have: as written, a name that
      is not one of the words of the root's class; as intended, a word of
      the name that is not. */
  lemma TestFailures(b: Box, ns: seq<real>, attrs: map<string, string>, eps: real, requireResponsive: Option<bool>,
                     expectedClass: Option<string>, mode: Option<string>, rule: ClassRule)
    requires |ns| == 4
    ensures b.Box? && (b.minX < ns[0] - eps || b.minY < ns[1] - eps || b.maxX > ns[0] + ns[2] + eps || b.maxY > ns[1] + ns[3] + eps)
      ==> !Passes(b, ns, attrs, eps, requireResponsive, expectedClass, mode, rule)
    ensures requireResponsive == Some(true) && (mode.None? || mode == Some("percent"))
      && ((Truthy(Get(attrs, "width")) && Get(attrs, "width") != Some("100%"))
          || (Truthy(Get(attrs, "height")) && Get(attrs, "height") != Some("100%")))
      ==> !Passes(b, ns, attrs, eps, requireResponsive, expectedClass, mode, rule)
    ensures requireResponsive == Some(true) && mode == Some("remove") && ("width" in attrs || "height" in attrs)
      ==> !Passes(b, ns, attrs, eps, requireResponsive, expectedClass, mode, rule)
    ensures requireResponsive == Some(false) && (!Truthy(Get(attrs, "width")) || !Truthy(Get(attrs, "height")))
      ==> !Passes(b, ns, attrs, eps, requireResponsive, expectedClass, mode, rule)
    ensures rule == AsWritten && expectedClass.Some? && expectedClass.value !in Fields(ClassText(attrs), Whitespace)
      ==> !Passes(b, ns, attrs, eps, requireResponsive, expectedClass, mode, rule)
    ensures rule == Intended && expectedClass.Some?
      && (exists w :: w in Fields(expectedClass.value, Whitespace) && w !in Fields(ClassText(attrs), Whitespace))
      ==> !Passes(b, ns, attrs, eps, requireResponsive, expectedClass, mode, rule)
  {
  }

  /** The box of a document without contributing points passes the
      geometry test against any viewBox. */
  lemma EmptyBoxPasses(vb: seq<real>, eps: real)
    requires |vb| == 4
    ensures GeometryOk(Empty, vb, eps)
  {
  }

  /** Numerals joined with single spaces read back, through `strip()`,
      `split()` and `float()`, as the numbers they denote. */
  lemma NumeralsRead(ts: seq<string>, rs: seq<real>)
    requires |ts| == |rs| == 4
    requires Numeral(ts[0]) && ParseFloat(ts[0]) == Some(rs[0]) && Numeral(ts[1]) && ParseFloat(ts[1]) == Some(rs[1])
    requires Numeral(ts[2]) && ParseFloat(ts[2]) == Some(rs[2]) && Numeral(ts[3]) && ParseFloat(ts[3]) == Some(rs[3])
    ensures Truthy(Some(Join(ts, " ")))
    ensures ViewBoxNumbers(Join(ts, " ")) == Ok(rs)
  {
    assert forall i :: 0 <= i < 4 ==> Numeral(ts[i]) && ParseFloat(ts[i]) == Some(rs[i]) by {
      forall i | 0 <= i < 4
        ensures Numeral(ts[i]) && ParseFloat(ts[i]) == Some(rs[i])
      {
        if i == 0 {} else if i == 1 {} else if i == 2 {} else {}
      }
    }
    forall i, k | 0 <= i < 4 && 0 <= k < |ts[i]|
      ensures !IsDelimiter(Whitespace, ts[i][k])
    {
      NotSpace(ts[i][k]);
    }
    JoinEnds(ts, " ");
    var s := Join(ts, " ");
    NotSpace(s[0]);
    NotSpace(s[|s| - 1]);
    StripUnchanged(s);
    FieldsJoin(ts, " ", Whitespace);
    ParseAllExact(ts, rs);
  }

  /** The viewBox the in-place crop writes reads back as the plan rounded
      to four decimals. */
  lemma ViewBoxRoundTrip(p: Plan)
    ensures Truthy(Some(ViewBoxText(p)))
    ensures ViewBoxNumbers(ViewBoxText(p)) == Ok([Rounded4(p.left), Rounded4(p.top), Rounded4(p.width), Rounded4(p.height)])
  {
    FixedPoint4Numeral(p.left);
    FixedPoint4Numeral(p.top);
    FixedPoint4Numeral(p.width);
    FixedPoint4Numeral(p.height);
    NumeralsRead([FixedPoint4(p.left), FixedPoint4(p.top), FixedPoint4(p.width), FixedPoint4(p.height)],
      [Rounded4(p.left), Rounded4(p.top), Rounded4(p.width), Rounded4(p.height)]);
  }

  /** A box within the margin-grown frame of a plan (margin not negative)
      passes the geometry test against the viewBox written for the plan,
      with `eps` at least the `1e-4` the tool uses. */
  lemma RoundedFrameHolds(b: Box, p: Plan, margin: real, c: Box, eps: real)
    requires b.Box? && PlanCrop(b, margin) == Some(p) && margin >= 0.0 && eps >= 0.0001
    requires Within(c, b)
    ensures GeometryOk(c, [Rounded4(p.left), Rounded4(p.top), Rounded4(p.width), Rounded4(p.height)], eps)
  {
    var l, t, w, h := Rounded4(p.left), Rounded4(p.top), Rounded4(p.width), Rounded4(p.height);
    assert p.left - 0.00005 <= l <= p.left + 0.00005 && p.top - 0.00005 <= t <= p.top + 0.00005;
    assert p.width - 0.00005 <= w && p.height - 0.00005 <= h;
  }

  /** After the in-place edit the walk of a container root still succeeds,
      and its box is within the box planned from. */
  lemma CroppedBoxWithin(root: Element, margin: real, responsive: bool, mode: string, className: Option<string>, p: Plan)
    requires IsContainer(root.tag)
    requires Suggested(root, margin) == Ok(Some(p))
    ensures var after := Cropped(root, p, responsive, mode, className);
      Contributions(after, Identity, false).Ok?
      && Within(Bound(Contributions(after, Identity, false).value), Bound(Contributions(root, Identity, false).value))
  {
    var after := Cropped(root, p, responsive, mode, className);
    CroppedAttrsMeaning(root.attrs, p, responsive, mode, className);
    forall c | c in Survivors(root.children)
      ensures c in root.children
    {
      KeptMembers(root.children, IsBackgroundArtifact, c);
    }
    PruneChildren(root, after.attrs, after.children, Identity, false);
    BoundSubset(Contributions(after, Identity, false).value, Contributions(root, Identity, false).value);
  }

  /** The size and class the in-place edit writes pass the size and class
      tests as the command line asks for them after `--apply`. */
  lemma CroppedAttrsPass(attrs: map<string, string>, p: Plan, responsive: bool, mode: string, className: Option<string>)
    ensures var a := CroppedAttrs(attrs, p, responsive, mode, className);
      ResponsiveOk(a, if responsive then Some(true) else None, if responsive then Some(mode) else None)
      && (className.None? || ClassesListed(a, className.value))
  {
    var a := CroppedAttrs(attrs, p, responsive, mode, className);
    CroppedAttrsMeaning(attrs, p, responsive, mode, className);
    if className.Some? && className.value != [] {
      assert ClassText(a) == className.value;
    }
  }

  /** `verify_file`'s answer once the viewBox has read as `ns` and the walk
      has given the box `b`. */
  lemma OutcomeOfParts(root: Element, eps: real, requireResponsive: Option<bool>, expectedClass: Option<string>, mode: Option<string>,
                       rule: ClassRule, ns: seq<real>, b: Box)
    requires Truthy(Get(root.attrs, "viewBox"))
    requires ViewBoxNumbers(Get(root.attrs, "viewBox").value) == Ok(ns)
    requires BoxOf(Contributions(root, Identity, false)) == Ok(b)
    ensures |ns| == 4
    ensures VerifyOutcome(root, eps, requireResponsive, expectedClass, mode, rule)
      == Ok(Passes(b, ns, root.attrs, eps, requireResponsive, expectedClass, mode, rule))
  {
  }

  /** After the in-place edit of a container root planned with a margin
      that is not negative, the geometry and size tests pass under either
      class test, so the answer is the class test alone. */
  lemma CroppedOutcome(root: Element, margin: real, eps: real, responsive: bool, mode: string, className: Option<string>, p: Plan,
                       rule: ClassRule)
    requires IsContainer(root.tag)
    requires Suggested(root, margin) == Ok(Some(p))
    requires margin >= 0.0 && eps >= 0.0001
    ensures VerifyOutcome(Cropped(root, p, responsive, mode, className), eps,
      if responsive then Some(true) else None, className, if responsive then Some(mode) else None, rule)
      == Ok(className.None? || ClassOk(rule, CroppedAttrs(root.attrs, p, responsive, mode, className), className.value))
  {
    var after := Cropped(root, p, responsive, mode, className);
    var ns := [Rounded4(p.left), Rounded4(p.top), Rounded4(p.width), Rounded4(p.height)];
    CroppedAttrsMeaning(root.attrs, p, responsive, mode, className);
    ViewBoxRoundTrip(p);
    CroppedBoxWithin(root, margin, responsive, mode, className, p);
    var before := Bound(Contributions(root, Identity, false).value);
    var now := Bound(Contributions(after, Identity, false).value);
    RoundedFrameHolds(before, p, margin, now, eps);
    CroppedAttrsPass(root.attrs, p, responsive, mode, className);
    OutcomeOfParts(after, eps, if responsive then Some(true) else None, className, if responsive then Some(mode) else None, rule, ns, now);
  }

  /** The crop followed by the check: a document whose root is a container
      (an `svg` or a `g`) and that the crop plans with a margin that is not
      negative, once edited in place, passes `verify_file` with the class
      test as intended, as the command line calls it after `--apply`, in
      every responsive mode and with any class name. */
  lemma CropThenVerify(root: Element, margin: real, eps: real, responsive: bool, mode: string, className: Option<string>, p: Plan)
    requires IsContainer(root.tag)
    requires Suggested(root, margin) == Ok(Some(p))
    requires margin >= 0.0 && eps >= 0.0001
    ensures VerifyOutcome(Cropped(root, p, responsive, mode, className), eps,
      if responsive then Some(true) else None, className, if responsive then Some(mode) else None, Intended) == Ok(true)
  {
    CroppedOutcome(root, margin, eps, responsive, mode, className, p, Intended);
    CroppedAttrsPass(root.attrs, p, responsive, mode, className);
  }

  /* ---- the class test as written ---- */

  /** The crop followed by `verify_file` as it stands: the edited document
      passes exactly when no class is asked for or the class name is a
      single word (not empty, no whitespace); a name of several words, an
      empty name or one with surrounding whitespace fails the class test
      although every other test passes. */
  lemma CropThenVerifyAsWritten(root: Element, margin: real, eps: real, responsive: bool, mode: string, className: Option<string>, p: Plan)
    requires IsContainer(root.tag)
    requires Suggested(root, margin) == Ok(Some(p))
    requires margin >= 0.0 && eps >= 0.0001
    ensures VerifyOutcome(Cropped(root, p, responsive, mode, className), eps,
      if responsive then Some(true) else None, className, if responsive then Some(mode) else None, AsWritten)
      == Ok(className.None? || IsField(Whitespace, className.value))
  {
    CroppedOutcome(root, margin, eps, responsive, mode, className, p, AsWritten);
    if className.Some? && IsField(Whitespace, className.value) {
      var c := className.value;
      CroppedClass(root.attrs, p, responsive, mode, c);
      FieldsCons(c, [], Whitespace);
      assert c + [] == c;
    }
  }

  /** For a single class name the test as written and the test as intended
      agree. */
  lemma ClassTestsAgree(attrs: map<string, string>, expected: string)
    requires expected != [] && forall k :: 0 <= k < |expected| ==> !IsSpace(expected[k])
    ensures ClassListed(attrs, expected) <==> ClassesListed(attrs, expected)
  {
    FieldsCons(expected, [], Whitespace);
    assert expected + [] == expected;
  }

  /** `"a b".split()`: the two-word class name `"a b"` is one such
      name. */
  lemma TwoWords()
    ensures Fields("a b", Whitespace) == ["a", "b"]
  {
    assert "a b" == "a" + " b";
    FieldsCons("a", " b", Whitespace);
    assert " b" == [' '] + "b";
    FieldsSkip(' ', "b", Whitespace);
    FieldsCons("b", [], Whitespace);
    assert "b" + [] == "b";
  }

  /** A class name of two or more words, which the command line accepts
      and the crop sets on the root, fails the test as written: the name
      holds whitespace, so it is none of the words of the root's class. The
      test as intended passes it. */
  lemma SeveralClassesMissed(attrs: map<string, string>, p: Plan, responsive: bool, mode: string, c: string)
    requires |Fields(c, Whitespace)| >= 2
    ensures var a := CroppedAttrs(attrs, p, responsive, mode, Some(c));
      !ClassListed(a, c) && ClassesListed(a, c)
  {
    if c != [] && forall k :: 0 <= k < |c| ==> !IsSpace(c[k]) {
      FieldsCons(c, [], Whitespace);
      assert false;
    }
    CroppedClass(attrs, p, responsive, mode, c);
  }

  /** A non-empty class name is the class the edit leaves. */
  lemma CroppedClass(attrs: map<string, string>, p: Plan, responsive: bool, mode: string, c: string)
    requires c != []
    ensures ClassText(CroppedAttrs(attrs, p, responsive, mode, Some(c))) == c
  {
    CroppedAttrsMeaning(attrs, p, responsive, mode, Some(c));
  }

  /** An empty class name is never listed by the test as written, though
      the crop, given it, rightly sets no class. */
  lemma EmptyClassMissed(attrs: map<string, string>)
    ensures !ClassListed(attrs, "") && ClassesListed(attrs, "")
  {
  }
}
