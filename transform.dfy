/** `parse_transform`: the reading of an element's `transform` attribute. Only
    a leading `matrix(...)` with six numbers and a leading `translate(...)`
    are understood; anything else is the identity. */
module Transform {
  import opened Wrappers
  import opened Text
  import opened Numbers
  import opened Affine

  /** Index just past the run of whitespace (`\s*`) that starts at `i`. */
  function SpacesEnd(t: string, i: nat): (j: nat)
    requires i <= |t|
    ensures i <= j <= |t|
    ensures forall k :: i <= k < j ==> IsSpace(t[k])
    ensures j == |t| || !IsSpace(t[j])
    decreases |t| - i
  {
    if i < |t| && IsSpace(t[i]) then SpacesEnd(t, i + 1) else i
  }

  /** Index of the first `)` at or after `i`, or `|t|` when there is none. */
  function CloseParen(t: string, i: nat): (j: nat)
    requires i <= |t|
    ensures i <= j <= |t|
    ensures forall k :: i <= k < j ==> t[k] != ')'
    ensures j == |t| || t[j] == ')'
    decreases |t| - i
  {
    if i < |t| && t[i] != ')' then CloseParen(t, i + 1) else i
  }

  /** `re.match(name + r'\s*\(([^)]+)\)', t)`: the argument text (group 1)
      when `t` starts with a call of `name`. The match is anchored at the
      start of `t` only, so whatever follows the closing parenthesis is
      ignored. */
  function MatchCall(t: string, name: string): (g: Option<string>)
    ensures g.Some? ==> StartsWith(t, name) && g.value != [] && ')' !in g.value
  {
    if !StartsWith(t, name) then None
    else
      var i := SpacesEnd(t, |name|);
      if i < |t| && t[i] == '(' then
        var j := CloseParen(t, i + 1);
        if i + 1 < j < |t| then Some(t[i + 1..j]) else None
      else None
  }

  /** `[float(p) for p in parts]`: the numbers in order, or the first part
      on which `float()` raises. */
  function ParseAll(parts: seq<string>): (r: Result<seq<real>>)
    ensures r.Ok? ==> |r.value| == |parts|
    ensures r.Err? ==> r.error.NotANumber? && r.error.text in parts
  {
    if parts == [] then Ok([])
    else
      match ParseFloat(parts[0])
      case None => Err(NotANumber(parts[0]))
      case Some(v) =>
        var rest := ParseAll(parts[1..]);
        if rest.Err? then Err(rest.error) else Ok([v] + rest.value)
  }

  /** The parts are all read exactly when each of them is a number, and then
      each reads as its own number. */
  lemma {:induction false} ParseAllMeaning(parts: seq<string>)
    ensures ParseAll(parts).Ok? <==> forall k :: 0 <= k < |parts| ==> ParseFloat(parts[k]).Some?
    ensures ParseAll(parts).Ok? ==> forall k :: 0 <= k < |parts| ==> Some(ParseAll(parts).value[k]) == ParseFloat(parts[k])
  {
    if parts != [] {
      ParseAllMeaning(parts[1..]);
      assert forall k :: 1 <= k < |parts| ==> parts[k] == parts[1..][k - 1];
    }
  }

  /** Reading parts that each denote a number gives those numbers. */
  lemma {:induction false} ParseAllExact(parts: seq<string>, rs: seq<real>)
    requires |parts| == |rs| && forall i :: 0 <= i < |parts| ==> ParseFloat(parts[i]) == Some(rs[i])
    ensures ParseAll(parts) == Ok(rs)
  {
    if parts != [] {
      assert ParseFloat(parts[0]) == Some(rs[0]);
      assert forall i :: 0 <= i < |parts| - 1 ==> parts[1..][i] == parts[i + 1] && rs[1..][i] == rs[i + 1];
      ParseAllExact(parts[1..], rs[1..]);
      assert rs == [rs[0]] + rs[1..];
    }
  }

  /** The numbers of a call's argument text: stripped, split on runs of
      commas and spaces, and each piece read with `float()`. */
  function Arguments(group: string): Result<seq<real>> {
    ParseAll(Fields(Strip(group), CommaOrSpace))
  }

  /** `parse_transform(transform_str)`, with `None` for an absent
      attribute; `Err` where a `float()` raises. */
  function ParseTransform(attr: Option<string>): (r: Result<Matrix>)
    ensures attr.None? || attr.value == [] ==> r == Ok(Identity)
  {
    if attr.None? || attr.value == [] then Ok(Identity)
    else
      var t := Strip(attr.value);
      match MatchCall(t, "matrix")
      case Some(g) =>
        var ns :- Arguments(g);
        if |ns| == 6 then Ok(Matrix(ns[0], ns[1], ns[2], ns[3], ns[4], ns[5]))
        else TranslateOrIdentity(t)
      case None => TranslateOrIdentity(t)
  }

  /** The `translate(...)` half of `parse_transform`: one number moves along
      x only, two or more move along x and y (the rest are ignored). */
  function TranslateOrIdentity(t: string): (r: Result<Matrix>)
    ensures !StartsWith(t, "translate") ==> r == Ok(Identity)
  {
    match MatchCall(t, "translate")
    case None => Ok(Identity)
    case Some(g) =>
      var ns :- Arguments(g);
      if |ns| == 1 then Ok(Matrix(1.0, 0.0, 0.0, 1.0, ns[0], 0.0))
      else if |ns| >= 2 then Ok(Matrix(1.0, 0.0, 0.0, 1.0, ns[0], ns[1]))
      else Ok(Identity)
  }

  /* ---- what `parse_transform` reads back from a written transform ---- */

  /** Numbers written with `:.4f`, as the tool writes them elsewhere. */
  function Written(vs: seq<real>): (ts: seq<string>)
    ensures |ts| == |vs|
  {
    seq(|vs|, i requires 0 <= i < |vs| => FixedPoint4(vs[i]))
  }

  /** The numbers those strings denote. */
  function Rounded(vs: seq<real>): (rs: seq<real>)
    ensures |rs| == |vs|
  {
    seq(|vs|, i requires 0 <= i < |vs| => Rounded4(vs[i]))
  }

  /** `name(v0, v1, ...)` with every number written by `FixedPoint4`. */
  function CallText(name: string, vs: seq<real>): string {
    name + "(" + Join(Written(vs), ", ") + ")"
  }

  /** Numerals joined with `", "`: not empty, starting with a minus sign or
      a digit, ending with a digit, with no parenthesis inside. */
  lemma {:induction false} JoinNumerals(ts: seq<string>)
    requires |ts| >= 1 && forall i :: 0 <= i < |ts| ==> Numeral(ts[i])
    ensures var g := Join(ts, ", ");
      g != [] && (g[0] == '-' || IsDigit(g[0])) && IsDigit(g[|g| - 1])
      && forall k :: 0 <= k < |g| ==> g[k] != ')'
  {
    if |ts| > 1 {
      JoinNumerals(ts[1..]);
      var rest := Join(ts[1..], ", ");
      var g := ts[0] + ", " + rest;
      assert forall k :: 0 <= k < |g| ==> g[k] == if k < |ts[0]| then ts[0][k]
        else if k < |ts[0]| + 2 then ", "[k - |ts[0]|] else rest[k - |ts[0]| - 2];
    }
  }

  /** The argument text of numerals joined with `", "` is its own strip,
      splits back into the numerals and reads as what they denote. */
  lemma ArgumentsOfNumerals(ts: seq<string>, rs: seq<real>)
    requires |ts| >= 1 && |ts| == |rs|
    requires forall i :: 0 <= i < |ts| ==> Numeral(ts[i]) && ParseFloat(ts[i]) == Some(rs[i])
    ensures Arguments(Join(ts, ", ")) == Ok(rs)
  {
    var g := Join(ts, ", ");
    JoinNumerals(ts);
    NotSpace(g[0]);
    NotSpace(g[|g| - 1]);
    StripUnchanged(g);
    FieldsJoin(ts, ", ", CommaOrSpace);
    ParseAllExact(ts, rs);
  }

  /** The first `)` is where the others stop. */
  lemma CloseParenAt(t: string, i: nat, j: nat)
    requires i <= j < |t| && t[j] == ')' && forall k :: i <= k < j ==> t[k] != ')'
    ensures CloseParen(t, i) == j
    decreases j - i
  {
    if i < j {
      CloseParenAt(t, i + 1, j);
    }
  }

  /** `name(g)` is a call of `name` with argument text `g` when `g` holds no
      closing parenthesis; it is its own strip when `name` starts with a
      non-space. */
  lemma MatchCallText(name: string, g: string, t: string)
    requires t == name + "(" + g + ")" && g != [] && forall k :: 0 <= k < |g| ==> g[k] != ')'
    requires name != [] && !IsSpace(name[0])
    ensures Strip(t) == t && MatchCall(t, name) == Some(g)
  {
    assert t[..|name|] == name;
    assert t[|name|] == '(';
    assert forall k :: |name| + 1 <= k < |name| + 1 + |g| ==> t[k] == g[k - |name| - 1];
    assert t[|name| + 1 + |g|] == ')';
    CloseParenAt(t, |name| + 1, |name| + 1 + |g|);
    assert t[|name| + 1..|name| + 1 + |g|] == g;
    assert t[0] == name[0];
    StripUnchanged(t);
  }

  /** What `parse_transform` makes of a `matrix` call it matches. */
  lemma ParseMatrixCall(t: string, g: string, rs: seq<real>)
    requires t != [] && t[0] == 'm' && Strip(t) == t && MatchCall(t, "matrix") == Some(g)
    requires Arguments(g) == Ok(rs)
    ensures ParseTransform(Some(t)) == Ok(
      if |rs| == 6 then Matrix(rs[0], rs[1], rs[2], rs[3], rs[4], rs[5]) else Identity)
  {
    assert !StartsWith(t, "translate");
  }

  /** What `parse_transform` makes of a `translate` call it matches. */
  lemma ParseTranslateCall(t: string, g: string, rs: seq<real>)
    requires t != [] && t[0] == 't' && Strip(t) == t && MatchCall(t, "translate") == Some(g)
    requires Arguments(g) == Ok(rs) && |rs| >= 1
    ensures ParseTransform(Some(t)) == Ok(Matrix(1.0, 0.0, 0.0, 1.0, rs[0], if |rs| >= 2 then rs[1] else 0.0))
  {
    assert MatchCall(t, "matrix") == None;
  }

  /** Numerals joined with `", "` in a call of `name` read back as the
      numbers they denote. */
  lemma CallOfNumerals(name: string, ts: seq<string>, rs: seq<real>)
    requires name == "matrix" || name == "translate"
    requires |ts| >= 1 && |ts| == |rs|
    requires forall i :: 0 <= i < |ts| ==> Numeral(ts[i]) && ParseFloat(ts[i]) == Some(rs[i])
    ensures ParseTransform(Some(name + "(" + Join(ts, ", ") + ")")) == Ok(
      if name == "matrix" then
        if |rs| == 6 then Matrix(rs[0], rs[1], rs[2], rs[3], rs[4], rs[5]) else Identity
      else Matrix(1.0, 0.0, 0.0, 1.0, rs[0], if |rs| >= 2 then rs[1] else 0.0))
  {
    var g := Join(ts, ", ");
    var t := name + "(" + g + ")";
    JoinNumerals(ts);
    MatchCallText(name, g, t);
    ArgumentsOfNumerals(ts, rs);
    if name == "matrix" {
      ParseMatrixCall(t, g, rs);
    } else {
      ParseTranslateCall(t, g, rs);
    }
  }

  /** Every number `:.4f` writes is a numeral that reads back rounded. */
  lemma WrittenNumerals(vs: seq<real>)
    ensures forall i :: 0 <= i < |vs| ==>
      Numeral(Written(vs)[i]) && ParseFloat(Written(vs)[i]) == Some(Rounded(vs)[i])
  {
    forall i | 0 <= i < |vs|
      ensures Numeral(Written(vs)[i]) && ParseFloat(Written(vs)[i]) == Some(Rounded(vs)[i])
    {
      FixedPoint4Numeral(vs[i]);
    }
  }

  /** A written `matrix(...)` reads back as its numbers when there are six of
      them; with any other count the transform is the identity. */
  lemma MatrixRoundTrip(vs: seq<real>)
    requires |vs| >= 1
    ensures ParseTransform(Some(CallText("matrix", vs)))
      == Ok(if |vs| == 6 then Matrix(Rounded4(vs[0]), Rounded4(vs[1]), Rounded4(vs[2]),
                                     Rounded4(vs[3]), Rounded4(vs[4]), Rounded4(vs[5]))
            else Identity)
  {
    WrittenNumerals(vs);
    CallOfNumerals("matrix", Written(vs), Rounded(vs));
  }

  /** A written `translate(...)` moves by its first number along x and by its
      second, when there is one, along y. */
  lemma TranslateRoundTrip(vs: seq<real>)
    requires |vs| >= 1
    ensures ParseTransform(Some(CallText("translate", vs)))
      == Ok(Matrix(1.0, 0.0, 0.0, 1.0, Rounded4(vs[0]), if |vs| >= 2 then Rounded4(vs[1]) else 0.0))
  {
    WrittenNumerals(vs);
    CallOfNumerals("translate", Written(vs), Rounded(vs));
  }

  /** Two numerals with a tab between them are one comma-and-space field,
      which `float()` rejects. */
  lemma TabArgumentsFail(a: string, b: string, g: string)
    requires Numeral(a) && Numeral(b) && g == a + "\t" + b
    ensures Arguments(g).Err?
    ensures forall k :: 0 <= k < |g| ==> g[k] != ')'
  {
    assert forall k :: 0 <= k < |g| ==> g[k] == if k < |a| then a[k] else if k == |a| then '\t' else b[k - |a| - 1];
    NotSpace(g[0]);
    NotSpace(g[|g| - 1]);
    StripUnchanged(g);
    FieldsCons(g, [], CommaOrSpace);
    assert g + [] == g;
    InnerSpaceRejected(g, |a|);
  }

  /** A call `parse_transform` matches but whose numbers `float()` rejects
      makes it raise. */
  lemma CallArgumentsFail(t: string, g: string, name: string)
    requires name == "matrix" || name == "translate"
    requires Strip(t) == t && MatchCall(t, name) == Some(g) && Arguments(g).Err?
    ensures ParseTransform(Some(t)).Err?
  {
    assert t[0] == name[0];
    if name == "translate" {
      assert MatchCall(t, "matrix") == None;
    }
  }

  /** A tab between the numbers of a `matrix` or `translate` call is not a
      separator: the walk raises on such a transform. */
  lemma TabSeparatedFails(name: string, a: string, b: string)
    requires name == "matrix" || name == "translate"
    requires Numeral(a) && Numeral(b)
    ensures ParseTransform(Some(name + "(" + (a + "\t" + b) + ")")).Err?
  {
    var g := a + "\t" + b;
    TabArgumentsFail(a, b, g);
    MatchCallText(name, g, name + "(" + g + ")");
    CallArgumentsFail(name + "(" + g + ")", g, name);
  }

  /** A run of spaces that stops inside `t` stops at the same place when
      more text follows `t`. */
  lemma {:induction false} SpacesEndExtends(t: string, rest: string, i: nat)
    requires i <= |t| && SpacesEnd(t, i) < |t|
    ensures SpacesEnd(t + rest, i) == SpacesEnd(t, i)
    decreases |t| - i
  {
    assert (t + rest)[i] == t[i];
    if IsSpace(t[i]) {
      SpacesEndExtends(t, rest, i + 1);
    }
  }

  /** Likewise the first closing parenthesis. */
  lemma {:induction false} CloseParenExtends(t: string, rest: string, i: nat)
    requires i <= |t| && CloseParen(t, i) < |t|
    ensures CloseParen(t + rest, i) == CloseParen(t, i)
    decreases |t| - i
  {
    assert (t + rest)[i] == t[i];
    if t[i] != ')' {
      CloseParenExtends(t, rest, i + 1);
    }
  }

  /** `re.match` is anchored at the start only: once a call is matched,
      text after it changes nothing. */
  lemma MatchCallExtends(t: string, rest: string, name: string)
    requires MatchCall(t, name).Some?
    ensures MatchCall(t + rest, name) == MatchCall(t, name)
  {
    var u := t + rest;
    assert u[..|name|] == t[..|name|];
    var i := SpacesEnd(t, |name|);
    SpacesEndExtends(t, rest, |name|);
    assert u[i] == t[i];
    var j := CloseParen(t, i + 1);
    CloseParenExtends(t, rest, i + 1);
    assert u[i + 1..j] == t[i + 1..j];
  }

  /** Only the leading call counts: `translate(3,4) scale(2)` is the
      translation alone. */
  lemma LaterCallsIgnored(t: string, rest: string, name: string)
    requires name == "matrix" || name == "translate"
    requires Strip(t) == t && MatchCall(t, name).Some?
    requires rest != [] && !IsSpace(rest[|rest| - 1])
    ensures ParseTransform(Some(t + rest)) == ParseTransform(Some(t))
  {
    var u := t + rest;
    assert t[0] == name[0] && u[0] == t[0] && u[|u| - 1] == rest[|rest| - 1];
    StripUnchanged(u);
    MatchCallExtends(t, rest, name);
    var other := if name == "matrix" then "translate" else "matrix";
    OtherNameUnmatched(t, other);
    OtherNameUnmatched(u, other);
  }

  /** A string whose first character is not that of `name` holds no call of
      `name`. */
  lemma OtherNameUnmatched(t: string, name: string)
    requires t != [] && name != [] && t[0] != name[0]
    ensures MatchCall(t, name) == None
  {
    assert !StartsWith(t, name) by {
      if |name| <= |t| {
        assert t[..|name|][0] == t[0];
      }
    }
  }

  /** A string that starts with neither name is the identity transform. */
  lemma UnrecognisedIsIdentity(s: string)
    requires !StartsWith(Strip(s), "matrix") && !StartsWith(Strip(s), "translate")
    ensures ParseTransform(Some(s)) == Ok(Identity)
  {
  }
}
