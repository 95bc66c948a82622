/** The few string operations of Python's `str` that the core relies on. */
module Text {

  /** `str.isspace()` for one character: the set that `str.strip()`,
      `str.split()`, `float()` and the regular-expression class `\s` treat as
      whitespace. */
  predicate IsSpace(c: char) {
    c == ' ' || ('\t' <= c <= '\r') || ('\U{1c}' <= c <= '\U{1f}')
    || c == '\U{85}' || c == '\U{a0}' || c == '\U{1680}'
    || ('\U{2000}' <= c <= '\U{200a}') || c == '\U{2028}' || c == '\U{2029}'
    || c == '\U{202f}' || c == '\U{205f}' || c == '\U{3000}'
  }

  predicate StartsWith(s: string, prefix: string) {
    |prefix| <= |s| && s[..|prefix|] == prefix
  }

  /** `s.endswith(suffix)` */
  predicate EndsWith(s: string, suffix: string) {
    |suffix| <= |s| && s[|s| - |suffix|..] == suffix
  }

  /** `sub in s` for strings: `sub` occurs somewhere in `s`. */
  predicate Contains(s: string, sub: string)
    decreases |s|
  {
    StartsWith(s, sub) || (s != [] && Contains(s[1..], sub))
  }

  lemma {:induction false} ContainsAt(s: string, sub: string, i: nat)
    requires i + |sub| <= |s| && s[i..i + |sub|] == sub
    ensures Contains(s, sub)
    decreases i
  {
    if i > 0 {
      assert s[1..][i - 1..i - 1 + |sub|] == sub;
      ContainsAt(s[1..], sub, i - 1);
    }
  }

  function StripLeft(s: string): string {
    if s != [] && IsSpace(s[0]) then StripLeft(s[1..]) else s
  }

  function StripRight(s: string): string {
    if s != [] && IsSpace(s[|s| - 1]) then StripRight(s[..|s| - 1]) else s
  }

  /** `s.strip()`: `s` without its leading and trailing whitespace. */
  function Strip(s: string): string {
    StripRight(StripLeft(s))
  }

  /** A string that neither starts nor ends with whitespace is its own strip. */
  lemma StripUnchanged(s: string)
    requires s == [] || (!IsSpace(s[0]) && !IsSpace(s[|s| - 1]))
    ensures Strip(s) == s
  {
  }

  /** The two ways the core splits a string into fields. */
  datatype Delimiters =
    | CommaOrSpace   // `re.split('[, ]+', s)` with the empty pieces dropped
    | Whitespace     // `s.split()` with no argument

  predicate IsDelimiter(d: Delimiters, c: char) {
    match d
    case CommaOrSpace => c == ',' || c == ' '
    case Whitespace => IsSpace(c)
  }

  /** Index just past the run of non-delimiters that starts at `i`. */
  function FieldEnd(s: string, d: Delimiters, i: nat): (j: nat)
    requires i <= |s|
    ensures i <= j <= |s|
    ensures forall k :: i <= k < j ==> !IsDelimiter(d, s[k])
    ensures j == |s| || IsDelimiter(d, s[j])
    decreases |s| - i
  {
    if i < |s| && !IsDelimiter(d, s[i]) then FieldEnd(s, d, i + 1) else i
  }

  /** A non-empty run of non-delimiter characters. */
  predicate IsField(d: Delimiters, w: string) {
    w != [] && forall k :: 0 <= k < |w| ==> !IsDelimiter(d, w[k])
  }

  /** The maximal runs of non-delimiter characters of `s`, in order. */
  function Fields(s: string, d: Delimiters): (fs: seq<string>)
    ensures forall f :: f in fs ==> IsField(d, f)
    decreases |s|
  {
    if s == [] then []
    else if IsDelimiter(d, s[0]) then Fields(s[1..], d)
    else
      var n := FieldEnd(s, d, 0);
      [s[..n]] + Fields(s[n..], d)
  }

  /** A field followed by a delimiter (or by nothing) is split off whole. */
  lemma FieldsCons(w: string, rest: string, d: Delimiters)
    requires IsField(d, w)
    requires rest == [] || IsDelimiter(d, rest[0])
    ensures Fields(w + rest, d) == [w] + Fields(rest, d)
  {
    var s := w + rest;
    var n := FieldEnd(s, d, 0);
    assert forall k :: 0 <= k < |w| ==> s[k] == w[k];
    assert rest != [] ==> s[|w|] == rest[0];
    assert n == |w|;
    assert s[..n] == w && s[n..] == rest;
  }

  /** A single delimiter in front of a string adds no field. */
  lemma FieldsSkip(c: char, rest: string, d: Delimiters)
    requires IsDelimiter(d, c)
    ensures Fields([c] + rest, d) == Fields(rest, d)
  {
    assert ([c] + rest)[1..] == rest;
  }

  /** `sep.join(ts)` */
  function Join(ts: seq<string>, sep: string): (s: string)
    ensures ts == [] ==> s == []
    ensures |ts| == 1 ==> s == ts[0]
  {
    if ts == [] then []
    else if |ts| == 1 then ts[0]
    else ts[0] + sep + Join(ts[1..], sep)
  }

  /** A join of non-empty parts starts as its first part and ends as its
      last. */
  lemma {:induction false} JoinEnds(ts: seq<string>, sep: string)
    requires |ts| >= 1 && forall i :: 0 <= i < |ts| ==> ts[i] != []
    ensures var s := Join(ts, sep); var last := ts[|ts| - 1];
      s != [] && s[0] == ts[0][0] && s[|s| - 1] == last[|last| - 1]
  {
    if |ts| > 1 {
      JoinEnds(ts[1..], sep);
    }
  }

  /** Delimiters in front of a string add no field. */
  lemma {:induction false} FieldsSkipAll(sep: string, rest: string, d: Delimiters)
    requires forall k :: 0 <= k < |sep| ==> IsDelimiter(d, sep[k])
    ensures Fields(sep + rest, d) == Fields(rest, d)
  {
    if sep != [] {
      assert sep + rest == [sep[0]] + (sep[1..] + rest);
      FieldsSkip(sep[0], sep[1..] + rest, d);
      FieldsSkipAll(sep[1..], rest, d);
    } else {
      assert sep + rest == rest;
    }
  }

  /** A field, a run of delimiters, then the rest: the field is split off
      and the run is dropped. */
  lemma FieldThenSeparator(w: string, sep: string, rest: string, d: Delimiters)
    requires IsField(d, w)
    requires sep != [] && forall k :: 0 <= k < |sep| ==> IsDelimiter(d, sep[k])
    ensures Fields(w + sep + rest, d) == [w] + Fields(rest, d)
  {
    assert w + sep + rest == w + (sep + rest);
    FieldsCons(w, sep + rest, d);
    FieldsSkipAll(sep, rest, d);
  }

  /** Splitting what `Join` wrote with a delimiter separator gives back the
      fields, provided none is empty or holds a delimiter. */
  lemma {:induction false} FieldsJoin(ts: seq<string>, sep: string, d: Delimiters)
    requires forall i :: 0 <= i < |ts| ==> IsField(d, ts[i])
    requires sep != [] && forall k :: 0 <= k < |sep| ==> IsDelimiter(d, sep[k])
    ensures Fields(Join(ts, sep), d) == ts
  {
    if |ts| == 1 {
      FieldsCons(ts[0], [], d);
      assert ts[0] + [] == ts[0];
    } else if |ts| > 1 {
      FieldThenSeparator(ts[0], sep, Join(ts[1..], sep), d);
      FieldsJoin(ts[1..], sep, d);
      assert [ts[0]] + ts[1..] == ts;
    }
  }
}
