/** The few ECMAScript string and array built-ins the KMZ adapter relies on,
    stated over `seq<char>`. A `char` is a Unicode code point, where
    JavaScript counts UTF-16 code units; the two agree on strings without
    characters outside the Basic Multilingual Plane. */
module JsString {
  import opened Wrappers

  /** `s.lastIndexOf(c)` for a one-character search string: the position of
      the last occurrence of `c`, or -1 when there is none. */
  function LastIndexOf(s: string, c: char): (r: int)
    ensures -1 <= r < |s|
    ensures r == -1 <==> c !in s
    ensures 0 <= r ==> s[r] == c
    ensures forall j :: r < j < |s| ==> s[j] != c
  {
    if |s| == 0 then -1
    else if s[|s| - 1] == c then |s| - 1
    else LastIndexOf(s[..|s| - 1], c)
  }

  /** `s.slice(start)` with one argument (`String.prototype.slice` of ECMA-262):
      a negative start counts back from the end, and a start at or past the
      end yields the empty string instead of failing. */
  function Slice(s: string, start: int): (r: string)
    ensures IsSuffix(r, s)
    ensures 0 <= start <= |s| ==> |r| == |s| - start
    ensures start >= |s| ==> r == ""
    ensures -|s| <= start < 0 ==> |r| == -start
    ensures start < -|s| ==> r == s
  {
    var from := if start < 0 then (if |s| + start < 0 then 0 else |s| + start)
                else (if start < |s| then start else |s|);
    s[from..]
  }

  /** `t` is a trailing part of `s` (`s.endsWith(t)`). */
  predicate IsSuffix(t: string, s: string)
  {
    |t| <= |s| && t == s[|s| - |t|..]
  }

  /** The `Canonicalize` operation of ECMA-262's regular expressions used by a
      non-unicode `/i` pattern.  It upper-cases a character, but never maps a
      non-ASCII character onto an ASCII one, so for the ASCII letters a
      pattern like `/\.kml$/i` mentions only ASCII case folding matters and
      every other character is left as it is. */
  function Canonicalize(c: char): (r: char)
    ensures 'a' <= c <= 'z' ==> r as int == c as int - 32
    ensures !('a' <= c <= 'z') ==> r == c
    ensures 'A' <= r <= 'Z' ==> 'A' <= c <= 'Z' || 'a' <= c <= 'z'
  {
    if 'a' <= c <= 'z' then (c as int - 32) as char else c
  }

  /** Character-wise equality up to `Canonicalize`. */
  predicate EqualsIgnoreCase(a: string, b: string)
  {
    |a| == |b| && forall i :: 0 <= i < |a| ==> Canonicalize(a[i]) == Canonicalize(b[i])
  }

  /** `re.test(s)` for a pattern `/lit$/i` whose literal `lit` has no
      metacharacters: some position starts a case-insensitive copy of `lit`
      that runs exactly to the end of the input (`$` without the `m` flag). */
  predicate TestEndAnchoredIgnoreCase(lit: string, s: string)
  {
    exists i :: 0 <= i <= |s| && i + |lit| == |s| && EqualsIgnoreCase(s[i..], lit)
  }

  /** An end-anchored pattern can only match at one place: the last |lit|
      characters. */
  lemma EndAnchoredIsSuffix(lit: string, s: string)
    ensures TestEndAnchoredIgnoreCase(lit, s)
        <==> |lit| <= |s| && EqualsIgnoreCase(s[|s| - |lit|..], lit)
  {
  }

  /** Position of the first element satisfying `p`, or |s| when none does. */
  function FirstIndex<T>(s: seq<T>, p: T -> bool): (r: nat)
    ensures r <= |s|
    ensures forall j :: 0 <= j < r ==> !p(s[j])
    ensures r < |s| ==> p(s[r])
  {
    if |s| == 0 then 0
    else if p(s[0]) then 0
    else 1 + FirstIndex(s[1..], p)
  }

  /** `s.find(p)`: the first element satisfying `p`; `None` is `undefined`. */
  function Find<T>(s: seq<T>, p: T -> bool): (r: Option<T>)
    ensures r.None? <==> forall j :: 0 <= j < |s| ==> !p(s[j])
    ensures r.Some? ==> exists i :: 0 <= i < |s| && s[i] == r.value && p(s[i])
                                   && forall j :: 0 <= j < i ==> !p(s[j])
  {
    var i := FirstIndex(s, p);
    if i < |s| then Some(s[i]) else None
  }

  /** The first match of a prefix is the first match of any extension of it. */
  lemma {:induction false} FindPrefix<T>(s: seq<T>, t: seq<T>, p: T -> bool)
    requires exists j :: 0 <= j < |s| && p(s[j])
    ensures Find(s + t, p) == Find(s, p)
  {
    var i := FirstIndex(s, p);
    var k := FirstIndex(s + t, p);
    assert i < |s|;
    assert (s + t)[i] == s[i];
    assert k == i;
  }

  /** `ToPropertyKey` of the value `find` returns, as the `in` operator sees
      it: a string stays itself and `undefined` becomes "undefined". */
  function PropertyKey(v: Option<string>): (r: string)
    ensures v.Some? ==> r == v.value
    ensures v.None? ==> r == "undefined"
  {
    match v
    case Some(s) => s
    case None => "undefined"
  }
}
