/**
 * The few Python built-ins the game relies on, written out so that the game
 * rules can be stated over them: `str.strip`, `str.lower`, `str.upper`,
 * `str.join`, `list.remove`, `repr` of a string and `str` of a tuple of
 * strings, and Python's `None` as an `Option`.
 */
module Builtins {

  /** A value that may be Python's `None`. */
  datatype Option<T> = None | Some(value: T)

  // ---------------------------------------------------------------------
  // str.strip()
  // ---------------------------------------------------------------------

  /** The characters for which Python's `str.isspace()` holds. */
  predicate IsSpace(c: char) {
    ('\t' <= c <= '\r') || ('\U{1C}' <= c <= ' ') || c == '\U{85}' || c == '\U{A0}'
    || c == '\U{1680}' || ('\U{2000}' <= c <= '\U{200A}') || c == '\U{2028}' || c == '\U{2029}'
    || c == '\U{202F}' || c == '\U{205F}' || c == '\U{3000}'
  }

  predicate AllSpace(s: string) {
    forall i :: 0 <= i < |s| ==> IsSpace(s[i])
  }

  /** Where `s.lstrip()` starts scanning from `from`: the first index that holds no whitespace, or `|s|`. */
  function SkipSpaces(s: string, from: nat): (i: nat)
    requires from <= |s|
    ensures from <= i <= |s|
    ensures forall k :: from <= k < i ==> IsSpace(s[k])
    ensures i == |s| || !IsSpace(s[i])
    decreases |s| - from
  {
    if from < |s| && IsSpace(s[from]) then SkipSpaces(s, from + 1) else from
  }

  /** Where `s.rstrip()` stops scanning back from `hi`, not below `lo`: just past the last index that holds no whitespace. */
  function BackSpaces(s: string, lo: nat, hi: nat): (j: nat)
    requires lo <= hi <= |s|
    ensures lo <= j <= hi
    ensures forall k :: j <= k < hi ==> IsSpace(s[k])
    ensures j == lo || !IsSpace(s[j - 1])
    decreases hi
  {
    if hi > lo && IsSpace(s[hi - 1]) then BackSpaces(s, lo, hi - 1) else hi
  }

  /**
   * `s.strip()`: the part of `s` left once the whitespace at both ends is
   * removed; it neither starts nor ends with whitespace.
   */
  function Strip(s: string): (r: string)
    ensures r == [] || (!IsSpace(r[0]) && !IsSpace(r[|r| - 1]))
    ensures |r| <= |s|
    ensures exists i :: 0 <= i <= |s| - |r| && r == s[i..i + |r|] && AllSpace(s[..i]) && AllSpace(s[i + |r|..])
  {
    var i := SkipSpaces(s, 0);
    var j := BackSpaces(s, i, |s|);
    assert AllSpace(s[..i]) && AllSpace(s[j..]);
    s[i..j]
  }

  /** A string without whitespace at either end is its own strip. */
  lemma StripUntrimmed(s: string)
    requires s == [] || (!IsSpace(s[0]) && !IsSpace(s[|s| - 1]))
    ensures Strip(s) == s
  {
  }

  // ---------------------------------------------------------------------
  // str.lower() and str.upper()
  // ---------------------------------------------------------------------

  /**
   * Python's lower-casing for ASCII letters and for the basic Cyrillic block
   * (U+0410..U+042F to U+0430..U+044F, U+0400..U+040F to U+0450..U+045F);
   * every other character is left as it is.
   */
  function LowerChar(c: char): char {
    if 'A' <= c <= 'Z' then (c as int + 32) as char
    else if '\U{0410}' <= c <= '\U{042F}' then (c as int + 32) as char
    else if '\U{0400}' <= c <= '\U{040F}' then (c as int + 80) as char
    else c
  }

  /** The inverse mapping of LowerChar, for `str.upper()`. */
  function UpperChar(c: char): char {
    if 'a' <= c <= 'z' then (c as int - 32) as char
    else if '\U{0430}' <= c <= '\U{044F}' then (c as int - 32) as char
    else if '\U{0450}' <= c <= '\U{045F}' then (c as int - 80) as char
    else c
  }

  function Lower(s: string): (r: string)
    ensures |r| == |s|
    ensures forall i :: 0 <= i < |s| ==> r[i] == LowerChar(s[i])
  {
    if s == [] then [] else [LowerChar(s[0])] + Lower(s[1..])
  }

  function Upper(s: string): (r: string)
    ensures |r| == |s|
    ensures forall i :: 0 <= i < |s| ==> r[i] == UpperChar(s[i])
  {
    if s == [] then [] else [UpperChar(s[0])] + Upper(s[1..])
  }

  /** Upper-casing a character and then lower-casing it gives its lower-case form. */
  lemma LowerOfUpperChar(c: char)
    ensures LowerChar(UpperChar(c)) == LowerChar(c)
  {
  }

  /** Upper-casing a string first does not change its lower-case form. */
  lemma LowerOfUpper(s: string)
    ensures Lower(Upper(s)) == Lower(s)
  {
    forall i | 0 <= i < |s|
      ensures Lower(Upper(s))[i] == Lower(s)[i]
    {
      LowerOfUpperChar(s[i]);
    }
  }

  /** A string with no upper-case letter is its own lower-case form. */
  lemma LowerOfLower(s: string)
    requires forall i :: 0 <= i < |s| ==> LowerChar(s[i]) == s[i]
    ensures Lower(s) == s
  {
  }

  // ---------------------------------------------------------------------
  // sep.join(xs)
  // ---------------------------------------------------------------------

  function Join(sep: string, xs: seq<string>): string {
    if |xs| == 0 then ""
    else if |xs| == 1 then xs[0]
    else xs[0] + sep + Join(sep, xs[1..])
  }

  /** Appending an element to a non-empty list extends its join by the separator and that element. */
  lemma {:induction false} JoinSnoc(sep: string, xs: seq<string>, x: string)
    requires |xs| > 0
    ensures Join(sep, xs + [x]) == Join(sep, xs) + sep + x
  {
    if |xs| == 1 {
      assert (xs + [x])[1..] == [x];
    } else {
      assert (xs + [x])[1..] == xs[1..] + [x];
      JoinSnoc(sep, xs[1..], x);
    }
  }

  /** Every element appears in the join, in list order, at the offset its predecessors and separators fill. */
  lemma {:induction false} JoinPlaces(sep: string, xs: seq<string>, k: nat)
    requires k < |xs|
    ensures |Join(sep, xs)| >= JoinOffset(sep, xs, k) + |xs[k]|
    ensures Join(sep, xs)[JoinOffset(sep, xs, k)..JoinOffset(sep, xs, k) + |xs[k]|] == xs[k]
  {
    if k == 0 {
      if |xs| > 1 {
        assert Join(sep, xs) == xs[0] + (sep + Join(sep, xs[1..]));
      }
    } else {
      JoinPlaces(sep, xs[1..], k - 1);
      var tail := Join(sep, xs[1..]);
      var off := |xs[0]| + |sep|;
      assert Join(sep, xs) == (xs[0] + sep) + tail;
      assert JoinOffset(sep, xs, k) == off + JoinOffset(sep, xs[1..], k - 1);
      assert Join(sep, xs)[off..] == tail;
    }
  }

  /** Where the k-th element starts in `sep.join(xs)`. */
  function JoinOffset(sep: string, xs: seq<string>, k: nat): nat
    requires k < |xs|
  {
    if k == 0 then 0 else |xs[0]| + |sep| + JoinOffset(sep, xs[1..], k - 1)
  }

  // ---------------------------------------------------------------------
  // list.index(x) and list.remove(x)
  // ---------------------------------------------------------------------

  /** `xs.index(x)`: the position of the first occurrence. */
  function FirstIndex<T(==)>(xs: seq<T>, x: T): (i: nat)
    requires x in xs
    ensures i < |xs| && xs[i] == x && x !in xs[..i]
  {
    if xs[0] == x then 0 else 1 + FirstIndex(xs[1..], x)
  }

  /**
   * `xs.remove(x)`: drops the first occurrence of `x` and keeps the order of
   * the rest; exactly one copy of `x` goes.
   */
  function RemoveFirst<T(==)>(xs: seq<T>, x: T): (r: seq<T>)
    requires x in xs
    ensures r == xs[..FirstIndex(xs, x)] + xs[FirstIndex(xs, x) + 1..]
  {
    if xs[0] == x then xs[1..]
    else
      var i := FirstIndex(xs[1..], x);
      assert xs[..i + 1] == [xs[0]] + xs[1..][..i];
      assert xs[i + 2..] == xs[1..][i + 1..];
      [xs[0]] + RemoveFirst(xs[1..], x)
  }

  /** `xs.remove(x)` takes away exactly one copy of `x` and nothing else. */
  lemma RemoveFirstCount<T>(xs: seq<T>, x: T)
    requires x in xs
    ensures |RemoveFirst(xs, x)| == |xs| - 1
    ensures multiset(RemoveFirst(xs, x)) == multiset(xs) - multiset{x}
  {
    var i := FirstIndex(xs, x);
    var before, after := xs[..i], xs[i + 1..];
    assert xs == before + [x] + after;
    assert multiset(xs) == multiset(before) + multiset{x} + multiset(after);
    assert RemoveFirst(xs, x) == before + after;
  }

  // ---------------------------------------------------------------------
  // repr(s) and str(t) for a tuple of strings
  // ---------------------------------------------------------------------

  function HexDigit(n: nat): char
    requires n < 16
  {
    if n < 10 then ('0' as int + n) as char else ('a' as int + n - 10) as char
  }

  /** How `repr` writes one character inside quotes `q`. */
  function EscapeChar(c: char, q: char): string {
    if c == '\\' then "\\\\"
    else if c == q then ['\\', q]
    else if c == '\t' then "\\t"
    else if c == '\n' then "\\n"
    else if c == '\r' then "\\r"
    else if c < ' ' || c == '\U{7F}' then "\\x" + [HexDigit(c as int / 16), HexDigit(c as int % 16)]
    else [c]
  }

  function Escape(s: string, q: char): string {
    if s == [] then "" else EscapeChar(s[0], q) + Escape(s[1..], q)
  }

  /** A character `repr` writes as itself inside single quotes. */
  predicate Plain(c: char) {
    ' ' <= c && c != '\U{7F}' && c != '\\' && c != '\''
  }

  /** `repr(s)`: single quotes unless `s` holds a single quote and no double quote. */
  function Repr(s: string): (r: string)
    ensures |r| >= 2 && r[0] == r[|r| - 1] && (r[0] == '\'' || r[0] == '"')
  {
    var q := if '\'' in s && '"' !in s then '"' else '\'';
    [q] + Escape(s, q) + [q]
  }

  /** A string of plain characters is written back between single quotes, unchanged. */
  lemma {:induction false} ReprOfPlain(s: string)
    requires forall i :: 0 <= i < |s| ==> Plain(s[i])
    ensures Repr(s) == "'" + s + "'"
  {
    EscapePlain(s);
  }

  lemma {:induction false} EscapePlain(s: string)
    requires forall i :: 0 <= i < |s| ==> Plain(s[i])
    ensures Escape(s, '\'') == s
  {
    if s != [] {
      EscapePlain(s[1..]);
      assert s == [s[0]] + s[1..];
    }
  }

  function Reprs(xs: seq<string>): (r: seq<string>)
    ensures |r| == |xs|
    ensures forall i :: 0 <= i < |xs| ==> r[i] == Repr(xs[i])
  {
    if xs == [] then [] else [Repr(xs[0])] + Reprs(xs[1..])
  }

  /**
   * `str(t)` for a tuple `t` of strings: its literal text, with the trailing
   * comma of a one-element tuple. It always opens and closes with a parenthesis.
   */
  function TupleStr(xs: seq<string>): (r: string)
    ensures |r| >= 2 && r[0] == '(' && r[|r| - 1] == ')'
  {
    if |xs| == 1 then "(" + Repr(xs[0]) + ",)"
    else "(" + Join(", ", Reprs(xs)) + ")"
  }
}
