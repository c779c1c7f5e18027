/**
 * The JavaScript built-ins the three components lean on, written out so that
 * their edge cases are part of the model: `Array.prototype.splice(start, 1)`,
 * `String.prototype.trim` and `Math.min`, plus the Option type that stands for
 * `undefined` / optional fields.
 */
module Builtins {

  datatype Option<T> = None | Some(value: T)

  function Min(a: int, b: int): (m: int)
    ensures m <= a && m <= b
    ensures m == a || m == b
  {
    if a <= b then a else b
  }

  // ---------------------------------------------------------------------------
  // Array.prototype.splice(start, 1) on a copy of the array
  // ---------------------------------------------------------------------------

  /** The index `splice` actually starts at: a negative `start` counts from the
      end (clamped at 0), a `start` past the end is clamped to the length. */
  function SpliceStart(len: nat, start: int): (k: nat)
    ensures k <= len
    ensures 0 <= start <= len ==> k == start
    ensures start < 0 && len + start >= 0 ==> k == len + start
    ensures start < 0 && len + start < 0 ==> k == 0
    ensures start > len ==> k == len
  {
    if start < 0 then
      (if len + start < 0 then 0 else len + start)
    else if start < len then start
    else len
  }

  /** `const t = [...s]; t.splice(start, 1); return t` — removes one element
      at the effective start index, or nothing when that index is the length. */
  function SpliceOne<T>(s: seq<T>, start: int): (r: seq<T>)
    ensures SpliceStart(|s|, start) < |s| ==>
              |r| == |s| - 1 &&
              multiset(r) + multiset{s[SpliceStart(|s|, start)]} == multiset(s)
    ensures SpliceStart(|s|, start) == |s| ==> r == s
    ensures forall j :: 0 <= j < SpliceStart(|s|, start) ==> r[j] == s[j]
    ensures forall j :: SpliceStart(|s|, start) <= j < |r| ==> r[j] == s[j + 1]
  {
    var k := SpliceStart(|s|, start);
    if k < |s| then
      assert s == s[..k] + [s[k]] + s[k + 1..];
      s[..k] + s[k + 1..]
    else s
  }

  /** Removing an in-range index keeps every element before it and shifts the
      rest down by one: exactly element `i` is gone. */
  lemma SpliceRemovesExactlyIndex<T>(s: seq<T>, i: int)
    requires 0 <= i < |s|
    ensures SpliceOne(s, i) == s[..i] + s[i + 1..]
  {
    var r := SpliceOne(s, i);
    assert SpliceStart(|s|, i) == i;
    assert |r| == |s[..i] + s[i + 1..]|;
    forall j | 0 <= j < |r| ensures r[j] == (s[..i] + s[i + 1..])[j] {
      if j < i {
        assert r[j] == s[j];
      } else {
        assert r[j] == s[j + 1];
      }
    }
  }

  // ---------------------------------------------------------------------------
  // String.prototype.trim
  // ---------------------------------------------------------------------------

  /** ECMAScript WhiteSpace and LineTerminator code points: the characters
      `trim` strips (TAB, VT, FF, SP, NBSP, ZWNBSP, the Zs category, LF, CR,
      LS, PS). */
  predicate IsWhiteSpace(c: char) {
    || c == '\t' || c == '\n' || c == '\U{000B}' || c == '\U{000C}' || c == '\r'
    || c == ' ' || c == '\U{00A0}' || c == '\U{1680}'
    || ('\U{2000}' <= c <= '\U{200A}')
    || c == '\U{2028}' || c == '\U{2029}' || c == '\U{202F}' || c == '\U{205F}'
    || c == '\U{3000}' || c == '\U{FEFF}'
  }

  /** Strips leading white space: the result is a suffix of `s`, everything
      dropped is white space, and the result does not start with white space. */
  function TrimStart(s: string): (r: string)
    ensures |r| <= |s| && r == s[|s| - |r|..]
    ensures forall i :: 0 <= i < |s| - |r| ==> IsWhiteSpace(s[i])
    ensures r != [] ==> !IsWhiteSpace(r[0])
  {
    if s != [] && IsWhiteSpace(s[0]) then TrimStart(s[1..]) else s
  }

  /** Strips trailing white space: the result is a prefix of `s`, everything
      dropped is white space, and the result does not end with white space. */
  function TrimEnd(s: string): (r: string)
    ensures |r| <= |s| && r == s[..|r|]
    ensures forall i :: |r| <= i < |s| ==> IsWhiteSpace(s[i])
    ensures r != [] ==> !IsWhiteSpace(r[|r| - 1])
  {
    if s != [] && IsWhiteSpace(s[|s| - 1]) then TrimEnd(s[..|s| - 1]) else s
  }

  /** `s.trim()`: a non-blank result neither starts nor ends with white space. */
  function Trim(s: string): (r: string)
    ensures |r| <= |s|
    ensures r != [] ==> !IsWhiteSpace(r[0]) && !IsWhiteSpace(r[|r| - 1])
  {
    var t := TrimStart(s);
    TrimEnd(t)
  }

  /** `s.trim()` is blank exactly when `s` is all white space: the guard the
      rename and create handlers use. */
  lemma TrimBlankIff(s: string)
    ensures Trim(s) == [] <==> forall i :: 0 <= i < |s| ==> IsWhiteSpace(s[i])
  {
    var t := TrimStart(s);
    var a := |s| - |t|;
    if Trim(s) == [] {
      forall i | 0 <= i < |s| ensures IsWhiteSpace(s[i]) {
        if i >= a {
          assert s[i] == t[i - a];
        }
      }
    } else {
      var r := Trim(s);
      assert !IsWhiteSpace(r[0]) && r[0] == t[0] == s[a];
    }
  }

  /** The text `Trim` keeps is a contiguous piece of the input, and everything
      cut off on either side of it is white space. */
  lemma TrimIsSlice(s: string) returns (a: nat)
    ensures a + |Trim(s)| <= |s| && Trim(s) == s[a..a + |Trim(s)|]
    ensures forall i :: 0 <= i < a ==> IsWhiteSpace(s[i])
    ensures forall i :: a + |Trim(s)| <= i < |s| ==> IsWhiteSpace(s[i])
  {
    var t := TrimStart(s);
    var r := TrimEnd(t);
    a := |s| - |t|;
    assert r == t[..|r|];
    assert t == s[a..];
    assert r == s[a..a + |r|];
    forall i | a + |r| <= i < |s| ensures IsWhiteSpace(s[i]) {
      assert s[i] == t[i - a];
    }
  }

  /** Trimming twice is trimming once. */
  lemma {:induction false} TrimIdempotent(s: string)
    ensures Trim(Trim(s)) == Trim(s)
  {
    var r := Trim(s);
    assert TrimStart(r) == r;
    assert TrimEnd(r) == r;
  }
}
