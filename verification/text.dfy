/**
 * String helpers with the meaning JavaScript gives them in the gateway:
 * `trim`, `length` (UTF-16 code units), `includes`, and the ASCII parts of
 * `toUpperCase` / `toLowerCase` and of regular-expression word characters.
 */
module Text {

  datatype Option<+T> = None | Some(value: T)

  /** The characters JavaScript's `String.prototype.trim` removes:
      WhiteSpace (including every Zs space) and LineTerminator. */
  predicate IsSpace(c: char) {
    || c == '\t' || c == '\n' || c == '\U{0B}' || c == '\U{0C}' || c == '\r' || c == ' '
    || c == '\U{A0}' || c == '\U{1680}' || ('\U{2000}' <= c <= '\U{200A}')
    || c == '\U{2028}' || c == '\U{2029}' || c == '\U{202F}' || c == '\U{205F}'
    || c == '\U{3000}' || c == '\U{FEFF}'
  }

  predicate IsUpper(c: char) { 'A' <= c <= 'Z' }
  predicate IsLower(c: char) { 'a' <= c <= 'z' }
  predicate IsLetter(c: char) { IsUpper(c) || IsLower(c) }

  /** `\w` of a regular expression without the `u` flag. */
  predicate IsWordChar(c: char) { IsLetter(c) || ('0' <= c <= '9') || c == '_' }

  predicate AllSpace(s: string) {
    forall i :: 0 <= i < |s| ==> IsSpace(s[i])
  }

  predicate HasLower(s: string) {
    exists i :: 0 <= i < |s| && IsLower(s[i])
  }

  function UpperChar(c: char): (u: char)
    ensures !IsLower(u)
    ensures IsLetter(c) <==> IsLetter(u)
    ensures !IsLower(c) ==> u == c
    ensures IsLower(c) ==> IsUpper(u) && u as int + 32 == c as int
  {
    if IsLower(c) then (c as int - 32) as char else c
  }

  function LowerChar(c: char): (l: char)
    ensures !IsUpper(l)
    ensures !IsUpper(c) ==> l == c
    ensures IsUpper(c) ==> IsLower(l) && l as int == c as int + 32
  {
    if IsUpper(c) then (c as int + 32) as char else c
  }

  /** ASCII part of `toUpperCase`: every other character is kept. */
  function ToUpper(s: string): (r: string)
    ensures |r| == |s|
    ensures forall i :: 0 <= i < |s| ==> r[i] == UpperChar(s[i])
  {
    if s == [] then [] else [UpperChar(s[0])] + ToUpper(s[1..])
  }

  /** ASCII part of `toLowerCase`: every other character is kept. */
  function ToLower(s: string): (r: string)
    ensures |r| == |s|
    ensures forall i :: 0 <= i < |s| ==> r[i] == LowerChar(s[i])
  {
    if s == [] then [] else [LowerChar(s[0])] + ToLower(s[1..])
  }

  /** Lower-casing forgets any earlier upper-casing. */
  lemma LowerOfUpper(s: string)
    ensures ToLower(ToUpper(s)) == ToLower(s)
  {
    forall i | 0 <= i < |s| ensures ToLower(ToUpper(s))[i] == ToLower(s)[i] {
      assert ToUpper(s)[i] == UpperChar(s[i]);
    }
  }

  function Count(c: char, s: string): (n: nat)
    ensures n <= |s|
    ensures n == 0 <==> c !in s
    ensures n == |s| <==> forall k :: 0 <= k < |s| ==> s[k] == c
  {
    if s == [] then 0 else (if s[0] == c then 1 else 0) + Count(c, s[1..])
  }

  lemma {:induction false} CountAppend(c: char, a: string, b: string)
    ensures Count(c, a + b) == Count(c, a) + Count(c, b)
  {
    if a == [] {
      assert a + b == b;
    } else {
      assert (a + b)[1..] == a[1..] + b;
      CountAppend(c, a[1..], b);
    }
  }

  function Repeat(c: char, n: nat): (r: string)
    ensures |r| == n
    ensures forall i :: 0 <= i < n ==> r[i] == c
  {
    if n == 0 then [] else [c] + Repeat(c, n - 1)
  }

  /** JavaScript `length`: UTF-16 code units, two for a character outside
      the Basic Multilingual Plane. */
  function Utf16Len(s: string): (n: nat)
    ensures |s| <= n <= 2 * |s|
    ensures (forall i :: 0 <= i < |s| ==> s[i] as int < 0x1_0000) ==> n == |s|
  {
    if s == [] then 0
    else (if s[0] as int < 0x1_0000 then 1 else 2) + Utf16Len(s[1..])
  }

  /** The length of joined texts is the sum of their lengths. */
  lemma {:induction false} Utf16LenAppend(a: string, b: string)
    ensures Utf16Len(a + b) == Utf16Len(a) + Utf16Len(b)
    decreases |a|
  {
    if a == [] {
      assert a + b == b;
    } else {
      assert (a + b)[0] == a[0] && (a + b)[1..] == a[1..] + b;
      Utf16LenAppend(a[1..], b);
    }
  }

  /** A single character is one code unit, or a surrogate pair of two
      above U+FFFF. */
  lemma Utf16LenChar(c: char)
    ensures Utf16Len([c]) == if c as int < 0x1_0000 then 1 else 2
  {
    assert [c][1..] == [];
  }

  /** `s.includes(sub)`: only a text at least as long as `sub` can include
      it, and a text includes each of its prefixes. */
  function Contains(s: string, sub: string): (b: bool)
    ensures b ==> |sub| <= |s|
    ensures sub <= s ==> b
  {
    assert s[0..] == s;
    exists i :: 0 <= i <= |s| && sub <= s[i..]
  }

  /** Text around an included needle does not hide it. */
  lemma ContainsInContext(x: string, s: string, y: string, sub: string)
    ensures Contains(s, sub) ==> Contains(x + s + y, sub)
  {
    if Contains(s, sub) {
      var i :| 0 <= i <= |s| && sub <= s[i..];
      assert sub <= (x + s + y)[|x| + i..] by {
        forall k | 0 <= k < |sub| ensures sub[k] == (x + s + y)[|x| + i + k] {
          assert sub[k] == s[i + k];
        }
      }
    }
  }

  /** A lower-case needle found in a text is still found once the text is
      lower-cased. */
  lemma ContainsLowered(s: string, sub: string)
    requires forall k :: 0 <= k < |sub| ==> !IsUpper(sub[k])
    ensures Contains(s, sub) ==> Contains(ToLower(s), sub)
  {
    if Contains(s, sub) {
      var i :| 0 <= i <= |s| && sub <= s[i..];
      var t := ToLower(s);
      forall k | 0 <= k < |sub| ensures sub[k] == t[i..][k] {
        assert sub[k] == s[i + k];
      }
      assert sub <= t[i..];
    }
  }

  /** The first index at or after `i` that holds no whitespace, or `|s|`. */
  function SkipSpaces(s: string, i: nat): (j: nat)
    requires i <= |s|
    ensures i <= j <= |s|
    ensures forall k :: i <= k < j ==> IsSpace(s[k])
    ensures j < |s| ==> !IsSpace(s[j])
    decreases |s| - i
  {
    if i < |s| && IsSpace(s[i]) then SkipSpaces(s, i + 1) else i
  }

  /** Scanning back from `hi` to `lo`: the index just after the last
      non-whitespace character, or `lo`. */
  function SkipSpacesBack(s: string, lo: nat, hi: nat): (j: nat)
    requires lo <= hi <= |s|
    ensures lo <= j <= hi
    ensures forall k :: j <= k < hi ==> IsSpace(s[k])
    ensures j > lo ==> !IsSpace(s[j - 1])
    decreases hi - lo
  {
    if hi > lo && IsSpace(s[hi - 1]) then SkipSpacesBack(s, lo, hi - 1) else hi
  }

  /** `s.trim()`: the result is blank exactly when the input is. */
  function Trim(s: string): (r: string)
    ensures |r| <= |s|
    ensures r == [] || (!IsSpace(r[0]) && !IsSpace(r[|r| - 1]))
    ensures r == [] <==> AllSpace(s)
  {
    var a := SkipSpaces(s, 0);
    var b := SkipSpacesBack(s, a, |s|);
    s[a..b]
  }

  /** Trimming a trimmed text changes nothing. */
  lemma TrimIdempotent(s: string)
    ensures Trim(Trim(s)) == Trim(s)
  {
    var r := Trim(s);
    if r != [] {
      assert SkipSpaces(r, 0) == 0;
      assert SkipSpacesBack(r, 0, |r|) == |r|;
      assert r[0..|r|] == r;
    }
  }

  /** Trimming only cuts whitespace off both ends. */
  lemma TrimSlice(s: string) returns (a: nat, b: nat)
    ensures a <= b <= |s|
    ensures Trim(s) == s[a..b]
    ensures AllSpace(s[..a]) && AllSpace(s[b..])
  {
    a := SkipSpaces(s, 0);
    b := SkipSpacesBack(s, a, |s|);
    forall k | 0 <= k < |s[b..]| ensures IsSpace(s[b..][k]) {
      assert s[b..][k] == s[b + k];
    }
  }

  lemma {:induction false} CountOfBlank(c: char, s: string)
    requires !IsSpace(c) && AllSpace(s)
    ensures Count(c, s) == 0
  {
    if s != [] {
      assert AllSpace(s[1..]) by {
        forall i | 0 <= i < |s[1..]| ensures IsSpace(s[1..][i]) {
          assert s[1..][i] == s[i + 1];
        }
      }
      CountOfBlank(c, s[1..]);
    }
  }

  /** Trimming keeps every occurrence of a non-whitespace character. */
  lemma TrimKeepsCount(c: char, s: string)
    requires !IsSpace(c)
    ensures Count(c, Trim(s)) == Count(c, s)
  {
    var a, b := TrimSlice(s);
    SplitInThree(s, a, b);
    CountBetweenBlanks(c, s[..a], s[a..b], s[b..]);
  }

  lemma SplitInThree(s: string, a: nat, b: nat)
    requires a <= b <= |s|
    ensures s == s[..a] + s[a..b] + s[b..]
  {
    assert s[..a] + s[a..b] == s[..b];
  }

  /** Whitespace on either side of a text adds nothing to the count of a
      non-whitespace character. */
  lemma CountBetweenBlanks(c: char, head: string, mid: string, tail: string)
    requires !IsSpace(c) && AllSpace(head) && AllSpace(tail)
    ensures Count(c, head + mid + tail) == Count(c, mid)
  {
    CountAppend(c, head + mid, tail);
    CountAppend(c, head, mid);
    CountOfBlank(c, head);
    CountOfBlank(c, tail);
  }

  lemma BlankHasNoLower(s: string)
    requires AllSpace(s)
    ensures !HasLower(s)
  {
  }

  lemma HasLowerAppend(x: string, y: string)
    ensures HasLower(x + y) <==> HasLower(x) || HasLower(y)
  {
    if HasLower(x + y) {
      var i :| 0 <= i < |x + y| && IsLower((x + y)[i]);
      if i >= |x| {
        assert y[i - |x|] == (x + y)[i];
      }
    }
    if HasLower(x) {
      var j :| 0 <= j < |x| && IsLower(x[j]);
      assert (x + y)[j] == x[j];
    }
    if HasLower(y) {
      var j :| 0 <= j < |y| && IsLower(y[j]);
      assert (x + y)[|x| + j] == y[j];
    }
  }

  /** Trimming keeps every lower-case letter. */
  lemma TrimKeepsLower(s: string)
    ensures HasLower(Trim(s)) <==> HasLower(s)
  {
    var a, b := TrimSlice(s);
    var head, mid, tail := s[..a], s[a..b], s[b..];
    assert s == head + mid + tail;
    HasLowerAppend(head + mid, tail);
    HasLowerAppend(head, mid);
    BlankHasNoLower(head);
    BlankHasNoLower(tail);
  }

  lemma AllSpaceAppend(x: string, y: string)
    ensures AllSpace(x + y) <==> AllSpace(x) && AllSpace(y)
  {
    if AllSpace(x + y) {
      forall j | 0 <= j < |x| ensures IsSpace(x[j]) {
        assert (x + y)[j] == x[j];
      }
      forall j | 0 <= j < |y| ensures IsSpace(y[j]) {
        assert (x + y)[|x| + j] == y[j];
      }
    }
  }

  lemma CountRepeat(c: char, n: nat)
    ensures Count(c, Repeat(c, n)) == n
  {
  }

  lemma {:induction false} ToUpperKeepsCount(c: char, s: string)
    requires !IsLetter(c)
    ensures Count(c, ToUpper(s)) == Count(c, s)
  {
    if s != [] {
      assert ToUpper(s)[1..] == ToUpper(s[1..]);
      ToUpperKeepsCount(c, s[1..]);
    }
  }

  lemma ToUpperKeepsNonBlank(s: string)
    requires !AllSpace(s)
    ensures !AllSpace(ToUpper(s))
  {
    var i :| 0 <= i < |s| && !IsSpace(s[i]);
    assert !IsSpace(ToUpper(s)[i]);
  }
}
