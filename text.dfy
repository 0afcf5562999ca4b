/** String primitives the validator relies on: JavaScript's notion of white space
    (what `String.prototype.trim` strips and what the regex class `\s` matches),
    `trim` itself, `length` in UTF-16 code units, and first/last occurrence search. */
module Text {
  import opened Options

  /** The WhiteSpace and LineTerminator code points of ECMA-262. */
  predicate IsWhitespace(c: char)
    ensures IsWhitespace(c) ==> c as int < 0x10000
    ensures IsWhitespace(c) ==> !IsAsciiLetter(c) && !IsAsciiDigit(c)
  {
    var n := c as int;
    || n == 0x09 || n == 0x0A || n == 0x0B || n == 0x0C || n == 0x0D
    || n == 0x20 || n == 0xA0 || n == 0x1680
    || (0x2000 <= n <= 0x200A)
    || n == 0x2028 || n == 0x2029 || n == 0x202F || n == 0x205F
    || n == 0x3000 || n == 0xFEFF
  }

  predicate IsAsciiLetter(c: char) {
    ('a' <= c <= 'z') || ('A' <= c <= 'Z')
  }

  predicate IsAsciiDigit(c: char) {
    '0' <= c <= '9'
  }

  // ---- trim -------------------------------------------------------------------

  /** The index of the first character at or after `i` that is not white space. */
  function SkipLeading(s: string, i: nat): (j: nat)
    requires i <= |s|
    ensures i <= j <= |s|
    ensures forall k :: i <= k < j ==> IsWhitespace(s[k])
    ensures j < |s| ==> !IsWhitespace(s[j])
    decreases |s| - i
  {
    if i < |s| && IsWhitespace(s[i]) then SkipLeading(s, i + 1) else i
  }

  /** The index just past the last character before `j` (and not before `a`) that is
      not white space. */
  function SkipTrailing(s: string, a: nat, j: nat): (e: nat)
    requires a <= j <= |s|
    ensures a <= e <= j
    ensures forall k :: e <= k < j ==> IsWhitespace(s[k])
    ensures a < e ==> !IsWhitespace(s[e - 1])
    decreases j
  {
    if a < j && IsWhitespace(s[j - 1]) then SkipTrailing(s, a, j - 1) else j
  }

  /** Cutting `s` down to `s[a..b]` removes only white space and leaves no white space
      at either end. */
  ghost predicate TrimsTo(s: string, a: int, b: int) {
    && 0 <= a <= b <= |s|
    && (forall k :: 0 <= k < a ==> IsWhitespace(s[k]))
    && (forall k :: b <= k < |s| ==> IsWhitespace(s[k]))
    && (a < b ==> !IsWhitespace(s[a]) && !IsWhitespace(s[b - 1]))
  }

  /** What it means for `t` to be `s` trimmed. */
  ghost predicate IsTrimOf(t: string, s: string) {
    exists a, b :: TrimsTo(s, a, b) && t == s[a..b]
  }

  /** `String.prototype.trim`: the slice from the first to the last character that is
      not white space. */
  function Trim(s: string): (r: string)
    ensures IsTrimOf(r, s)
  {
    var a := SkipLeading(s, 0);
    var b := SkipTrailing(s, a, |s|);
    assert TrimsTo(s, a, b);
    s[a..b]
  }

  /** Two cuts that both trim `s` leave the same string. */
  lemma TrimsToUnique(s: string, a1: int, b1: int, a2: int, b2: int)
    requires TrimsTo(s, a1, b1) && TrimsTo(s, a2, b2)
    ensures s[a1..b1] == s[a2..b2]
  {
    if a1 < b1 && a2 < b2 {
      assert a1 == a2 && b1 == b2;
    } else {
      assert a1 == b1 && a2 == b2;
    }
  }

  /** Trim(s) is the one string that is a trim of `s`. */
  lemma TrimIsTheTrim(s: string, t: string)
    ensures IsTrimOf(t, s) <==> t == Trim(s)
  {
    if IsTrimOf(t, s) {
      var a1, b1 :| TrimsTo(s, a1, b1) && t == s[a1..b1];
      assert IsTrimOf(Trim(s), s);
      var a2, b2 :| TrimsTo(s, a2, b2) && Trim(s) == s[a2..b2];
      TrimsToUnique(s, a1, b1, a2, b2);
    }
  }

  /** Trimming leaves nothing exactly when the string is all white space, and otherwise
      starts and ends on a character that is not white space. */
  lemma TrimBlank(s: string)
    ensures Trim(s) == [] <==> forall k :: 0 <= k < |s| ==> IsWhitespace(s[k])
    ensures Trim(s) != [] ==> !IsWhitespace(Trim(s)[0]) && !IsWhitespace(Trim(s)[|Trim(s)| - 1])
  {
    assert IsTrimOf(Trim(s), s);
    var a, b :| TrimsTo(s, a, b) && Trim(s) == s[a..b];
    if a < b {
      assert Trim(s)[0] == s[a];
    }
  }

  /** A string without white space at either end is its own trim. */
  lemma TrimKeepsTrimmed(t: string)
    requires t != [] ==> !IsWhitespace(t[0]) && !IsWhitespace(t[|t| - 1])
    ensures Trim(t) == t
  {
    assert t == t[0..|t|];
    assert TrimsTo(t, 0, |t|);
    TrimIsTheTrim(t, t);
  }

  lemma TrimIdempotent(s: string)
    ensures Trim(Trim(s)) == Trim(s)
  {
    TrimBlank(s);
    TrimKeepsTrimmed(Trim(s));
  }

  // ---- length and search --------------------------------------------------------

  /** `length` of a JavaScript string: UTF-16 code units, two for a code point above U+FFFF. */
  function Utf16Length(s: string): (n: nat)
    ensures |s| <= n <= 2 * |s|
    ensures n == |s| <==> forall k :: 0 <= k < |s| ==> s[k] as int < 0x10000
  {
    if s == [] then 0
    else
      var n := (if s[0] as int < 0x10000 then 1 else 2) + Utf16Length(s[1..]);
      assert forall k :: 1 <= k < |s| ==> s[k] == s[1..][k - 1];
      n
  }

  /** `length` adds up over concatenation. */
  lemma {:induction false} Utf16LengthConcat(a: string, b: string)
    ensures Utf16Length(a + b) == Utf16Length(a) + Utf16Length(b)
    decreases |a|
  {
    if a == [] {
      assert a + b == b;
    } else {
      assert (a + b)[1..] == a[1..] + b;
      Utf16LengthConcat(a[1..], b);
    }
  }

  /** A single character is one code unit, or two (a surrogate pair) above U+FFFF. */
  lemma Utf16LengthChar(c: char)
    ensures Utf16Length([c]) == if c as int < 0x10000 then 1 else 2
  {
  }

  /** Index of the first `c` in `s` at or after `i`. */
  function IndexFrom(s: string, c: char, i: nat): (r: Option<nat>)
    requires i <= |s|
    ensures r.Some? ==> i <= r.value < |s| && s[r.value] == c
    ensures r.Some? ==> forall k :: i <= k < r.value ==> s[k] != c
    ensures r.None? ==> forall k :: i <= k < |s| ==> s[k] != c
    decreases |s| - i
  {
    if i == |s| then None
    else if s[i] == c then Some(i)
    else IndexFrom(s, c, i + 1)
  }

  /** Index of the last `c` in `s` before `j`. */
  function IndexBefore(s: string, c: char, j: nat): (r: Option<nat>)
    requires j <= |s|
    ensures r.Some? ==> r.value < j && s[r.value] == c
    ensures r.Some? ==> forall k :: r.value < k < j ==> s[k] != c
    ensures r.None? ==> forall k :: 0 <= k < j ==> s[k] != c
    decreases j
  {
    if j == 0 then None
    else if s[j - 1] == c then Some(j - 1)
    else IndexBefore(s, c, j - 1)
  }
}
