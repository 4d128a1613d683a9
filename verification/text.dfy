/** Character-level string helpers the protocol relies on: Rust's
    `char::is_whitespace` (for `trim().is_empty()`), ASCII upper-casing
    (for `to_uppercase`) and splitting at the first occurrence of a
    delimiter (one step of `splitn`). */
module Text {
  import opened Outcomes

  /** Rust's `char::is_whitespace`: the Unicode White_Space property. */
  predicate IsWhitespace(c: char) {
    var n := c as int;
    || 9 <= n <= 13
    || n == 0x20
    || n == 0x85
    || n == 0xA0
    || n == 0x1680
    || 0x2000 <= n <= 0x200A
    || n == 0x2028
    || n == 0x2029
    || n == 0x202F
    || n == 0x205F
    || n == 0x3000
  }

  /** `s.trim().is_empty()`: the string holds nothing but whitespace. */
  predicate IsBlank(s: string) {
    forall i :: 0 <= i < |s| ==> IsWhitespace(s[i])
  }

  predicate IsAsciiLower(c: char) { 'a' <= c <= 'z' }
  predicate IsAsciiUpper(c: char) { 'A' <= c <= 'Z' }

  function UpperAscii(c: char): char {
    if IsAsciiLower(c) then (c as int - 32) as char else c
  }

  function LowerAscii(c: char): char {
    if IsAsciiUpper(c) then (c as int + 32) as char else c
  }

  /** `to_uppercase`, restricted to ASCII letters; every other character
      is left as it is. */
  function ToUpper(s: string): (u: string)
    ensures |u| == |s|
    ensures forall i :: 0 <= i < |s| ==> u[i] == UpperAscii(s[i])
  {
    seq(|s|, i requires 0 <= i < |s| => UpperAscii(s[i]))
  }

  /** The words the broker recognises are spelled in upper-case ASCII. */
  predicate IsUpperWord(v: string) {
    forall i :: 0 <= i < |v| ==> IsAsciiUpper(v[i])
  }

  /** Comparing `ToUpper(w)` with an upper-case word is exactly a
      letter-by-letter case-insensitive comparison, in both directions. */
  lemma UpperMatchIsCaseInsensitive(w: string, v: string)
    requires IsUpperWord(v)
    ensures ToUpper(w) == v <==>
              && |w| == |v|
              && forall i :: 0 <= i < |v| ==> w[i] == v[i] || w[i] == LowerAscii(v[i])
  {
    if |w| == |v| && forall i :: 0 <= i < |v| ==> w[i] == v[i] || w[i] == LowerAscii(v[i]) {
      forall i | 0 <= i < |v|
        ensures ToUpper(w)[i] == v[i]
      {
        if w[i] != v[i] {
          assert w[i] == LowerAscii(v[i]);
        }
      }
    }
  }

  /** Position of the first `c` in `s`, or `|s|` when there is none. */
  function IndexOf(s: string, c: char): (i: nat)
    ensures i <= |s|
    ensures i < |s| ==> s[i] == c
    ensures forall j :: 0 <= j < i ==> s[j] != c
  {
    if s == [] then 0
    else if s[0] == c then 0
    else 1 + IndexOf(s[1..], c)
  }

  /** Whatever follows a `c`-free prefix and one `c`, the first `c` is the
      one right after the prefix. */
  lemma {:induction false} IndexOfAfterPrefix(a: string, c: char, rest: string)
    requires c !in a
    ensures IndexOf(a + [c] + rest, c) == |a|
  {
    if a != [] {
      assert (a + [c] + rest)[1..] == a[1..] + [c] + rest;
      IndexOfAfterPrefix(a[1..], c, rest);
    }
  }

  /** One step of `split(c)`: the text before the first `c` and, when
      there is a `c`, everything after it. */
  function SplitOnce(s: string, c: char): (r: (string, Option<string>))
    ensures c !in r.0
    ensures r.1.None? ==> r.0 == s
    ensures r.1.Some? ==> s == r.0 + [c] + r.1.value
  {
    var i := IndexOf(s, c);
    if i == |s| then (s, None)
    else
      assert s == s[..i] + [c] + s[i + 1..];
      (s[..i], Some(s[i + 1..]))
  }

  /** The parts `SplitOnce` returns are the only ones it can return. */
  lemma SplitOnceJoin(a: string, c: char, rest: string)
    requires c !in a
    ensures SplitOnce(a + [c] + rest, c) == (a, Some(rest))
  {
    IndexOfAfterPrefix(a, c, rest);
    var s := a + [c] + rest;
    assert s[..|a|] == a;
    assert s[|a| + 1..] == rest;
  }
}
