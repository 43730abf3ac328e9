/**
 * The string operations the scorer relies on: the character class [a-zA-Z0-9] of the
 * retailer rule, Go's `strings.TrimSpace` (with `unicode.IsSpace`), and Go's `len` on a
 * string, which counts UTF-8 bytes. A Dafny `string` is a sequence of Unicode scalar
 * values; request bodies are decoded from JSON, which always yields valid UTF-8, so every
 * Go string the scorer sees is such a sequence.
 */
module Text {

  /** The characters matched by the regular expression class [a-zA-Z0-9]. */
  predicate IsAsciiAlnum(c: char) {
    ('a' <= c <= 'z') || ('A' <= c <= 'Z') || ('0' <= c <= '9')
  }

  predicate IsDigit(c: char) {
    '0' <= c <= '9'
  }

  predicate AllDigits(s: string) {
    forall i :: 0 <= i < |s| ==> IsDigit(s[i])
  }

  /** Go's `unicode.IsSpace`: the Unicode White_Space property. */
  predicate IsSpace(c: char) {
    var n := c as int;
    (9 <= n <= 13) || n == 0x20 || n == 0x85 || n == 0xA0 || n == 0x1680
    || (0x2000 <= n <= 0x200A) || n == 0x2028 || n == 0x2029 || n == 0x202F
    || n == 0x205F || n == 0x3000
  }

  /** How many characters of `s` the class [a-zA-Z0-9] matches. */
  function CountAlnum(s: string): (n: nat)
    ensures n <= |s|
  {
    if s == [] then 0
    else CountAlnum(s[..|s| - 1]) + (if IsAsciiAlnum(s[|s| - 1]) then 1 else 0)
  }

  /** Every character counts exactly when all match, and none does exactly when none matches. */
  lemma {:induction false} CountAlnumExtremes(s: string)
    ensures CountAlnum(s) == |s| <==> forall i :: 0 <= i < |s| ==> IsAsciiAlnum(s[i])
    ensures CountAlnum(s) == 0 <==> forall i :: 0 <= i < |s| ==> !IsAsciiAlnum(s[i])
  {
    if s != [] {
      var init := s[..|s| - 1];
      CountAlnumExtremes(init);
      assert forall i :: 0 <= i < |init| ==> init[i] == s[i];
    }
  }

  /** Counting matches distributes over concatenation. */
  lemma {:induction false} CountAlnumAppend(s: string, t: string)
    ensures CountAlnum(s + t) == CountAlnum(s) + CountAlnum(t)
    decreases |t|
  {
    if t != [] {
      assert (s + t)[..|s + t| - 1] == s + t[..|t| - 1];
      CountAlnumAppend(s, t[..|t| - 1]);
    } else {
      assert s + t == s;
    }
  }

  /** Drops leading white space. */
  function TrimLeft(s: string): (r: string)
    ensures |r| <= |s|
  {
    if s != [] && IsSpace(s[0]) then TrimLeft(s[1..]) else s
  }

  /** `TrimLeft` keeps a suffix that does not start with white space, and drops only white space. */
  lemma {:induction false} TrimLeftSpec(s: string)
    ensures TrimLeft(s) == s[|s| - |TrimLeft(s)|..]
    ensures forall i :: 0 <= i < |s| - |TrimLeft(s)| ==> IsSpace(s[i])
    ensures TrimLeft(s) == [] || !IsSpace(TrimLeft(s)[0])
  {
    if s != [] && IsSpace(s[0]) {
      TrimLeftSpec(s[1..]);
    }
  }

  /** Drops trailing white space. */
  function TrimRight(s: string): (r: string)
    ensures |r| <= |s|
  {
    if s != [] && IsSpace(s[|s| - 1]) then TrimRight(s[..|s| - 1]) else s
  }

  /** `TrimRight` keeps a prefix that does not end with white space, and drops only white space. */
  lemma {:induction false} TrimRightSpec(s: string)
    ensures TrimRight(s) == s[..|TrimRight(s)|]
    ensures forall i :: |TrimRight(s)| <= i < |s| ==> IsSpace(s[i])
    ensures TrimRight(s) == [] || !IsSpace(TrimRight(s)[|TrimRight(s)| - 1])
  {
    if s != [] && IsSpace(s[|s| - 1]) {
      TrimRightSpec(s[..|s| - 1]);
    }
  }

  /** Go's `strings.TrimSpace`: the slice of `s` without its leading and trailing white space. */
  function TrimSpace(s: string): (r: string)
    ensures |r| <= |s|
  {
    TrimRight(TrimLeft(s))
  }

  /**
   * `TrimSpace` leaves neither end white, is empty exactly for an all-white input, and leaves
   * an input without white ends as it is.
   */
  lemma {:induction false} TrimSpaceSpec(s: string)
    ensures var r := TrimSpace(s);
      r == [] || (!IsSpace(r[0]) && !IsSpace(r[|r| - 1]))
    ensures TrimSpace(s) == [] <==> forall i :: 0 <= i < |s| ==> IsSpace(s[i])
    ensures s == [] || (!IsSpace(s[0]) && !IsSpace(s[|s| - 1])) ==> TrimSpace(s) == s
  {
    var l := TrimLeft(s);
    var r := TrimRight(l);
    TrimLeftSpec(s);
    TrimRightSpec(l);
    assert r != [] ==> r[0] == l[0];
  }

  /** Trimming twice trims nothing more. */
  lemma {:induction false} TrimSpaceIdempotent(s: string)
    ensures TrimSpace(TrimSpace(s)) == TrimSpace(s)
  {
    TrimSpaceSpec(s);
    TrimSpaceSpec(TrimSpace(s));
  }

  /** Number of bytes UTF-8 uses for one scalar value. */
  function Utf8Width(c: char): (w: nat)
    ensures 1 <= w <= 4
    ensures w == 1 <==> c as int < 0x80
  {
    if c as int < 0x80 then 1
    else if c as int < 0x800 then 2
    else if c as int < 0x10000 then 3
    else 4
  }

  /** Go's `len` on a string: the length of its UTF-8 encoding in bytes. */
  function Utf8Len(s: string): (n: nat)
    ensures |s| <= n <= 4 * |s|
  {
    if s == [] then 0 else Utf8Len(s[..|s| - 1]) + Utf8Width(s[|s| - 1])
  }

  /** The byte count equals the character count exactly when every character is ASCII. */
  lemma {:induction false} Utf8LenAscii(s: string)
    ensures Utf8Len(s) == |s| <==> forall i :: 0 <= i < |s| ==> s[i] as int < 0x80
  {
    if s != [] {
      var init := s[..|s| - 1];
      Utf8LenAscii(init);
      assert forall i :: 0 <= i < |init| ==> init[i] == s[i];
    }
  }
}
