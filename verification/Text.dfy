/** The string operations the WhatsApp code uses, over sequences of Unicode scalar values. */
module Text {
  import opened Wrappers

  /** The characters with the Unicode property White_Space. */
  predicate IsWhitespace(c: char) {
    var n := c as int;
    || 0x9 <= n <= 0xD || n == 0x20 || n == 0x85 || n == 0xA0 || n == 0x1680 || 0x2000 <= n <= 0x200A
    || n == 0x2028 || n == 0x2029 || n == 0x202F || n == 0x205F || n == 0x3000
  }

  predicate IsDigit(c: char) {
    '0' <= c <= '9'
  }

  function TrimStart(s: string): string {
    if s != [] && IsWhitespace(s[0]) then TrimStart(s[1..]) else s
  }

  function TrimEnd(s: string): string {
    if s != [] && IsWhitespace(s[|s| - 1]) then TrimEnd(s[..|s| - 1]) else s
  }

  function Trim(s: string): string {
    TrimEnd(TrimStart(s))
  }

  lemma TrimKeeps(s: string)
    requires s != []
    ensures !IsWhitespace(s[0]) ==> TrimStart(s) == s
    ensures !IsWhitespace(s[|s| - 1]) ==> TrimEnd(s) == s
  {
  }

  lemma TrimStartStep(s: string)
    requires s != [] && IsWhitespace(s[0])
    ensures TrimStart(s) == TrimStart(s[1..])
  {
  }

  lemma TrimDropsABlank(s: string)
    ensures TrimStart(" " + s) == TrimStart(s) && TrimEnd(s + " ") == TrimEnd(s)
  {
    assert (" " + s)[1..] == s && (s + " ")[..|s|] == s;
  }

  lemma TrimmedAtBothEnds(s: string)
    requires s != [] && !IsWhitespace(s[0]) && !IsWhitespace(s[|s| - 1])
    ensures Trim(s) == s && Trim(s + " ") == s && Trim(" " + s) == s && TrimStart(s) == s
  {
    hide TrimStart, TrimEnd;
    TrimKeeps(s);
    TrimKeeps(s + " ");
    TrimDropsABlank(s);
  }

  /** `needle` stands at position `i`. */
  predicate At(s: string, needle: string, i: int) {
    0 <= i <= |s| - |needle| && s[i..i + |needle|] == needle
  }

  /** The first occurrence of `needle` at or after `i`. */
  function FindFrom(s: string, needle: string, i: nat): (r: Option<nat>)
    requires i <= |s|
    ensures r.Some? ==> At(s, needle, r.value) && i <= r.value
    ensures r.Some? ==> forall j :: i <= j < r.value ==> !At(s, needle, j)
    ensures r.None? ==> forall j :: i <= j ==> !At(s, needle, j)
    decreases |s| - i
  {
    if At(s, needle, i) then Some(i)
    else if i == |s| then None
    else FindFrom(s, needle, i + 1)
  }

  function Find(s: string, needle: string): (r: Option<nat>)
    ensures r.Some? ==> At(s, needle, r.value) && forall j :: 0 <= j < r.value ==> !At(s, needle, j)
    ensures r.None? ==> forall j :: !At(s, needle, j)
  {
    FindFrom(s, needle, 0)
  }

  predicate Contains(s: string, needle: string) {
    Find(s, needle).Some?
  }

  predicate IsOneLine(s: string) {
    '\n' !in s
  }

  /**
   Looking a line up among newline-delimited lines by enclosing both in newlines finds a
   one-line entry exactly when it is the same line.
   */
  lemma EnclosedLineFound(entry: string, line: string)
    requires IsOneLine(entry) && IsOneLine(line)
    ensures Contains("\n" + entry + "\n", "\n" + line + "\n") <==> entry == line
  {
    var hay, needle := "\n" + entry + "\n", "\n" + line + "\n";
    if entry == line {
      assert At(hay, needle, 0);
    }
    forall i | At(hay, needle, i)
      ensures entry == line
    {
      var found := hay[i..i + |needle|];
      assert found[0] == needle[0] == '\n' && found[|needle| - 1] == needle[|needle| - 1] == '\n';
      assert hay[i] == '\n' && hay[i + |needle| - 1] == '\n';
      assert forall k :: 0 < k < |hay| - 1 ==> hay[k] == entry[k - 1];
      assert i == 0 && i + |needle| == |hay|;
      assert hay == needle;
      assert hay[1..|hay| - 1] == entry && needle[1..|needle| - 1] == line;
    }
  }
}
