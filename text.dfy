/** The few `str` operations the cleaner relies on: `strip`, `lower`,
    `isdigit`, `int`, `split(",")` and `split()`.  Characters are Unicode
    code points. */
module Text {
  import opened Wrappers

  /** `str.isspace` for one character: the whitespace that `strip()` and
      `split()` remove. */
  predicate IsSpace(c: char) {
    c == ' ' || ('\t' <= c <= '\r') || ('\U{1c}' <= c <= '\U{1f}')
    || c == '\U{85}' || c == '\U{a0}' || c == '\U{1680}'
    || ('\U{2000}' <= c <= '\U{200a}') || c == '\U{2028}' || c == '\U{2029}'
    || c == '\U{202f}' || c == '\U{205f}' || c == '\U{3000}'
  }

  /** `s.startswith(prefix)`. */
  predicate StartsWith(s: string, prefix: string) {
    |prefix| <= |s| && s[..|prefix|] == prefix
  }

  predicate AllSpace(s: string) {
    forall i :: 0 <= i < |s| ==> IsSpace(s[i])
  }

  /** The index of the first character at or after `i` that is not
      whitespace, or `|s|` when there is none. */
  function SkipSpaces(s: string, i: nat): (k: nat)
    requires i <= |s|
    ensures i <= k <= |s|
    ensures forall j :: i <= j < k ==> IsSpace(s[j])
    ensures k < |s| ==> !IsSpace(s[k])
    decreases |s| - i
  {
    if i < |s| && IsSpace(s[i]) then SkipSpaces(s, i + 1) else i
  }

  /** `s.strip()`: leading and trailing whitespace removed. */
  function Strip(s: string): string
    decreases |s|
  {
    if s != [] && IsSpace(s[0]) then Strip(s[1..])
    else if s != [] && IsSpace(s[|s| - 1]) then Strip(s[..|s| - 1])
    else s
  }

  /** Stripping a blank string leaves nothing. */
  lemma {:induction false} StripBlank(s: string)
    requires AllSpace(s)
    ensures Strip(s) == ""
    decreases |s|
  {
    if s != [] {
      StripBlank(s[1..]);
    }
  }

  /** Blanks around a word whose ends are not blank are stripped off, and
      nothing else is. */
  lemma {:induction false} StripPadding(pre: string, word: string, post: string)
    requires AllSpace(pre) && AllSpace(post)
    requires word != "" && !IsSpace(word[0]) && !IsSpace(word[|word| - 1])
    ensures Strip(pre + word + post) == word
    decreases |pre| + |post|
  {
    var s := pre + word + post;
    if pre != [] {
      assert s[1..] == pre[1..] + word + post;
      StripPadding(pre[1..], word, post);
    } else if post != [] {
      assert s[0] == word[0] && s[|s| - 1] == post[|post| - 1];
      assert s[..|s| - 1] == pre + word + post[..|post| - 1];
      StripPadding(pre, word, post[..|post| - 1]);
    } else {
      assert s == word;
    }
  }

  /** `str.lower` on one character: ASCII and Latin-1 capitals become small
      letters (`'Í'` becomes `'í'`); other characters are kept. */
  function LowerChar(c: char): char {
    if 'A' <= c <= 'Z' || ('\U{c0}' <= c <= '\U{de}' && c != '\U{d7}') then
      (c as int + 32) as char
    else c
  }

  function Lower(s: string): (r: string)
    ensures |r| == |s|
    ensures forall i :: 0 <= i < |s| ==> r[i] == LowerChar(s[i])
  {
    if s == [] then [] else [LowerChar(s[0])] + Lower(s[1..])
  }

  predicate IsDigit(c: char) {
    '0' <= c <= '9'
  }

  /** `s.isdigit()`: non-empty and every character a decimal digit. */
  predicate IsDigits(s: string) {
    |s| > 0 && forall i :: 0 <= i < |s| ==> IsDigit(s[i])
  }

  /** `int(s)` for a string of decimal digits. */
  function DecimalValue(s: string): nat
    requires forall i :: 0 <= i < |s| ==> IsDigit(s[i])
  {
    if s == [] then 0
    else
      assert IsDigit(s[|s| - 1]);
      DecimalValue(s[..|s| - 1]) * 10 + (s[|s| - 1] as int - '0' as int)
  }

  /** The decimal numeral of `n`, as `str(n)` writes it. */
  function Decimal(n: nat): (s: string)
    ensures IsDigits(s)
    decreases n
  {
    if n < 10 then [('0' as int + n) as char] else Decimal(n / 10) + [('0' as int + n % 10) as char]
  }

  lemma {:induction false} DecimalRoundTrip(n: nat)
    ensures DecimalValue(Decimal(n)) == n
    decreases n
  {
    var s := Decimal(n);
    if n >= 10 {
      DecimalRoundTrip(n / 10);
      assert s[..|s| - 1] == Decimal(n / 10);
    }
  }

  /** `s.split(sep)`: the pieces between the separators, at least one. */
  function Split(s: string, sep: char): (pieces: seq<string>)
    ensures |pieces| > 0
    ensures forall k :: 0 <= k < |pieces| ==> sep !in pieces[k]
  {
    if sep !in s then [s]
    else
      var i := IndexOf(s, sep);
      [s[..i]] + Split(s[i + 1..], sep)
  }

  function IndexOf(s: string, c: char): (i: nat)
    requires c in s
    ensures i < |s| && s[i] == c && c !in s[..i]
  {
    if s[0] == c then 0 else 1 + IndexOf(s[1..], c)
  }

  /** `sep.join(pieces)`. */
  function Join(pieces: seq<string>, sep: char): string
    requires |pieces| > 0
  {
    if |pieces| == 1 then pieces[0] else pieces[0] + [sep] + Join(pieces[1..], sep)
  }

  /** The first piece ends at the first separator. */
  lemma SplitAt(a: string, b: string, sep: char)
    requires sep !in a
    ensures Split(a + [sep] + b, sep) == [a] + Split(b, sep)
  {
    var s := a + [sep] + b;
    assert s[|a|] == sep;
    var i := IndexOf(s, sep);
    assert forall j :: 0 <= j < |a| ==> s[j] == a[j];
    assert s[..|a| + 1][|a|] == sep;
    assert i == |a|;
    assert s[..i] == a && s[i + 1..] == b;
  }

  /** Splitting loses nothing: joining the pieces gives the string back. */
  lemma {:induction false} SplitJoin(s: string, sep: char)
    ensures Join(Split(s, sep), sep) == s
    decreases |s|
  {
    if sep in s {
      var i := IndexOf(s, sep);
      SplitJoin(s[i + 1..], sep);
      assert s == s[..i] + [sep] + s[i + 1..];
    }
  }

  /** `s.split()[0]`, or None where the source would index an empty list. */
  function FirstWord(s: string): (w: Option<string>)
    ensures w.Some? ==> |w.value| > 0 && forall i :: 0 <= i < |w.value| ==> !IsSpace(w.value[i])
    ensures w.None? <==> AllSpace(s)
  {
    var a := SkipSpaces(s, 0);
    if a == |s| then None
    else Some(s[a..WordEnd(s, a)])
  }

  /** The index of the first whitespace character at or after `i`, or
      `|s|`. */
  function WordEnd(s: string, i: nat): (k: nat)
    requires i <= |s|
    ensures i <= k <= |s|
    ensures forall j :: i <= j < k ==> !IsSpace(s[j])
    ensures k < |s| ==> IsSpace(s[k])
    decreases |s| - i
  {
    if i < |s| && !IsSpace(s[i]) then WordEnd(s, i + 1) else i
  }

  /** A word with no whitespace around it is its own first word. */
  lemma WordIsFirst(s: string)
    requires |s| > 0 && forall i :: 0 <= i < |s| ==> !IsSpace(s[i])
    ensures FirstWord(s) == Some(s)
  {
    assert SkipSpaces(s, 0) == 0;
    assert WordEnd(s, 0) == |s|;
    assert s[0..|s|] == s;
  }
}
