/** The operator's answers (`prompt_select_indices` without the prompt, and
    `confirm`): a selection line becomes the sorted, duplicate-free 0-based
    indices it names, or is rejected as a whole; a confirmation is a yes only
    for one of a few words. */
module Selection {
  import opened Wrappers
  import opened Text

  /** `input(...).strip().lower()`. */
  function Normalize(raw: string): (s: string)
    ensures |s| == |Strip(raw)|
  {
    Lower(Strip(raw))
  }

  /** The comma-separated tokens of a selection line. */
  function Tokens(raw: string): seq<string> {
    Split(Normalize(raw), ',')
  }

  /** The words that select every category. */
  predicate IsAllWord(s: string) {
    s == "all" || s == "todo" || s == "todos"
  }

  /** The words `confirm` accepts as a yes. */
  predicate IsYesWord(s: string) {
    s == "y" || s == "yes" || s == "s" || s == "si" || s == "sí"
  }

  /** The 0-based index one comma-separated token names, or None when the
      token is not a digit string or names no category. */
  function TokenIndex(token: string, maxIndex: nat): Option<nat> {
    var p := Strip(token);
    if !IsDigits(p) then None
    else
      var v := DecimalValue(p) - 1;
      if v < 0 || v >= maxIndex then None else Some(v)
  }

  /** `TokenIndex` for a prompt over `maxIndex` categories. */
  function Reader(maxIndex: nat): string -> Option<nat> {
    token => TokenIndex(token, maxIndex)
  }

  /** The indices `read` finds in `parts`, in order, or None as soon as it
      rejects one token. */
  function Indices(parts: seq<string>, read: string -> Option<nat>): Option<seq<nat>> {
    if parts == [] then Some([])
    else
      match Indices(parts[..|parts| - 1], read)
      case None => None
      case Some(vs) =>
        match read(parts[|parts| - 1])
        case None => None
        case Some(v) => Some(vs + [v])
  }

  predicate Increasing(s: seq<nat>) {
    forall i, j :: 0 <= i < j < |s| ==> s[i] < s[j]
  }

  /** Adds `x` to an increasing sequence, keeping it increasing and free of
      duplicates. */
  function Insert(x: nat, s: seq<nat>): (r: seq<nat>)
    requires Increasing(s)
    ensures Increasing(r)
    ensures forall y :: y in r <==> y == x || y in s
  {
    if s == [] then [x]
    else if x < s[0] then [x] + s
    else if x == s[0] then s
    else
      var t := Insert(x, s[1..]);
      forall j | 0 <= j < |t|
        ensures s[0] < t[j]
      {
        if t[j] != x {
          assert t[j] in s[1..];
          var i :| 0 <= i < |s| - 1 && s[1..][i] == t[j];
          assert s[i + 1] == t[j];
        }
      }
      [s[0]] + t
  }

  /** `sorted(set(s))`. */
  function SortedSet(s: seq<nat>): (r: seq<nat>)
    ensures Increasing(r)
    ensures forall y :: y in r <==> y in s
  {
    if s == [] then []
    else
      var init := s[..|s| - 1];
      assert s == init + [s[|s| - 1]];
      Insert(s[|s| - 1], SortedSet(init))
  }

  /** `list(range(n))`. */
  function Range(n: nat): (r: seq<nat>)
    ensures |r| == n && forall i :: 0 <= i < n ==> r[i] == i
  {
    seq(n, i => i)
  }

  /** What one selection line selects among `maxIndex` categories: the empty
      line selects nothing, an "all" word selects everything when allowed, and
      otherwise every token must name a category; None stands for a line the
      prompt rejects and asks again for. */
  function Selected(raw: string, maxIndex: nat, allowAll: bool): Option<seq<nat>> {
    var s := Normalize(raw);
    if s == "" then Some([])
    else if allowAll && IsAllWord(s) then Some(Range(maxIndex))
    else
      match Indices(Tokens(raw), Reader(maxIndex))
      case None => None
      case Some(vs) => Some(SortedSet(vs))
  }

  /** The body of `prompt_select_indices` for one line read. */
  method SelectIndices(raw: string, maxIndex: nat, allowAll: bool) returns (r: Option<seq<nat>>)
    ensures r == Selected(raw, maxIndex, allowAll)
  {
    var s := Lower(Strip(raw));
    if s == "" {
      return Some([]);
    }
    if allowAll && IsAllWord(s) {
      return Some(Range(maxIndex));
    }
    var parts := Split(s, ',');
    var result: seq<nat> := [];
    var ok := true;
    var i := 0;
    while i < |parts|
      invariant 0 <= i <= |parts|
      invariant Indices(parts[..i], Reader(maxIndex)) == Some(result)
    {
      IndicesStep(parts, i, maxIndex);
      var p := Strip(parts[i]);
      if !IsDigits(p) {
        ok := false;
        RejectedPrefix(parts, i + 1, Reader(maxIndex));
        break;
      }
      var v := DecimalValue(p) - 1;
      if v < 0 || v >= maxIndex {
        ok := false;
        RejectedPrefix(parts, i + 1, Reader(maxIndex));
        break;
      }
      assert TokenIndex(parts[i], maxIndex) == Some(v);
      result := result + [v];
      i := i + 1;
    }
    if ok {
      assert parts[..|parts|] == parts;
      return Some(SortedSet(result));
    }
    return None;
  }

  /** Reading one more token extends the indices read so far by its index. */
  lemma IndicesStep(parts: seq<string>, i: nat, maxIndex: nat)
    requires i < |parts|
    ensures Indices(parts[..i + 1], Reader(maxIndex)) ==
              match Indices(parts[..i], Reader(maxIndex))
              case None => None
              case Some(vs) =>
                match TokenIndex(parts[i], maxIndex)
                case None => None
                case Some(v) => Some(vs + [v])
  {
    assert parts[..i + 1][..i] == parts[..i];
  }

  /** Once a prefix of the tokens is rejected, so is the whole line. */
  lemma {:induction false} RejectedPrefix(parts: seq<string>, k: nat, read: string -> Option<nat>)
    requires k <= |parts| && Indices(parts[..k], read).None?
    ensures Indices(parts, read).None?
    decreases |parts|
  {
    if k < |parts| {
      var init := parts[..|parts| - 1];
      assert init[..k] == parts[..k];
      RejectedPrefix(init, k, read);
    } else {
      assert parts[..k] == parts;
    }
  }

  /** All or nothing: the tokens are accepted exactly when each of them is,
      and then the result holds each token's index at the token's position. */
  lemma {:induction false} IndicesMeaning(parts: seq<string>, read: string -> Option<nat>)
    ensures Indices(parts, read).None? <==> exists k :: 0 <= k < |parts| && read(parts[k]).None?
    ensures Indices(parts, read).Some? ==>
              |Indices(parts, read).value| == |parts|
              && forall k :: 0 <= k < |parts| ==> read(parts[k]) == Some(Indices(parts, read).value[k])
    decreases |parts|
  {
    if parts != [] {
      var init := parts[..|parts| - 1];
      IndicesMeaning(init, read);
      assert forall k :: 0 <= k < |init| ==> init[k] == parts[k];
      if Indices(init, read).None? {
        var k :| 0 <= k < |init| && read(init[k]).None?;
        assert read(parts[k]).None?;
      }
    }
  }

  /** Two increasing sequences with the same elements are equal. */
  lemma {:induction false} IncreasingUnique(a: seq<nat>, b: seq<nat>)
    requires Increasing(a) && Increasing(b)
    requires forall y :: y in a <==> y in b
    ensures a == b
    decreases |a|
  {
    if a != [] {
      assert a[0] in b;
    }
    if b != [] {
      assert b[0] in a;
    }
    if a != [] && b != [] {
      assert a[0] == b[0] by {
        assert b[0] in a && a[0] in b;
        var i :| 0 <= i < |a| && a[i] == b[0];
        var j :| 0 <= j < |b| && b[j] == a[0];
        assert a[0] <= a[i] && b[0] <= b[j];
      }
      forall y
        ensures y in a[1..] ==> y in b[1..]
        ensures y in b[1..] ==> y in a[1..]
      {
        if y in a[1..] {
          TailMember(a, b, y);
        }
        if y in b[1..] {
          TailMember(b, a, y);
        }
      }
      IncreasingUnique(a[1..], b[1..]);
      assert a == [a[0]] + a[1..] && b == [b[0]] + b[1..];
    }
  }

  lemma TailMember(a: seq<nat>, b: seq<nat>, y: nat)
    requires Increasing(a) && Increasing(b) && a != [] && b != [] && a[0] == b[0]
    requires forall z :: z in a <==> z in b
    requires y in a[1..]
    ensures y in b[1..]
  {
    var i :| 0 <= i < |a| - 1 && a[1..][i] == y;
    assert a[i + 1] == y && a[0] < y;
    assert y in b;
    var j :| 0 <= j < |b| && b[j] == y;
    assert b[1..][j - 1] == y;
  }

  /** `sorted(set(s))` is the only increasing sequence holding exactly the
      values of `s`. */
  lemma SortedSetIsTheSortedSet(s: seq<nat>, r: seq<nat>)
    requires Increasing(r) && forall y :: y in r <==> y in s
    ensures SortedSet(s) == r
  {
    IncreasingUnique(SortedSet(s), r);
  }

  /** An empty or blank line selects nothing. */
  lemma BlankSelectsNothing(raw: string, maxIndex: nat, allowAll: bool)
    requires AllSpace(raw)
    ensures Selected(raw, maxIndex, allowAll) == Some([])
  {
    StripBlank(raw);
  }

  /** An "all" word, in any letter case and with surrounding blanks, selects
      every index `0..maxIndex-1` in order when allowed. */
  lemma AllWordSelectsEverything(pre: string, word: string, post: string, maxIndex: nat)
    requires AllSpace(pre) && AllSpace(post) && IsAllWord(Lower(word))
    ensures Selected(pre + word + post, maxIndex, true) == Some(Range(maxIndex))
  {
    assert word != "" && !IsSpace(word[0]) && !IsSpace(word[|word| - 1]) by {
      assert |word| == |Lower(word)|;
      assert LowerChar(word[0]) == Lower(word)[0];
      assert LowerChar(word[|word| - 1]) == Lower(word)[|word| - 1];
    }
    StripPadding(pre, word, post);
  }

  /** A line that is neither blank nor an allowed "all" word is rejected
      exactly when one of its comma-separated tokens is not a digit string
      naming one of the `maxIndex` categories. */
  lemma RejectedIffBadToken(raw: string, maxIndex: nat, allowAll: bool)
    requires Normalize(raw) != "" && !(allowAll && IsAllWord(Normalize(raw)))
    ensures Selected(raw, maxIndex, allowAll).None? <==>
            exists k :: 0 <= k < |Tokens(raw)| && TokenIndex(Tokens(raw)[k], maxIndex).None?
  {
    var parts := Tokens(raw);
    var read := Reader(maxIndex);
    IndicesMeaning(parts, read);
    if Indices(parts, read).None? {
      var k :| 0 <= k < |parts| && read(parts[k]).None?;
      assert TokenIndex(parts[k], maxIndex).None?;
    } else {
      forall k | 0 <= k < |parts|
        ensures TokenIndex(parts[k], maxIndex).Some?
      {
        assert read(parts[k]).Some?;
      }
    }
  }

  /** An accepted tokenised line selects the increasing, duplicate-free list
      of the tokens' values minus one, every one of them below `maxIndex`. */
  lemma AcceptedIsSortedTokens(raw: string, maxIndex: nat, allowAll: bool)
    requires Normalize(raw) != "" && !(allowAll && IsAllWord(Normalize(raw)))
    requires Selected(raw, maxIndex, allowAll).Some?
    ensures var parts := Tokens(raw);
            var r := Selected(raw, maxIndex, allowAll).value;
            Increasing(r)
            && (forall x :: x in r ==> x < maxIndex)
            && (forall x :: x in r <==> exists k :: 0 <= k < |parts| && TokenIndex(parts[k], maxIndex) == Some(x))
  {
    var parts := Tokens(raw);
    var read := Reader(maxIndex);
    IndicesMeaning(parts, read);
    var vs := Indices(parts, read).value;
    forall x
      ensures x in vs <==> exists k :: 0 <= k < |parts| && TokenIndex(parts[k], maxIndex) == Some(x)
    {
      if x in vs {
        var k :| 0 <= k < |vs| && vs[k] == x;
        assert read(parts[k]) == Some(x);
        assert TokenIndex(parts[k], maxIndex) == Some(x);
      }
      if exists k :: 0 <= k < |parts| && TokenIndex(parts[k], maxIndex) == Some(x) {
        var k :| 0 <= k < |parts| && TokenIndex(parts[k], maxIndex) == Some(x);
        assert read(parts[k]) == Some(vs[k]);
      }
    }
  }

  /** Every selection the prompt accepts is increasing and in range. */
  lemma SelectionInRange(raw: string, maxIndex: nat, allowAll: bool)
    requires Selected(raw, maxIndex, allowAll).Some?
    ensures Increasing(Selected(raw, maxIndex, allowAll).value)
    ensures forall x :: x in Selected(raw, maxIndex, allowAll).value ==> x < maxIndex
  {
    var s := Normalize(raw);
    if s != "" && !(allowAll && IsAllWord(s)) {
      AcceptedIsSortedTokens(raw, maxIndex, allowAll);
    }
  }

  /** The tokens of "2,4,2". */
  lemma SplitExample()
    ensures Split("2,4,2", ',') == ["2", "4", "2"]
  {
    assert ',' !in "2" && ',' !in "4";
    SplitAt("4", "2", ',');
    assert "4" + [','] + "2" == "4,2";
    SplitAt("2", "4,2", ',');
    assert "2" + [','] + "4,2" == "2,4,2";
  }

  /** A one-digit token names the category of that number, if there is one. */
  lemma DigitToken(d: char, maxIndex: nat)
    requires IsDigit(d)
    ensures var v := d as int - '0' as int - 1;
            TokenIndex([d], maxIndex) == if 0 <= v < maxIndex then Some(v) else None
  {
    NoPadding([d]);
    assert IsDigits([d]);
    assert [d][..0] == [];
    assert DecimalValue([d]) == d as int - '0' as int;
  }

  /** "2,4,2" among five categories selects the second and fourth once each. */
  lemma DuplicateTokensCollapse(raw: string)
    requires raw == "2,4,2"
    ensures Selected(raw, 5, true) == Some([1, 3])
  {
    ExampleNormalize(raw);
    SplitExample();
    ExampleIndices(Tokens(raw));
    ExampleSortedSet([1, 3, 1]);
  }

  lemma ExampleNormalize(raw: string)
    requires raw == "2,4,2"
    ensures Normalize(raw) == raw && !IsAllWord(raw)
  {
    NoPadding(raw);
    LowerDigits(raw);
  }

  lemma ExampleSortedSet(s: seq<nat>)
    requires s == [1, 3, 1]
    ensures SortedSet(s) == [1, 3]
  {
    SortedSetIsTheSortedSet(s, [1, 3]);
  }

  lemma ExampleIndices(parts: seq<string>)
    requires parts == ["2", "4", "2"]
    ensures Indices(parts, Reader(5)) == Some([1, 3, 1])
  {
    DigitToken('2', 5);
    DigitToken('4', 5);
    var read := Reader(5);
    IndicesMeaning(parts, read);
    assert read(parts[0]) == Some(1) && read(parts[1]) == Some(3) && read(parts[2]) == Some(1);
    assert forall k :: 0 <= k < |parts| ==> read(parts[k]).Some?;
    var vs := Indices(parts, read).value;
    assert vs == [1, 3, 1];
  }

  /** A token that names no category ("0" here) rejects the whole line, the
      valid tokens before it included. */
  lemma OutOfRangeRejectsAll(raw: string)
    requires raw == "1,0"
    ensures Selected(raw, 3, true).None?
  {
    assert Normalize(raw) == raw && !IsAllWord(raw) by { NoPadding(raw); LowerDigits(raw); }
    assert Tokens(raw) == ["1", "0"] by {
      assert ',' !in "1" && ',' !in "0";
      SplitAt("1", "0", ',');
      assert "1" + [','] + "0" == raw;
    }
    DigitToken('0', 3);
    RejectedIffBadToken(raw, 3, true);
    assert TokenIndex(Tokens(raw)[1], 3).None?;
  }

  /** `confirm(prompt)` on the line the operator typed: a yes is one of the
      short words starting with `y` or `s`, whatever blanks surround it. */
  function Confirm(answer: string): (yes: bool)
    ensures yes ==> var s := Normalize(answer); 1 <= |s| <= 3 && (s[0] == 'y' || s[0] == 's')
    ensures yes ==> 1 <= |Strip(answer)| <= 3
  {
    IsYesWord(Normalize(answer))
  }

  /** Just pressing Enter (or typing blanks) answers no. */
  lemma DefaultIsNo(answer: string)
    requires AllSpace(answer)
    ensures !Confirm(answer)
  {
    StripBlank(answer);
  }

  /** Blanks around the answer and capital letters do not change it. */
  lemma ConfirmIgnoresPaddingAndCase(pre: string, word: string, post: string)
    requires AllSpace(pre) && AllSpace(post)
    requires word != "" && !IsSpace(word[0]) && !IsSpace(word[|word| - 1])
    ensures Confirm(pre + word + post) == IsYesWord(Lower(word))
  {
    StripPadding(pre, word, post);
  }

  /** "  SÍ " is a yes; "n" and "no" are not. */
  lemma ConfirmExamples()
    ensures Confirm("  SÍ ")
    ensures !Confirm("n") && !Confirm("no")
  {
    ConfirmIgnoresPaddingAndCase("  ", "SÍ", " ");
    assert "  " + "SÍ" + " " == "  SÍ ";
    assert Lower("SÍ") == "sí";
    NoPadding("n");
    NoPadding("no");
  }

  lemma NoPadding(s: string)
    requires s != "" && !IsSpace(s[0]) && !IsSpace(s[|s| - 1])
    ensures Strip(s) == s
  {
    StripPadding("", s, "");
    assert "" + s + "" == s;
  }

  lemma LowerDigits(s: string)
    requires forall i :: 0 <= i < |s| ==> s[i] == ',' || IsDigit(s[i])
    ensures Lower(s) == s
  {
  }
}
