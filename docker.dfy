/** The container engine's reclaimable space (`parse_docker_size` and
    `get_docker_reclaimable_bytes`).  The engine is reached through three
    answers given as parameters: whether `docker` is on the search path,
    whether `docker info` succeeds, and the lines `docker system df` prints
    (None when the command fails).  Each line is taken as already decoded
    from JSON. */
module Docker {
  import opened Wrappers
  import opened Text

  /** The exceptions the source lets escape from the line loop. */
  datatype Raised = IndexError | ValueError

  // ---------------------------------------------------------------------
  // parse_docker_size

  /** The decimal multipliers of the units the pattern admits. */
  function Multiplier(unit: string): nat {
    if unit == "kB" then 1_000
    else if unit == "MB" then 1_000_000
    else if unit == "GB" then 1_000_000_000
    else if unit == "TB" then 1_000_000_000_000
    else 1
  }

  predicate IsUnit(unit: string) {
    unit == "B" || unit == "kB" || unit == "MB" || unit == "GB" || unit == "TB"
  }

  /** A character of the mantissa class `[\d\.]`. */
  predicate IsMantissaChar(c: char) {
    IsDigit(c) || c == '.'
  }

  /** The length of the longest run of mantissa characters at the start. */
  function MantissaLength(s: string): (k: nat)
    ensures k <= |s|
    ensures forall i :: 0 <= i < k ==> IsMantissaChar(s[i])
    ensures k < |s| ==> !IsMantissaChar(s[k])
  {
    if s == [] || !IsMantissaChar(s[0]) then 0 else 1 + MantissaLength(s[1..])
  }

  /** The optional letter of `[kMGT]?B`. */
  predicate IsUnitLetter(c: char) {
    c == 'k' || c == 'M' || c == 'G' || c == 'T'
  }

  datatype SizeMatch = SizeMatch(mantissa: string, unit: string)

  /** `re.match(r"([\d\.]+)([kMGT]?B)", s)`.  A unit letter is never a
      mantissa character, so backtracking into the mantissa cannot help: the
      unit has to follow the longest run. */
  function MatchSize(s: string): (m: Option<SizeMatch>)
    ensures m.Some? ==> |m.value.mantissa| > 0 && IsUnit(m.value.unit)
    ensures m.Some? ==> |m.value.mantissa| + |m.value.unit| <= |s|
    ensures m.Some? ==> s[..|m.value.mantissa| + |m.value.unit|] == m.value.mantissa + m.value.unit
    ensures m.Some? ==> forall i :: 0 <= i < |m.value.mantissa| ==> IsMantissaChar(m.value.mantissa[i])
  {
    var k := MantissaLength(s);
    if k == 0 then None
    else if k < |s| && s[k] == 'B' then
      assert s[..k + 1] == s[..k] + "B";
      Some(SizeMatch(s[..k], "B"))
    else if k + 1 < |s| && IsUnitLetter(s[k]) && s[k + 1] == 'B' then
      assert s[..k + 2] == s[..k] + [s[k], 'B'];
      Some(SizeMatch(s[..k], [s[k], 'B']))
    else None
  }

  /** An exact decimal fraction `numerator / 10^places`. */
  datatype Fraction = Fraction(numerator: nat, places: nat)

  function Pow10(n: nat): (p: nat)
    ensures p >= 1
  {
    if n == 0 then 1 else 10 * Pow10(n - 1)
  }

  /** `float(m)` for a run of digits and dots, as an exact fraction: None
      where `float` raises, that is when there are two dots or no digit. */
  function MantissaValue(m: string): (v: Option<Fraction>)
    requires forall i :: 0 <= i < |m| ==> IsMantissaChar(m[i])
    ensures '.' !in m ==> (v.Some? <==> m != "") && (v.Some? ==> v.value.places == 0)
  {
    if '.' !in m then
      assert forall j :: 0 <= j < |m| ==> IsDigit(m[j]) by {
        forall j | 0 <= j < |m| ensures IsDigit(m[j]) {
          assert IsMantissaChar(m[j]) && m[j] != '.';
        }
      }
      if m == "" then None else Some(Fraction(DecimalValue(m), 0))
    else
      var i := IndexOf(m, '.');
      var digits := m[..i] + m[i + 1..];
      if '.' in m[i + 1..] || digits == "" then None
      else
        assert forall j :: 0 <= j < |digits| ==> IsDigit(digits[j]) by {
          forall j | 0 <= j < |digits| ensures IsDigit(digits[j]) {
            if j < i {
              assert digits[j] == m[..i][j] == m[j];
              assert m[j] != '.';
            } else {
              assert digits[j] == m[i + 1..][j - i] == m[j + 1];
              assert m[j + 1] != '.';
            }
            assert IsMantissaChar(digits[j]);
          }
        }
        Some(Fraction(DecimalValue(digits), |m| - i - 1))
  }

  /** `parse_docker_size` as written: no match gives 0, a mantissa that
      `float` rejects raises `ValueError`, and otherwise the value times the
      unit's multiplier, truncated. */
  function ParseDockerSizeAsWritten(s: string): Result<nat, Raised> {
    var m := MatchSize(s);
    if m.None? then Ok(0)
    else
      var v := MantissaValue(m.value.mantissa);
      if v.None? then Err(ValueError)
      else Ok(Scaled(v.value, Multiplier(m.value.unit)))
  }

  /** `int(value * multiplier)`: the fraction times the unit, truncated. */
  function Scaled(v: Fraction, multiplier: nat): nat {
    Truncate(v.numerator * multiplier, Pow10(v.places))
  }

  /** The whole part of `a / b`. */
  function Truncate(a: nat, b: nat): nat
    requires b > 0
  {
    a / b
  }

  /** `parse_docker_size` with the evident intent that a text it cannot read
      counts as 0 instead of raising. */
  function ParseDockerSize(s: string): (n: nat)
    ensures MatchSize(s).None? ==> n == 0
    ensures ParseDockerSizeAsWritten(s).Ok? ==> n == ParseDockerSizeAsWritten(s).value
  {
    var m := MatchSize(s);
    if m.None? then 0
    else
      var v := MantissaValue(m.value.mantissa);
      if v.None? then 0
      else Scaled(v.value, Multiplier(m.value.unit))
  }

  lemma {:induction false} MantissaLengthOfRun(a: string, b: string)
    requires forall i :: 0 <= i < |a| ==> IsMantissaChar(a[i])
    requires b != [] && !IsMantissaChar(b[0])
    ensures MantissaLength(a + b) == |a|
    decreases |a|
  {
    if a != [] {
      assert (a + b)[1..] == a[1..] + b;
      MantissaLengthOfRun(a[1..], b);
    }
  }

  /** A run of mantissa characters followed by a unit matches with that run
      as the mantissa, whatever follows the unit. */
  lemma MatchMantissa(m: string, unit: string, rest: string)
    requires |m| > 0 && forall i :: 0 <= i < |m| ==> IsMantissaChar(m[i])
    requires IsUnit(unit)
    ensures MatchSize(m + unit + rest) == Some(SizeMatch(m, unit))
  {
    var s := m + unit + rest;
    assert s == m + (unit + rest);
    MantissaLengthOfRun(m, unit + rest);
    assert s[..|m|] == m;
    assert s[|m|] == unit[0];
    if |unit| == 2 {
      assert s[|m| + 1] == unit[1];
      assert unit == [unit[0], 'B'];
    }
  }

  lemma ValueOfNumeral(digits: string)
    requires IsDigits(digits)
    ensures MantissaValue(digits) == Some(Fraction(DecimalValue(digits), 0))
  {
    assert '.' !in digits by {
      forall i | 0 <= i < |digits| ensures digits[i] != '.' { assert IsDigit(digits[i]); }
    }
  }

  /** Reading back what `docker` prints: a whole number of units, followed by
      anything (" (50%)", say), parses to that number times the unit. */
  lemma ParseWholeUnits(n: nat, unit: string, rest: string)
    requires IsUnit(unit)
    ensures ParseDockerSize(Decimal(n) + unit + rest) == n * Multiplier(unit)
  {
    var digits := Decimal(n);
    MatchMantissa(digits, unit, rest);
    ValueOfNumeral(digits);
    DecimalRoundTrip(n);
    assert Scaled(Fraction(n, 0), Multiplier(unit)) == n * Multiplier(unit);
  }

  lemma DotAfterDigits(a: string, b: string)
    requires forall i :: 0 <= i < |a| ==> IsDigit(a[i])
    ensures IndexOf(a + "." + b, '.') == |a|
  {
    var m := a + "." + b;
    assert m[..|a|] == a;
    assert '.' !in a by {
      forall i | 0 <= i < |a| ensures a[i] != '.' { assert IsDigit(a[i]); }
    }
    assert m[|a|] == '.';
  }

  lemma FractionChars(a: string, b: string)
    requires forall i :: 0 <= i < |a| ==> IsDigit(a[i])
    requires forall i :: 0 <= i < |b| ==> IsDigit(b[i])
    ensures forall i :: 0 <= i < |a + "." + b| ==> IsMantissaChar((a + "." + b)[i])
  {
    var m := a + "." + b;
    forall i | 0 <= i < |m| ensures IsMantissaChar(m[i]) {
      if i < |a| { assert m[i] == a[i]; } else if i > |a| { assert m[i] == b[i - |a| - 1]; }
    }
  }

  lemma ValueOfFraction(a: string, b: string)
    requires forall i :: 0 <= i < |a| ==> IsDigit(a[i])
    requires forall i :: 0 <= i < |b| ==> IsDigit(b[i])
    requires |a| + |b| > 0
    ensures forall i :: 0 <= i < |a + b| ==> IsDigit((a + b)[i])
    ensures MantissaValue(a + "." + b) == Some(Fraction(DecimalValue(a + b), |b|))
  {
    var m := a + "." + b;
    assert forall i :: 0 <= i < |a + b| ==> IsDigit((a + b)[i]) by {
      forall i | 0 <= i < |a + b| ensures IsDigit((a + b)[i]) {
        if i < |a| { assert (a + b)[i] == a[i]; } else { assert (a + b)[i] == b[i - |a|]; }
      }
    }
    DotAfterDigits(a, b);
    assert m[..|a|] == a && m[|a| + 1..] == b;
    assert '.' !in b by {
      forall i | 0 <= i < |b| ensures b[i] != '.' { assert IsDigit(b[i]); }
    }
  }

  /** A mantissa with one dot reads as an exact fraction: `a.b` followed by a
      unit is the digits of `a` and `b` together, times the unit, divided by
      ten to the number of digits after the dot, truncated. */
  lemma ParseDecimalFraction(a: string, b: string, unit: string, rest: string)
    requires forall i :: 0 <= i < |a| ==> IsDigit(a[i])
    requires forall i :: 0 <= i < |b| ==> IsDigit(b[i])
    requires |a| + |b| > 0 && IsUnit(unit)
    ensures forall i :: 0 <= i < |a + b| ==> IsDigit((a + b)[i])
    ensures ParseDockerSize(a + "." + b + unit + rest)
         == Truncate(DecimalValue(a + b) * Multiplier(unit), Pow10(|b|))
  {
    FractionChars(a, b);
    MatchMantissa(a + "." + b, unit, rest);
    ValueOfFraction(a, b);
  }

  /** "1.5GB" is one and a half thousand million bytes. */
  lemma ParseOneAndAHalfGigabytes()
    ensures ParseDockerSize("1.5GB") == 1_500_000_000
  {
    calc {
      ParseDockerSize("1.5GB");
      { assert "1.5GB" == "1" + "." + "5" + "GB" + ""; }
      ParseDockerSize("1" + "." + "5" + "GB" + "");
      { ParseDecimalFraction("1", "5", "GB", ""); }
      Truncate(DecimalValue("1" + "5") * Multiplier("GB"), Pow10(|"5"|));
      { assert "1" + "5" == "15"; assert "15"[..1] == "1"; }
      Truncate(15 * Multiplier("GB"), Pow10(1));
      1_500_000_000;
    }
  }

  // ---------------------------------------------------------------------
  // get_docker_reclaimable_bytes

  /** One line of `docker system df --format "{{json .}}"`: blank after
      stripping, not JSON, or a JSON object with or without a `Reclaimable`
      string. */
  datatype DfLine = Blank | NotJson | Record(reclaimable: Option<string>)

  /** `info.get("Reclaimable", "")`. */
  function ReclaimableField(line: DfLine): string
    requires line.Record?
  {
    if line.reclaimable.None? then "" else line.reclaimable.value
  }

  /** The lines the loop passes over without parsing. */
  predicate Skipped(line: DfLine) {
    line.Blank? || line.NotJson?
    || var rec := ReclaimableField(line); rec == "" || StartsWith(rec, "0B")
  }

  /** What one line adds as written: `rec.split()[0]` raises `IndexError`
      when `rec` is all whitespace. */
  function LineBytesAsWritten(line: DfLine): Result<nat, Raised> {
    if Skipped(line) then Ok(0)
    else
      var first := FirstWord(ReclaimableField(line));
      if first.None? then Err(IndexError) else ParseDockerSizeAsWritten(first.value)
  }

  /** What one line adds when nothing it holds can raise. */
  function LineBytes(line: DfLine): (n: nat)
    ensures Skipped(line) ==> n == 0
    ensures LineBytesAsWritten(line).Ok? ==> n == LineBytesAsWritten(line).value
  {
    if Skipped(line) then 0
    else
      var first := FirstWord(ReclaimableField(line));
      if first.None? then 0 else ParseDockerSize(first.value)
  }

  /** The reclaimable total as written: the first line that raises ends the
      loop, and with it the whole scan. */
  function ReclaimableAsWritten(lines: seq<DfLine>): Result<nat, Raised> {
    if lines == [] then Ok(0)
    else
      var before := ReclaimableAsWritten(lines[..|lines| - 1]);
      if before.Err? then before
      else
        var last := LineBytesAsWritten(lines[|lines| - 1]);
        if last.Err? then last else Ok(before.value + last.value)
  }

  /** The reclaimable total: the sum of what every line adds. */
  function ReclaimableTotal(lines: seq<DfLine>): nat {
    if lines == [] then 0 else ReclaimableTotal(lines[..|lines| - 1]) + LineBytes(lines[|lines| - 1])
  }

  /** Wherever the source returns a total, the corrected total is that same
      total. */
  lemma {:induction false} CorrectionAgrees(lines: seq<DfLine>)
    ensures ReclaimableAsWritten(lines).Ok? ==> ReclaimableAsWritten(lines).value == ReclaimableTotal(lines)
  {
    if lines != [] {
      CorrectionAgrees(lines[..|lines| - 1]);
    }
  }

  /** A line whose `Reclaimable` is only whitespace aborts the loop as
      written, and adds nothing once corrected. */
  lemma WhitespaceReclaimableRaises()
    ensures ReclaimableAsWritten([Record(Some(" "))]) == Err(IndexError)
    ensures ReclaimableTotal([Record(Some(" "))]) == 0
  {
    assert [Record(Some(" "))][..0] == [];
    assert !Skipped(Record(Some(" ")));
    assert FirstWord(" ").None?;
  }

  /** A mantissa with two dots matches the pattern but makes `float` raise. */
  lemma TwoDotMantissaRaises()
    ensures ReclaimableAsWritten([Record(Some("1.2.3GB"))]) == Err(ValueError)
    ensures ReclaimableTotal([Record(Some("1.2.3GB"))]) == 0
  {
    var line := Record(Some("1.2.3GB"));
    assert [line][..0] == [];
    assert !Skipped(line) by { assert "1.2.3GB"[..2][0] == '1'; }
    WordIsFirst("1.2.3GB");
    ParseTwoDots();
  }

  lemma ParseTwoDots()
    ensures ParseDockerSizeAsWritten("1.2.3GB") == Err(ValueError)
    ensures ParseDockerSize("1.2.3GB") == 0
  {
    var m := "1.2.3";
    assert "1.2.3GB" == m + "GB" + "";
    assert forall i :: 0 <= i < |m| ==> IsMantissaChar(m[i]);
    MatchMantissa(m, "GB", "");
    TwoDotsRejected(m);
  }

  lemma TwoDotsRejected(m: string)
    requires m == "1.2.3"
    ensures forall i :: 0 <= i < |m| ==> IsMantissaChar(m[i])
    ensures MantissaValue(m).None?
  {
    assert IndexOf(m, '.') == 1;
    assert m[2..][1] == '.';
  }

  /** The total is a sum over lines: it splits at any point. */
  lemma {:induction false} ReclaimableTotalAppend(a: seq<DfLine>, b: seq<DfLine>)
    ensures ReclaimableTotal(a + b) == ReclaimableTotal(a) + ReclaimableTotal(b)
    decreases |b|
  {
    if b == [] {
      assert a + b == a;
    } else {
      assert (a + b)[..|a + b| - 1] == a + b[..|b| - 1];
      ReclaimableTotalAppend(a, b[..|b| - 1]);
    }
  }

  /** The answers the engine gives during a scan. */
  datatype DockerEnv = DockerEnv(onPath: bool, infoSucceeds: bool, dfOutput: Option<seq<DfLine>>)

  /** `docker_is_running()`: on the search path and `docker info` succeeds. */
  predicate IsRunning(env: DockerEnv) {
    env.onPath && env.infoSucceeds
  }

  /** What `get_docker_reclaimable_bytes` returns: 0 when `docker` is not on
      the search path or `docker system df` fails. */
  function Reclaimable(env: DockerEnv): (n: nat)
    ensures !env.onPath || env.dfOutput.None? ==> n == 0
    ensures env.onPath && env.dfOutput.Some? ==> n == ReclaimableTotal(env.dfOutput.value)
  {
    if !env.onPath || env.dfOutput.None? then 0 else ReclaimableTotal(env.dfOutput.value)
  }

  /** `get_docker_reclaimable_bytes()`: the line loop with its running total. */
  method GetDockerReclaimableBytes(env: DockerEnv) returns (total: nat)
    ensures total == Reclaimable(env)
  {
    if !env.onPath {
      return 0;
    }
    if env.dfOutput.None? {
      return 0;
    }
    var lines := env.dfOutput.value;
    total := 0;
    for i := 0 to |lines|
      invariant total == ReclaimableTotal(lines[..i])
    {
      assert lines[..i + 1][..i] == lines[..i];
      var line := lines[i];
      if line.Blank? || line.NotJson? {
        continue;
      }
      var rec := if line.reclaimable.None? then "" else line.reclaimable.value;
      if rec == "" || StartsWith(rec, "0B") {
        continue;
      }
      var first := FirstWord(rec);
      if first.Some? {
        total := total + ParseDockerSize(first.value);
      }
    }
    assert lines[..|lines|] == lines;
  }
}
