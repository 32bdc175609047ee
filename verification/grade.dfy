/** The university grade (entity/src/grade.rs): a degree letter followed by
    a year number, its text form, and the parser with its two rewrite
    branches for high-school and alumni spellings. */
module Grades {

  import opened Basics
  import opened Decimal
  import DegreeCodec

  datatype Grade = Grade(degreeStep: DegreeCodec.Degree, nth: U16)

  /** The two error messages `from_str` produces. */
  datatype GradeError = InvalidGrade | InvalidDegreeStep

  /** `Display`: the degree letter followed by the year in decimal. */
  function Display(g: Grade): (t: string)
    ensures |t| >= 2 && IsDegreeLetter(t[0]) && t[..1] == DegreeCodec.Display(g.degreeStep)
    ensures AllDigits(t[1..]) && Value(t[1..]) == g.nth
  {
    ValueOfFormat(g.nth);
    var t := DegreeCodec.Display(g.degreeStep) + Format(g.nth);
    assert t[1..] == Format(g.nth);
    t
  }

  // ---------------------------------------------------------------- splitting

  /** Index of the first ASCII digit, or `|s|` when there is none. */
  function FirstDigit(s: string): (i: nat)
    ensures i <= |s|
    ensures forall k :: 0 <= k < i ==> !IsDigit(s[k])
    ensures i < |s| ==> IsDigit(s[i])
  {
    if s == [] then 0
    else if IsDigit(s[0]) then 0
    else 1 + FirstDigit(s[1..])
  }

  /** `split_alpha_numeric`, splitting at the first digit's position
      counted in characters: the prefix holds no digit and the suffix is
      empty or starts with one. */
  function SplitAlphaNumeric(s: string): (r: (string, string))
    ensures r.0 + r.1 == s
    ensures forall k :: 0 <= k < |r.0| ==> !IsDigit(r.0[k])
    ensures r.1 == [] || IsDigit(r.1[0])
  {
    var i := FirstDigit(s);
    (s[..i], s[i..])
  }

  /** The split is unique: any cut meeting the three conditions is the one
      `SplitAlphaNumeric` makes. */
  lemma SplitUnique(s: string, a: string, n: string)
    requires a + n == s
    requires forall k :: 0 <= k < |a| ==> !IsDigit(a[k])
    requires n == [] || IsDigit(n[0])
    ensures SplitAlphaNumeric(s) == (a, n)
  {
    assert forall k :: 0 <= k < |a| ==> s[k] == a[k];
    assert |a| < |s| ==> s[|a|] == n[0];
    assert FirstDigit(s) == |a|;
    assert s[..|a|] == a;
  }

  // ---------------------------------------------------------------- rewrites

  predicate StartsWith(s: string, p: string) {
    |p| <= |s| && s[..|p|] == p
  }

  predicate EndsWith(s: string, p: string) {
    |p| <= |s| && s[|s| - |p|..] == p
  }

  /** `s.replace(pat, "")`: deletes the non-overlapping occurrences of
      `pat` found scanning left to right. */
  function RemoveAll(s: string, pat: string): (r: string)
    requires pat != []
    ensures |r| <= |s|
    decreases |s|
  {
    if |s| < |pat| then s
    else if s[..|pat|] == pat then RemoveAll(s[|pat|..], pat)
    else [s[0]] + RemoveAll(s[1..], pat)
  }

  /** Deleting a pattern keeps a leading character the pattern cannot start
      with. */
  lemma RemoveAllKeepsHead(s: string, pat: string)
    requires pat != [] && s != [] && s[0] != pat[0]
    ensures RemoveAll(s, pat) != [] && RemoveAll(s, pat)[0] == s[0]
  {
  }

  /** The source text after the high-school (`高…`) and alumni
      (`OB - …卒`) rewrites, or the early "invalid grade" of the
      high-school branch. */
  function Rewrite(s: string): (r: Result<string, GradeError>)
    ensures !StartsWith(s, "高") && !(StartsWith(s, "OB - ") && EndsWith(s, "卒")) ==> r == Ok(s)
    ensures r.Err? ==> StartsWith(s, "高") && r.error == InvalidGrade
    ensures StartsWith(s, "高") && r.Ok? ==> r.value == "H1" || r.value == "H2" || r.value == "H3"
    ensures StartsWith(s, "OB - ") && EndsWith(s, "卒") ==> r.Ok? && r.value != [] && r.value[0] == 'O'
  {
    if StartsWith(s, "高") then
      var a := RemoveAll(s, "高校");
      var b := if EndsWith(a, "年生") then RemoveAll(a, "年生") else a;
      if b == "1" || b == "一" then Ok("H1")
      else if b == "2" || b == "二" then Ok("H2")
      else if b == "3" || b == "三" then Ok("H3")
      else Err(InvalidGrade)
    else if StartsWith(s, "OB - ") && EndsWith(s, "卒") then
      RemoveAllKeepsHead(s, " - ");
      RemoveAllKeepsHead(RemoveAll(s, " - "), "卒");
      Ok(RemoveAll(RemoveAll(s, " - "), "卒"))
    else
      Ok(s)
  }

  /** Degree and year from an already rewritten source text. */
  function ParseParts(alpha: string, numeric: string): Result<Grade, GradeError> {
    match DegreeCodec.FromStr(alpha)
    case Err(_) => Err(InvalidDegreeStep)
    case Ok(d) =>
      match ParseU16(numeric)
      case None => Err(InvalidGrade)
      case Some(n) => Ok(Grade(d, n))
  }

  /** `Grade::from_str`. */
  function FromStr(s: string): (r: Result<Grade, GradeError>)
    ensures r.Ok? ==> s != [] && !StartsWith(s, "高")
  {
    match Rewrite(s)
    case Err(e) => Err(e)
    case Ok(src) =>
      var parts := SplitAlphaNumeric(src);
      ParseParts(parts.0, parts.1)
  }

  // ---------------------------------------------------------------- properties

  predicate IsDegreeLetter(c: char) {
    c == 'B' || c == 'M' || c == 'D'
  }

  /** A prefix that is not exactly one degree letter is rejected as an
      invalid degree step, whatever follows. */
  lemma BadPrefixRejected(src: string)
    requires var a := SplitAlphaNumeric(src).0; !(|a| == 1 && IsDegreeLetter(a[0]))
    ensures var p := SplitAlphaNumeric(src); ParseParts(p.0, p.1) == Err(InvalidDegreeStep)
  {
  }

  /** Every input starting with `高` is rejected: either its numeral is not
      one of 1-3 (invalid grade), or it becomes `H1`-`H3`, whose prefix `H`
      is no degree (invalid degree step). */
  lemma HighSchoolAlwaysRejected(s: string)
    requires StartsWith(s, "高")
    ensures FromStr(s).Err?
    ensures Rewrite(s).Ok? ==> FromStr(s) == Err(InvalidDegreeStep)
    ensures Rewrite(s).Err? ==> FromStr(s) == Err(InvalidGrade)
  {
    match Rewrite(s)
    case Err(_) =>
    case Ok(src) =>
      assert src == "H1" || src == "H2" || src == "H3";
      assert SplitAlphaNumeric(src).0 == "H" by {
        SplitUnique(src, "H", src[1..]);
      }
      BadPrefixRejected(src);
  }

  /** The high-school tier of a numeral: `1`/`一`, `2`/`二` and `3`/`三`
      give `H1`..`H3`; anything else is an invalid grade. */
  function HighSchoolTier(c: char): Result<string, GradeError> {
    if c == '1' || c == '一' then Ok("H1")
    else if c == '2' || c == '二' then Ok("H2")
    else if c == '3' || c == '三' then Ok("H3")
    else Err(InvalidGrade)
  }

  /** Deleting `高校` and then `年生` from `高校`, a numeral and `年生`
      leaves the numeral. */
  lemma StripHighSchool(c: char)
    ensures RemoveAll("高校" + [c] + "年生", "高校") == [c] + "年生"
    ensures RemoveAll([c] + "年生", "年生") == [c]
  {
    var long := "高校" + [c] + "年生";
    var rest := [c] + "年生";
    assert long[..2] == "高校" && long[2..] == rest;
    assert rest[..2] != "高校" && rest[..2] != "年生" by { assert rest[1] == '年'; }
    assert rest[1..] == "年生";
    assert RemoveAll("年生", "高校") == "年生" by {
      assert "年生"[..2] != "高校";
      assert "年生"[1..] == "生";
    }
    assert RemoveAll("年生", "年生") == [] by { assert "年生"[..2] == "年生"; }
  }

  /** `高校` + numeral + `年生`: both words are deleted and the numeral
      picks the tier. */
  lemma HighSchoolYearForm(c: char)
    ensures Rewrite("高校" + [c] + "年生") == HighSchoolTier(c)
  {
    var long := "高校" + [c] + "年生";
    assert StartsWith(long, "高") by { assert long[..1] == "高"; }
    StripHighSchool(c);
    var rest := [c] + "年生";
    assert EndsWith(rest, "年生") by { assert rest[|rest| - 2..] == "年生"; }
  }

  /** `高校` + numeral: `高校` is deleted and the numeral picks the tier. */
  lemma HighSchoolShortForm(c: char)
    ensures Rewrite("高校" + [c]) == HighSchoolTier(c)
  {
    var short := "高校" + [c];
    assert StartsWith(short, "高") by { assert short[..1] == "高"; }
    assert short[..2] == "高校" && short[2..] == [c];
    assert RemoveAll(short, "高校") == [c];
  }

  /** A bare `高` is not deleted, so `高` + numeral is an invalid grade. */
  lemma HighSchoolBareRejected(c: char)
    ensures Rewrite("高" + [c]) == Err(InvalidGrade)
  {
    var bare := "高" + [c];
    assert StartsWith(bare, "高") by { assert bare[..1] == "高"; }
    if c == '校' {
      assert bare[..2] == "高校" && bare[2..] == [];
      assert RemoveAll(bare, "高校") == [];
    } else {
      assert bare[..2] != "高校" by { assert bare[1] == c; }
      assert RemoveAll(bare, "高校") == bare by {
        assert bare[1..] == [c];
        assert RemoveAll([c], "高校") == [c];
      }
      assert !EndsWith(bare, "年生") by { assert bare[0] == '高'; }
    }
  }

  /** Every `OB - …卒` input is rejected: the rewritten text still starts
      with `OB`, so its prefix is never a degree letter. */
  lemma AlumniAlwaysRejected(s: string)
    requires StartsWith(s, "OB - ") && EndsWith(s, "卒")
    ensures FromStr(s) == Err(InvalidDegreeStep)
  {
    assert !StartsWith(s, "高") by { assert s[0] == 'O'; }
    var t := RemoveAll(s, " - ");
    RemoveAllKeepsHead(s, " - ");
    assert t[0] == 'O';
    var src := RemoveAll(t, "卒");
    RemoveAllKeepsHead(t, "卒");
    assert src[0] == 'O';
    assert Rewrite(s) == Ok(src);
    var a := SplitAlphaNumeric(src).0;
    assert FirstDigit(src) > 0;
    assert a[0] == 'O';
    BadPrefixRejected(src);
  }

  /** The rewritten inputs are rejected and do not start with a degree
      letter. */
  lemma RewrittenNotAccepted(s: string)
    requires StartsWith(s, "高") || (StartsWith(s, "OB - ") && EndsWith(s, "卒"))
    ensures FromStr(s).Err?
    ensures !(|s| >= 2 && IsDegreeLetter(s[0]))
  {
    if StartsWith(s, "高") {
      HighSchoolAlwaysRejected(s);
      assert s[..1][0] == s[0] == '高';
    } else {
      AlumniAlwaysRejected(s);
      assert s[..5][0] == s[0] == 'O';
    }
  }

  /** Without a rewrite, the accepted inputs are a degree letter and a
      digit string of value at most 65535. */
  lemma AcceptedPlain(s: string)
    requires Rewrite(s) == Ok(s)
    ensures FromStr(s).Ok? <==>
              |s| >= 2 && IsDegreeLetter(s[0]) && AllDigits(s[1..]) && Value(s[1..]) <= 0xFFFF
    ensures FromStr(s).Ok? ==>
              DegreeCodec.Display(FromStr(s).value.degreeStep) == s[..1] &&
              FromStr(s).value.nth == Value(s[1..])
  {
    if |s| >= 2 && IsDegreeLetter(s[0]) && AllDigits(s[1..]) {
      assert s[..1] + s[1..] == s;
      SplitUnique(s, s[..1], s[1..]);
    }
    var p := SplitAlphaNumeric(s);
    if |p.0| == 1 && IsDegreeLetter(p.0[0]) {
      assert p.0 == s[..1] && p.1 == s[1..];
      assert p.0 == "B" || p.0 == "M" || p.0 == "D";
    } else {
      BadPrefixRejected(s);
    }
  }

  /** The accepted inputs are exactly a degree letter followed by one or
      more ASCII digits of value at most 65535 (leading zeros allowed); the
      year is that value. */
  lemma AcceptedExactly(s: string)
    ensures FromStr(s).Ok? <==>
              |s| >= 2 && IsDegreeLetter(s[0]) && AllDigits(s[1..]) && Value(s[1..]) <= 0xFFFF
    ensures FromStr(s).Ok? ==>
              DegreeCodec.Display(FromStr(s).value.degreeStep) == s[..1] &&
              FromStr(s).value.nth == Value(s[1..])
  {
    if StartsWith(s, "高") || (StartsWith(s, "OB - ") && EndsWith(s, "卒")) {
      RewrittenNotAccepted(s);
    } else {
      assert Rewrite(s) == Ok(s);
      AcceptedPlain(s);
    }
  }

  /** Round trip: rendering a grade and parsing it back gives the grade. */
  lemma RoundTrip(g: Grade)
    ensures FromStr(Display(g)) == Ok(g)
  {
    var s := Display(g);
    var letter := DegreeCodec.Display(g.degreeStep);
    assert s[0] == letter[0];
    assert s[1..] == Format(g.nth);
    ValueOfFormat(g.nth);
    AcceptedExactly(s);
    assert s[..1] == letter;
    DegreeCodec.RoundTrip(g.degreeStep, FromStr(s).value.degreeStep, letter);
  }

  /** A year part that is empty, not all digits, or above 65535 is
      rejected as an invalid grade; concrete instances. */
  lemma EmptyYearRejected()
    ensures FromStr("B") == Err(InvalidGrade)
  {
    SplitUnique("B", "B", "");
  }

  lemma NonNumericYearRejected()
    ensures FromStr("B3a") == Err(InvalidGrade)
  {
    SplitUnique("B3a", "B", "3a");
    assert !AllDigits("3a") by { assert !IsDigit("3a"[1]); }
  }

  lemma OversizedYearRejected()
    ensures FromStr("B70000") == Err(InvalidGrade)
  {
    SplitUnique("B70000", "B", "70000");
    assert Value("70000") == 70000 by {
      assert "70000"[..4] == "7000" && "7000"[..3] == "700" && "700"[..2] == "70" && "70"[..1] == "7";
    }
  }
}
