/** `split_alpha_numeric` as entity/src/grade.rs:20-29 writes it: the
    position of the first digit is counted in characters
    (`chars().position`) but then used as a BYTE index to slice the `&str`.
    Slicing a `&str` at a byte index that is not a character boundary
    panics, so a non-ASCII character before the first digit makes
    `Grade::from_str` panic instead of returning an error. `Grades` holds
    the corrected split (by character position) that the rest of the model
    uses. */
module GradeAsWritten {

  import opened Basics
  import opened Decimal
  import opened Grades

  /** Bytes `c` occupies in UTF-8. */
  function Utf8Len(c: char): (n: nat)
    ensures 1 <= n <= 4
    ensures n == 1 <==> (c as int) < 0x80
  {
    if (c as int) < 0x80 then 1
    else if (c as int) < 0x800 then 2
    else if (c as int) < 0x10000 then 3
    else 4
  }

  /** `str::len`: the UTF-8 byte length. */
  function ByteLen(s: string): (n: nat)
    ensures n >= |s|
    ensures n == |s| <==> forall k :: 0 <= k < |s| ==> (s[k] as int) < 0x80
  {
    if s == [] then 0 else Utf8Len(s[0]) + ByteLen(s[1..])
  }

  lemma ByteLenOfPrefix(s: string, j: nat)
    requires 1 <= j <= |s|
    ensures ByteLen(s[..j]) == Utf8Len(s[0]) + ByteLen(s[1..][..j - 1])
  {
    assert s[..j][1..] == s[1..][..j - 1];
  }

  /** The character index at which byte offset `b` falls on a character
      boundary, or `None` when `b` cuts a character (or lies past the
      end). */
  function CharIndexAt(s: string, b: nat): (r: Option<nat>)
    ensures r.Some? ==> r.value <= |s| && ByteLen(s[..r.value]) == b
    ensures r.None? ==> forall j :: 0 <= j <= |s| ==> ByteLen(s[..j]) != b
    decreases |s|
  {
    if b == 0 then Some(0)
    else if s == [] then None
    else if b < Utf8Len(s[0]) then
      assert forall j :: 1 <= j <= |s| ==> ByteLen(s[..j]) >= Utf8Len(s[0]) by {
        forall j | 1 <= j <= |s| { ByteLenOfPrefix(s, j); }
      }
      None
    else
      match CharIndexAt(s[1..], b - Utf8Len(s[0]))
      case None =>
        assert forall j :: 1 <= j <= |s| ==> ByteLen(s[..j]) != b by {
          forall j | 1 <= j <= |s| { ByteLenOfPrefix(s, j); }
        }
        None
      case Some(j) =>
        ByteLenOfPrefix(s, j + 1);
        Some(j + 1)
  }

  /** The split as written; `None` stands for the slicing panic, which
      happens exactly when the first digit's CHARACTER index, read as a
      byte offset, falls inside a character. Otherwise the prefix is the
      one whose UTF-8 length is that index. */
  function SplitAsWritten(s: string): (r: Option<(string, string)>)
    ensures r.None? <==>
              FirstDigit(s) < |s| && forall j :: 0 <= j <= |s| ==> ByteLen(s[..j]) != FirstDigit(s)
    ensures r.Some? ==> r.value.0 + r.value.1 == s
    ensures r.Some? && FirstDigit(s) < |s| ==> ByteLen(r.value.0) == FirstDigit(s)
    ensures FirstDigit(s) == |s| ==> r == Some((s, []))
  {
    var p := FirstDigit(s);
    if p == |s| then Some((s, []))
    else
      match CharIndexAt(s, p)
      case None => None
      case Some(j) =>
        assert s[..j] + s[j..] == s;
        Some((s[..j], s[j..]))
  }

  /** `Grade::from_str` as written; `None` stands for the panic. The
      rewrite's own error is returned before any split, and a panic needs a
      non-ASCII character before the first digit of the rewritten text. */
  function FromStrAsWritten(s: string): (r: Option<Result<Grade, GradeError>>)
    ensures Rewrite(s).Err? ==> r == Some(Err(InvalidGrade))
    ensures r.None? ==>
              Rewrite(s).Ok? &&
              exists k :: 0 <= k < FirstDigit(Rewrite(s).value) && (Rewrite(s).value[k] as int) >= 0x80
  {
    match Rewrite(s)
    case Err(e) => Some(Err(e))
    case Ok(src) =>
      match SplitAsWritten(src)
      case None =>
        PanicNeedsNonAsciiPrefix(src);
        None
      case Some(parts) => Some(ParseParts(parts.0, parts.1))
  }

  /** The slicing panic needs a non-ASCII character before the first
      digit. */
  lemma PanicNeedsNonAsciiPrefix(s: string)
    requires SplitAsWritten(s).None?
    ensures exists k :: 0 <= k < FirstDigit(s) && (s[k] as int) >= 0x80
  {
    if forall k :: 0 <= k < FirstDigit(s) ==> (s[k] as int) < 0x80 {
      SplitAgreesOnAsciiPrefix(s);
    }
  }

  /** Counterexample: `学1` panics as written, where the corrected parser
      answers "invalid degree step". */
  lemma PanicsOnNonAsciiPrefix()
    ensures FromStrAsWritten("学1") == None
    ensures FromStr("学1") == Err(InvalidDegreeStep)
  {
    var s := "学1";
    assert s[..1] == ['学'];
    assert !StartsWith(s, "高") && !StartsWith(s, "OB - ");
    assert Rewrite(s) == Ok(s);
    assert FirstDigit(s) == 1;
    assert ByteLen(s[..0]) == 0;
    assert s[..1] == "学" && ByteLen("学") == 3;
    assert ByteLen(s[..2]) >= 3 by { ByteLenOfPrefix(s, 2); }
    assert CharIndexAt(s, 1) == None;
    SplitUnique(s, "学", "1");
  }

  /** When the characters before the first digit are ASCII, character and
      byte positions coincide and the as-written split is the corrected
      one. */
  lemma SplitAgreesOnAsciiPrefix(s: string)
    requires forall k :: 0 <= k < FirstDigit(s) ==> (s[k] as int) < 0x80
    ensures SplitAsWritten(s) == Some(SplitAlphaNumeric(s))
  {
    var p := FirstDigit(s);
    if p < |s| {
      assert forall k :: 0 <= k < |s[..p]| ==> (s[..p][k] as int) < 0x80;
      assert ByteLen(s[..p]) == p;
      assert CharIndexAt(s, p).Some?;
      var j := CharIndexAt(s, p).value;
      assert ByteLen(s[..j]) >= j;
      assert j == p;
    } else {
      assert s[..p] == s;
    }
  }

  /** The as-written parser only ever differs from the corrected one by
      panicking: whenever it returns, it returns what `Grades.FromStr`
      returns. */
  lemma AgreesUnlessPanic(s: string)
    ensures FromStrAsWritten(s).Some? ==> FromStrAsWritten(s).value == FromStr(s)
  {
    match Rewrite(s)
    case Err(_) =>
    case Ok(src) =>
      match SplitAsWritten(src)
      case None =>
      case Some(parts) =>
        var p := FirstDigit(src);
        var j := |parts.0|;
        assert parts.0 == src[..j] && parts.1 == src[j..];
        if p == |src| {
          SplitUnique(src, src, []);
        } else if j == p {
          SplitUnique(src, parts.0, parts.1);
        } else {
          assert ByteLen(parts.0) >= j;
          if j == 1 {
            assert parts.0 == [src[0]];
            assert Utf8Len(src[0]) == ByteLen(parts.0);
          }
          BadPrefixRejected(src);
          assert !(|parts.0| == 1 && IsDegreeLetter(parts.0[0]));
        }
  }

}
