/** The degree being pursued (entity/src/degree.rs) and its one-letter
    text form. */
module DegreeCodec {

  import opened Basics

  datatype Degree = Bachelor | Master | Doctor

  /** `Display`. */
  function Display(d: Degree): string {
    match d
    case Bachelor => "B"
    case Master => "M"
    case Doctor => "D"
  }

  /** `FromStr`: exactly `B`, `M` or `D`. */
  function FromStr(s: string): (r: Result<Degree, string>)
    ensures r.Ok? ==> Display(r.value) == s
    ensures r.Err? ==> (forall d :: Display(d) != s) && r.error == "invalid degree step"
  {
    match s
    case "B" => Ok(Bachelor)
    case "M" => Ok(Master)
    case "D" => Ok(Doctor)
    case _ => Err("invalid degree step")
  }

  /** Round trip and injectivity: a degree's text parses back to it, and
      `FromStr(s) == Ok(d)` holds exactly when `s` is `d`'s text. */
  lemma RoundTrip(d: Degree, e: Degree, s: string)
    ensures FromStr(Display(d)) == Ok(d)
    ensures Display(d) == Display(e) ==> d == e
    ensures FromStr(s) == Ok(d) <==> s == Display(d)
  {
  }
}
