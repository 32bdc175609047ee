/** The sex field (entity/src/sex.rs) and its Japanese text form. */
module SexCodec {

  import opened Basics

  datatype Sex = Male | Female

  /** `Display`. */
  function Display(x: Sex): string {
    match x
    case Male => "男性"
    case Female => "女性"
  }

  /** `FromStr`: exactly `男性` or `女性`. */
  function FromStr(s: string): (r: Result<Sex, string>)
    ensures r.Ok? ==> Display(r.value) == s
    ensures r.Err? ==> (forall x :: Display(x) != s) && r.error == "invalid value"
  {
    match s
    case "男性" => Ok(Male)
    case "女性" => Ok(Female)
    case _ => Err("invalid value")
  }

  /** Round trip and injectivity of the two names. */
  lemma RoundTrip(x: Sex, y: Sex, s: string)
    ensures FromStr(Display(x)) == Ok(x)
    ensures Display(x) == Display(y) ==> x == y
    ensures FromStr(s) == Ok(x) <==> s == Display(x)
  {
  }
}
