/** The student level (entity/src/level.rs) and its Japanese text form. */
module LevelCodec {

  import opened Basics

  datatype Level = Newbie | Assistant | Normal | Lead

  /** `Display`. */
  function Display(l: Level): string {
    match l
    case Newbie => "新人"
    case Assistant => "アシスタント"
    case Normal => "ノーマル"
    case Lead => "リード"
  }

  /** `FromStr`: exactly the four display names. */
  function FromStr(s: string): (r: Result<Level, string>)
    ensures r.Ok? ==> Display(r.value) == s
    ensures r.Err? ==> (forall l :: Display(l) != s) && r.error == "invalid value"
  {
    match s
    case "新人" => Ok(Newbie)
    case "アシスタント" => Ok(Assistant)
    case "ノーマル" => Ok(Normal)
    case "リード" => Ok(Lead)
    case _ => Err("invalid value")
  }

  /** Round trip and injectivity of the level names. */
  lemma RoundTrip(l: Level, m: Level, s: string)
    ensures FromStr(Display(l)) == Ok(l)
    ensures Display(l) == Display(m) ==> l == m
    ensures FromStr(s) == Ok(l) <==> s == Display(l)
  {
  }
}
