/** The eight PGN tiers (entity/src/pgn_level.rs): classification of a
    rolling PIX total, each tier's bounds, saturating shifts by a signed
    step, and the tier names. */
module PgnLevels {

  import opened Basics

  datatype PgnLevel = Iron | Bronze | Silver | Gold | Platinum | Diamond | Master | GrandMaster

  /** The `#[repr(i8)]` discriminant. */
  function Ord(l: PgnLevel): (n: nat)
    ensures n <= 7
    ensures n == 0 <==> l == Iron
    ensures n == 7 <==> l == GrandMaster
  {
    match l
    case Iron => 0
    case Bronze => 1
    case Silver => 2
    case Gold => 3
    case Platinum => 4
    case Diamond => 5
    case Master => 6
    case GrandMaster => 7
  }

  /** The level with a given discriminant; inverse of `Ord`. */
  function FromOrd(n: int): (l: PgnLevel)
    requires 0 <= n <= 7
    ensures Ord(l) == n
  {
    if n == 0 then Iron
    else if n == 1 then Bronze
    else if n == 2 then Silver
    else if n == 3 then Gold
    else if n == 4 then Platinum
    else if n == 5 then Diamond
    else if n == 6 then Master
    else GrandMaster
  }

  lemma OrdInjective(a: PgnLevel, b: PgnLevel)
    ensures Ord(a) == Ord(b) ==> a == b
  {
  }

  // ---------------------------------------------------------------- names

  /** `AsRef<str>` (also what `Display` writes). */
  function AsRef(l: PgnLevel): string {
    match l
    case Iron => "Iron"
    case Bronze => "Bronze"
    case Silver => "Silver"
    case Gold => "Gold"
    case Platinum => "Platinum"
    case Diamond => "Diamond"
    case Master => "Master"
    case GrandMaster => "GrandMaster"
  }

  /** `FromStr`: accepts exactly the eight names. */
  function FromStr(s: string): (r: Result<PgnLevel, string>)
    ensures r.Ok? ==> AsRef(r.value) == s
    ensures r.Err? ==> forall l :: AsRef(l) != s
    ensures r.Err? ==> r.error == "invalid value"
  {
    if s == "Iron" then Ok(Iron)
    else if s == "Bronze" then Ok(Bronze)
    else if s == "Silver" then Ok(Silver)
    else if s == "Gold" then Ok(Gold)
    else if s == "Platinum" then Ok(Platinum)
    else if s == "Diamond" then Ok(Diamond)
    else if s == "Master" then Ok(Master)
    else if s == "GrandMaster" then Ok(GrandMaster)
    else Err("invalid value")
  }

  /** Parsing a level's name gives the level back, and names never clash. */
  lemma NameRoundTrip(l: PgnLevel, m: PgnLevel)
    ensures FromStr(AsRef(l)) == Ok(l)
    ensures AsRef(l) == AsRef(m) ==> l == m
  {
  }

  // ---------------------------------------------------------------- bounds

  const IRON_MAX: int := 500
  const BRONZE_MAX: int := 1000
  const SILVER_MAX: int := 2500
  const GOLD_MAX: int := 5000
  const PLATINUM_MAX: int := 10000
  const DIAMOND_MAX: int := 20000
  const MASTER_MAX: int := 35000

  /** `max_pix`: the exclusive upper bound of a tier's totals. */
  function MaxPix(l: PgnLevel): U32 {
    match l
    case Iron => IRON_MAX
    case Bronze => BRONZE_MAX
    case Silver => SILVER_MAX
    case Gold => GOLD_MAX
    case Platinum => PLATINUM_MAX
    case Diamond => DIAMOND_MAX
    case Master => MASTER_MAX
    case GrandMaster => U32_MAX
  }

  /** The tier directly below a non-Iron tier. */
  function Pred(l: PgnLevel): (p: PgnLevel)
    requires l != Iron
    ensures Ord(p) + 1 == Ord(l)
  {
    FromOrd(Ord(l) - 1)
  }

  /** `min_pix`, which the use cases call but the tier file does not define:
      the least total `From` classifies into `l`, i.e. 0 for Iron and the
      bound of the tier below otherwise. */
  function MinPix(l: PgnLevel): (r: U32)
    ensures r < MaxPix(l)
    ensures l == Iron <==> r == 0
  {
    if l == Iron then 0 else MaxPix(Pred(l))
  }

  /** Bounds grow strictly with the tier order and the top bound is
      `u32::MAX`. */
  lemma MaxPixStrictlyIncreasing(a: PgnLevel, b: PgnLevel)
    ensures Ord(a) < Ord(b) <==> MaxPix(a) < MaxPix(b)
    ensures MaxPix(GrandMaster) == U32_MAX
  {
  }

  // ---------------------------------------------------------------- classification

  /** `From<u32>`: the first tier, in order, whose `max_pix` exceeds the
      total. */
  function From(pix: U32): (l: PgnLevel)
    ensures pix < MaxPix(l) || l == GrandMaster
    ensures forall k :: Ord(k) < Ord(l) ==> MaxPix(k) <= pix
    ensures MinPix(l) <= pix
  {
    if pix < IRON_MAX then Iron
    else if pix < BRONZE_MAX then Bronze
    else if pix < SILVER_MAX then Silver
    else if pix < GOLD_MAX then Gold
    else if pix < PLATINUM_MAX then Platinum
    else if pix < DIAMOND_MAX then Diamond
    else if pix < MASTER_MAX then Master
    else GrandMaster
  }

  /** A total falls in exactly one tier: `From(t) == l` iff `t` lies in
      `[MinPix(l), MaxPix(l))` (the top tier also holds `u32::MAX`). */
  lemma ClassifyExactlyOne(t: U32, l: PgnLevel)
    ensures From(t) == l <==>
              MinPix(l) <= t && (t < MaxPix(l) || l == GrandMaster)
  {
  }

  /** Classification never decreases as the total grows. */
  lemma ClassifyMonotone(t1: U32, t2: U32)
    requires t1 <= t2
    ensures Ord(From(t1)) <= Ord(From(t2))
  {
  }

  // ---------------------------------------------------------------- shifts

  /** `saturating_cast::<i8>()`. */
  function SaturatingCastI8(x: int): (r: int)
    ensures -128 <= r <= 127
  {
    Clamp(x, -128, 127)
  }

  /** `cast`: clamps an `i8` discriminant to a tier (the `transmute` arm is
      only reached for 0..7). */
  function Cast(step: int): (l: PgnLevel)
    requires -128 <= step <= 127
    ensures Ord(l) == Clamp(step, 0, 7)
  {
    if step < Ord(Iron) then Iron
    else if step > Ord(GrandMaster) then GrandMaster
    else FromOrd(step)
  }

  /** `Add<T>`: saturating cast of the step to `i8`, saturating `i8`
      addition, then `cast`. */
  function Add(l: PgnLevel, step: int): (r: PgnLevel)
    ensures Ord(r) == Clamp(Ord(l) + step, 0, 7)
  {
    Cast(SaturatingCastI8(Ord(l) + SaturatingCastI8(step)))
  }

  /** `Sub<T>`: as `Add` with saturating `i8` subtraction. */
  function Sub(l: PgnLevel, step: int): (r: PgnLevel)
    ensures Ord(r) == Clamp(Ord(l) - step, 0, 7)
  {
    Cast(SaturatingCastI8(Ord(l) - SaturatingCastI8(step)))
  }

  /** `AddAssign<T>`: `*self = *self + step`. */
  method AddAssign(self: PgnLevel, step: int) returns (updated: PgnLevel)
    ensures Ord(updated) == Clamp(Ord(self) + step, 0, 7)
    ensures updated == Add(self, step)
  {
    updated := Add(self, step);
  }

  /** `SubAssign<T>`: `*self = *self - step`. */
  method SubAssign(self: PgnLevel, step: int) returns (updated: PgnLevel)
    ensures Ord(updated) == Clamp(Ord(self) - step, 0, 7)
    ensures updated == Sub(self, step)
  {
    updated := Sub(self, step);
  }

  /** The saturating ends: one above the top stays at the top, one below
      the bottom stays at the bottom, and a step up from a non-top tier is
      the next tier, whose floor is this tier's bound. */
  lemma ShiftSaturates(l: PgnLevel)
    ensures Add(GrandMaster, 1) == GrandMaster
    ensures Sub(Iron, 1) == Iron
    ensures l != GrandMaster ==> Ord(Add(l, 1)) == Ord(l) + 1
    ensures l != GrandMaster ==> MinPix(Add(l, 1)) == MaxPix(l)
  {
    OrdInjective(Add(GrandMaster, 1), GrandMaster);
    OrdInjective(Sub(Iron, 1), Iron);
    if l != GrandMaster {
      var n := Add(l, 1);
      OrdInjective(Pred(n), l);
    }
  }
}
