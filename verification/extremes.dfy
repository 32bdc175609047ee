/** Greatest elements of finite sets: the `ORDER BY ... DESC LIMIT 1`
    that the batch queries and the profile query rely on. */
module Extremes {

  import opened RecordDates

  /** Whether `m` is the greatest element of `s`. */
  predicate IsMax(m: nat, s: set<nat>) {
    m in s && forall x :: x in s ==> x <= m
  }

  lemma {:induction false} MaxExists(s: set<nat>)
    requires s != {}
    ensures exists m :: IsMax(m, s)
    decreases |s|
  {
    var y :| y in s;
    if s - {y} != {} {
      MaxExists(s - {y});
      var m :| IsMax(m, s - {y});
      var top := if m < y then y else m;
      forall x | x in s ensures x <= top {
        if x != y {
          assert x in s - {y};
        }
      }
      assert IsMax(top, s);
    } else {
      assert s == {y};
      assert IsMax(y, s);
    }
  }

  /** The greatest element of a non-empty finite set of natural numbers. */
  ghost function Max(s: set<nat>): (m: nat)
    requires s != {}
    ensures m in s
    ensures forall x :: x in s ==> x <= m
  {
    MaxExists(s);
    var m :| IsMax(m, s);
    m
  }

  /** `Before` orders every two distinct dates. */
  lemma BeforeTotal(a: Date, b: Date)
    ensures a == b || Before(a, b) || Before(b, a)
    ensures !(Before(a, b) && Before(b, a))
  {
  }

  /** Whether `m` is the latest of `s`: every other member is before it. */
  predicate IsLatest(m: Date, s: set<Date>) {
    m in s && forall d :: d in s && d != m ==> Before(d, m)
  }

  lemma {:induction false} LatestExists(s: set<Date>)
    requires s != {}
    ensures exists m :: IsLatest(m, s)
    decreases |s|
  {
    var y :| y in s;
    if s - {y} != {} {
      LatestExists(s - {y});
      var m :| IsLatest(m, s - {y});
      BeforeTotal(m, y);
      if Before(m, y) {
        forall d | d in s && d != y ensures Before(d, y) {
          if d != m {
            assert Before(d, m);
          }
        }
        assert IsLatest(y, s);
      } else {
        assert IsLatest(m, s);
      }
    } else {
      assert s == {y};
      assert IsLatest(y, s);
    }
  }

  /** The latest date of a non-empty finite set. */
  ghost function Latest(s: set<Date>): (m: Date)
    requires s != {}
    ensures IsLatest(m, s)
  {
    LatestExists(s);
    var m :| IsLatest(m, s);
    m
  }
}
