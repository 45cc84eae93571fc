/**
 The placeholder arrival estimate both backend variants attach to every
 listed vehicle: `round(5 + age / 60)` minutes, where `age` is the number of
 seconds since the vehicle's last accepted update. Python 3's `round` sends a
 value exactly halfway between two integers to the even one.
 */
module Eta {

  /** `m` is what Python's `round` returns for the real number `x`: an integer
      at most one half away from `x`, and the even one on a tie. */
  ghost predicate RoundsHalfEven(x: real, m: int)
  {
    && -0.5 <= m as real - x <= 0.5
    && ((m as real - x == 0.5 || m as real - x == -0.5) ==> m % 2 == 0)
  }

  /** `round(5 + age / 60)` for an age of `age` whole seconds. */
  function EtaMinutes(age: int): (m: int)
    ensures RoundsHalfEven(5.0 + age as real / 60.0, m)
    ensures age >= 0 ==> m >= 5
  {
    var n := 300 + age;
    var q := n / 60;
    var r := n % 60;
    assert n == 60 * q + r;
    if r < 30 then q
    else if r > 30 then q + 1
    else if q % 2 == 0 then q else q + 1
  }

  /** Rounding half to even has exactly one possible answer. */
  lemma RoundHalfEvenUnique(x: real, m1: int, m2: int)
    requires RoundsHalfEven(x, m1) && RoundsHalfEven(x, m2)
    ensures m1 == m2
  {
  }

  /** `EtaMinutes` is not merely some nearby integer: any integer that rounds
      `5 + age / 60` half to even is `EtaMinutes(age)`. */
  lemma EtaIsPythonRound(age: int, m: int)
    requires RoundsHalfEven(5.0 + age as real / 60.0, m)
    ensures m == EtaMinutes(age)
  {
    RoundHalfEvenUnique(5.0 + age as real / 60.0, m, EtaMinutes(age));
  }

  /** An older report never yields a smaller estimate. */
  lemma EtaMonotonic(age1: int, age2: int)
    requires age1 <= age2
    ensures EtaMinutes(age1) <= EtaMinutes(age2)
  {
  }

  /** The comment beside the estimate speaks of 5 to 15 minutes, but nothing
      caps it: for a report no older than `now`, the estimate is at most 15
      exactly when the report is less than 630 seconds old, and it keeps
      growing with the age after that. */
  lemma EtaCommentedRange(age: int)
    requires age >= 0
    ensures EtaMinutes(age) <= 15 <==> age < 630
  {
    if age < 630 {
      EtaMonotonic(age, 629);
    } else {
      EtaMonotonic(630, age);
    }
  }

  /** A report received this very second is listed as five minutes away. */
  lemma FreshReportEta()
    ensures EtaMinutes(0) == 5
  {
  }
}
