/**
 "Since when" clocks. A set of keys is seen failing at each look; a clock starts when a key joins
 the set, runs while it stays, and is dropped when it leaves. The exporter supervisor and the
 D-state census both keep such clocks.
 */
module Streaks {
  import opened Clock

  datatype Look<K(==)> = Look(now: Time, failing: set<K>)

  function Advance<K>(since: map<K, Time>, failing: set<K>, now: Time): map<K, Time> {
    map k | k in failing :: if k in since then since[k] else now
  }

  ghost function After<K>(looks: seq<Look<K>>): map<K, Time> {
    if looks == [] then map[]
    else Advance(After(looks[..|looks| - 1]), looks[|looks| - 1].failing, looks[|looks| - 1].now)
  }

  lemma AfterStep<K>(looks: seq<Look<K>>, look: Look<K>)
    ensures After(looks + [look]) == Advance(After(looks), look.failing, look.now)
  {
    assert (looks + [look])[..|looks|] == looks;
  }

  /** The key fails at every look from s on, and did not fail at the look before s. */
  ghost predicate StreakStart<K>(looks: seq<Look<K>>, k: K, s: int) {
    && 0 <= s < |looks|
    && (forall i :: s <= i < |looks| ==> k in looks[i].failing)
    && (s > 0 ==> k !in looks[s - 1].failing)
  }

  /** A clock exists exactly for the keys that failed at the last look, and shows the time of the
      first look of the unbroken streak. */
  lemma {:induction false} ClockIsStreakStart<K>(looks: seq<Look<K>>, k: K)
    ensures k in After(looks) <==> looks != [] && k in looks[|looks| - 1].failing
    ensures k in After(looks) ==> exists s :: StreakStart(looks, k, s) && After(looks)[k] == looks[s].now
  {
    if looks != [] && k in looks[|looks| - 1].failing {
      var n := |looks| - 1;
      var prior := looks[..n];
      ClockIsStreakStart(prior, k);
      if k in After(prior) {
        var s :| StreakStart(prior, k, s) && After(prior)[k] == prior[s].now;
        assert prior[s] == looks[s] && (s > 0 ==> prior[s - 1] == looks[s - 1]);
        assert forall i :: s <= i < n ==> prior[i] == looks[i];
        assert StreakStart(looks, k, s);
      } else {
        assert n > 0 ==> prior[n - 1] == looks[n - 1];
        assert StreakStart(looks, k, n);
      }
    }
  }
}
