/** The worker's count of successive failed transfers, and the device reset it leads to. */
module HsspiErrors {
  const MAX_SUCCESSIVE_ERRORS: nat := 5

  /** How many transfers at the end of a history failed in a row. */
  function Streak(results: seq<int>): (n: nat)
    ensures n <= |results|
  {
    if results == [] || results[|results| - 1] == 0 then 0 else Streak(results[..|results| - 1]) + 1
  }

  /** The failures it counts, and the success before them. */
  lemma {:induction false} StreakIsLongest(results: seq<int>)
    ensures var n := Streak(results);
            && (forall i :: |results| - n <= i < |results| ==> results[i] != 0)
            && (n < |results| ==> results[|results| - n - 1] == 0)
  {
    if results != [] && results[|results| - 1] != 0 {
      var before := results[..|results| - 1];
      StreakIsLongest(before);
      assert forall i :: 0 <= i < |before| ==> before[i] == results[i];
    }
  }

  lemma StreakNext(results: seq<int>, ret: int)
    ensures Streak(results + [ret]) == if ret == 0 then 0 else Streak(results) + 1
  {
    assert (results + [ret])[..|results|] == results;
  }

  /** The resets that a history of results has led to: one at every sixth failure in a row. */
  function Resets(results: seq<int>): (n: nat) {
    if results == [] then 0
    else
      Resets(results[..|results| - 1])
      + if Streak(results) > 0 && Streak(results) % 6 == 0 then 1 else 0
  }

  lemma NextModSix(n: nat)
    ensures (n + 1) % 6 == if n % 6 == 5 then 0 else n % 6 + 1
  {
  }

  /** How one more result moves the count, and when it resets. */
  lemma CountNext(results: seq<int>, ret: int)
    ensures var r, m := results + [ret], Streak(results) % 6;
            && Streak(r) % 6 == (if ret == 0 || m == 5 then 0 else m + 1)
            && Resets(r) == Resets(results) + (if ret != 0 && m == 5 then 1 else 0)
  {
    assert (results + [ret])[..|results|] == results;
    StreakNext(results, ret);
    hide Streak;
    NextModSix(Streak(results));
  }

  class Errors {
    var successive: nat
    ghost var results: seq<int>
    var resets: nat

    ghost predicate Valid()
      reads this
    {
      successive <= MAX_SUCCESSIVE_ERRORS && successive == Streak(results) % 6 && resets == Resets(results)
    }

    constructor ()
      ensures Valid() && results == [] && resets == 0
    {
      successive, results, resets := 0, [], 0;
    }

    /** What `hsspi_thread_fn` does after a transfer; a completion does not come here. */
    method Count(ret: int)
      requires Valid()
      modifies this
      ensures Valid() && results == old(results) + [ret]
      ensures resets == if ret != 0 && Streak(results) % 6 == 0 then old(resets) + 1 else old(resets)
    {
      hide Streak, Resets;
      CountNext(results, ret);
      results := results + [ret];
      if ret != 0 {
        successive := successive + 1;
        if successive > MAX_SUCCESSIVE_ERRORS {
          resets := resets + 1;
          successive := 0;
        }
      } else {
        successive := 0;
      }
    }
  }

  /** Every reset takes six failures of its own: `n` transfers reset at most `n / 6` times. */
  lemma {:induction false} ResetsAreRare(results: seq<int>)
    ensures 6 * Resets(results) + Streak(results) % 6 <= |results|
  {
    if results != [] {
      var before, ret := results[..|results| - 1], results[|results| - 1];
      ResetsAreRare(before);
      CountNext(before, ret);
      assert results == before + [ret];
      hide Streak, Resets;
    }
  }
}
