/** The game draws a random cell repeatedly until the draw passes a test
    (a `do { ... } while (...)` loop). The random source is modelled as the
    sequence of cells it would produce; the loop takes the first draw that
    the exit condition accepts. */
module Sampling {

  import opened Grid

  /** The loop terminates within the supplied draws. */
  predicate SomeAccepted(draws: seq<GridCell>, reject: GridCell -> bool) {
    exists i :: 0 <= i < |draws| && !reject(draws[i])
  }

  /** Index of the draw that ends the loop: every earlier draw was rejected. */
  function FirstAccepted(draws: seq<GridCell>, reject: GridCell -> bool): (i: nat)
    requires SomeAccepted(draws, reject)
    ensures i < |draws| && !reject(draws[i])
    ensures forall j :: 0 <= j < i ==> reject(draws[j])
    decreases |draws|
  {
    if !reject(draws[0]) then 0
    else
      assert SomeAccepted(draws[1..], reject) by {
        var k :| 0 <= k < |draws| && !reject(draws[k]);
        assert draws[1..][k - 1] == draws[k];
      }
      1 + FirstAccepted(draws[1..], reject)
  }

  /** The cell the retry loop settles on. */
  function Resample(draws: seq<GridCell>, reject: GridCell -> bool): (c: GridCell)
    requires SomeAccepted(draws, reject)
    ensures !reject(c)
    ensures c in draws
  {
    draws[FirstAccepted(draws, reject)]
  }

  /** Only the first accepted draw matters: draws after it are never consumed. */
  lemma {:induction false} ResampleIgnoresLaterDraws(draws: seq<GridCell>, more: seq<GridCell>, reject: GridCell -> bool)
    requires SomeAccepted(draws, reject)
    ensures SomeAccepted(draws + more, reject)
    ensures Resample(draws + more, reject) == Resample(draws, reject)
    decreases |draws|
  {
    var k :| 0 <= k < |draws| && !reject(draws[k]);
    assert (draws + more)[k] == draws[k];
    if !reject(draws[0]) {
      assert (draws + more)[0] == draws[0];
    } else {
      assert SomeAccepted(draws[1..], reject) by {
        assert draws[1..][k - 1] == draws[k];
      }
      ResampleIgnoresLaterDraws(draws[1..], more, reject);
      assert (draws + more)[1..] == draws[1..] + more;
    }
  }
}
