/** A worked run of combinations with replacement: choosing 2 of the three
    positions of "ABC". The input length is a parameter pinned to 3 by each
    `requires`, so every advance is unfolded by the lemma that states it. */
module CombinationsWithReplacementExamples {
  import opened Levels
  import opened RewindEngine
  import opened CombinationsWithReplacement

  /** Two levels over the same last `len`, at positions a and b. */
  function Pair(len: nat, a: nat, b: nat): seq<Level>
  {
    [Level(a, len), Level(b, len)]
  }

  lemma StepInner(len: nat, a: nat, b: nat)
    requires b + 1 < len
    ensures Next(Pair(len, a, b), Gap) == Pair(len, a, b + 1)
  {
    assert Pair(len, a, b)[1..] == [Level(b, len)];
  }

  lemma StepCarry(len: nat, a: nat)
    requires a < len
    ensures Next(Pair(len, a, len - 1), Gap) == Pair(len, a + 1, a + 1)
  {
    assert Pair(len, a, len - 1)[1..] == [Level(len - 1, len)];
    assert Rewind([Level(len, len)], a + 1, Gap) == [Level(a + 1, len)];
  }

  /** "ABC" choose 2 with replacement: AA AB AC BB BC CC, then end. */
  lemma ThreeChooseTwo(len: nat)
    requires len == 3
    ensures Cursors(Run(BeginState(len, 2), 0, Gap)) == [0, 0]
    ensures Cursors(Run(BeginState(len, 2), 1, Gap)) == [0, 1]
    ensures Cursors(Run(BeginState(len, 2), 2, Gap)) == [0, 2]
    ensures Cursors(Run(BeginState(len, 2), 3, Gap)) == [1, 1]
    ensures Cursors(Run(BeginState(len, 2), 4, Gap)) == [1, 2]
    ensures Cursors(Run(BeginState(len, 2), 5, Gap)) == [2, 2]
    ensures Run(BeginState(len, 2), 6, Gap) == EndState(len, 2)
  {
    var b := BeginState(len, 2);
    assert b == Pair(len, 0, 0);
    assert EndState(len, 2) == Pair(len, 3, 3);
    StepInner(len, 0, 0);
    StepInner(len, 0, 1);
    StepCarry(len, 0);
    StepInner(len, 1, 1);
    StepCarry(len, 1);
    StepCarry(len, 2);
    assert Run(b, 1, Gap) == Pair(len, 0, 1);
    assert Run(b, 2, Gap) == Pair(len, 0, 2);
    assert Run(b, 3, Gap) == Pair(len, 1, 1);
    assert Run(b, 4, Gap) == Pair(len, 1, 2);
    assert Run(b, 5, Gap) == Pair(len, 2, 2);
    assert Run(b, 6, Gap) == Pair(len, 3, 3);
  }
}
