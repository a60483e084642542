/** Worked runs of the permutations engine over a three-element input,
    showing the tuples it emits where they differ from the arrangements.
    The input length is a parameter pinned to 3 by each `requires`, so every
    run is unfolded one advance at a time by the lemmas it cites. */
module PermutationsExamples {
  import opened Levels
  import opened Permutations
  import Product

  lemma Two00(len: nat)
    requires len == 3
    ensures Next([Level(0, len), Level(0, len)]) == [Level(0, len), Level(1, len)]
  {
    StepKeeps(Level(0, len), [Level(0, len)]);
    NextStops([Level(0, len), Level(0, len)]);
  }

  lemma Two01(len: nat)
    requires len == 3
    ensures Next([Level(0, len), Level(1, len)]) == [Level(0, len), Level(2, len)]
  {
    StepKeeps(Level(0, len), [Level(1, len)]);
    NextStops([Level(0, len), Level(1, len)]);
  }

  lemma Two02(len: nat)
    requires len == 3
    ensures Next([Level(0, len), Level(2, len)]) == [Level(1, len), Level(0, len)]
  {
    assert Reset([Level(3, len)]) == [Level(0, len)];
    StepCarries(Level(0, len), [Level(2, len)]);
    NextStops([Level(0, len), Level(2, len)]);
  }

  lemma Two10(len: nat)
    requires len == 3
    ensures Next([Level(1, len), Level(0, len)]) == [Level(1, len), Level(2, len)]
  {
    StepKeeps(Level(1, len), [Level(0, len)]);
    NextSkips([Level(1, len), Level(0, len)]);
    StepKeeps(Level(1, len), [Level(1, len)]);
    NextStops([Level(1, len), Level(1, len)]);
  }

  lemma Two12(len: nat)
    requires len == 3
    ensures Next([Level(1, len), Level(2, len)]) == [Level(2, len), Level(0, len)]
  {
    assert Reset([Level(3, len)]) == [Level(0, len)];
    StepCarries(Level(1, len), [Level(2, len)]);
    NextStops([Level(1, len), Level(2, len)]);
  }

  lemma Two20(len: nat)
    requires len == 3
    ensures Next([Level(2, len), Level(0, len)]) == [Level(2, len), Level(1, len)]
  {
    StepKeeps(Level(2, len), [Level(0, len)]);
    NextStops([Level(2, len), Level(0, len)]);
  }

  lemma Two21(len: nat)
    requires len == 3
    ensures Next([Level(2, len), Level(1, len)]) == [Level(3, len), Level(3, len)]
  {
    StepKeeps(Level(2, len), [Level(1, len)]);
    NextSkips([Level(2, len), Level(1, len)]);
    StepBreaks(Level(2, len), [Level(2, len)]);
    NextStops([Level(2, len), Level(2, len)]);
  }

  lemma EmittedCount(ls: seq<Level>, n: nat)
    requires ls != [] && AllBelow(ls) && |Emitted(Next(ls))| == n
    ensures |Emitted(ls)| == n + 1
  {
    EmittedStep(ls);
  }

  lemma Count21(len: nat)
    requires len == 3
    ensures |Emitted([Level(2, len), Level(1, len)])| == 1
  {
    assert Emitted([Level(len, len), Level(len, len)]) == [];
    Two21(len);
    EmittedCount([Level(2, len), Level(1, len)], 0);
  }

  lemma Count20(len: nat)
    requires len == 3
    ensures |Emitted([Level(2, len), Level(0, len)])| == 2
  {
    Count21(len);
    Two20(len);
    EmittedCount([Level(2, len), Level(0, len)], 1);
  }

  lemma Count12(len: nat)
    requires len == 3
    ensures |Emitted([Level(1, len), Level(2, len)])| == 3
  {
    Count20(len);
    Two12(len);
    EmittedCount([Level(1, len), Level(2, len)], 2);
  }

  lemma Count10(len: nat)
    requires len == 3
    ensures |Emitted([Level(1, len), Level(0, len)])| == 4
  {
    Count12(len);
    Two10(len);
    EmittedCount([Level(1, len), Level(0, len)], 3);
  }

  lemma Count02(len: nat)
    requires len == 3
    ensures |Emitted([Level(0, len), Level(2, len)])| == 5
  {
    Count10(len);
    Two02(len);
    EmittedCount([Level(0, len), Level(2, len)], 4);
  }

  lemma Count01(len: nat)
    requires len == 3
    ensures |Emitted([Level(0, len), Level(1, len)])| == 6
  {
    Count02(len);
    Two01(len);
    EmittedCount([Level(0, len), Level(1, len)], 5);
  }

  lemma Count00(len: nat)
    requires len == 3
    ensures |Emitted([Level(0, len), Level(0, len)])| == 7
  {
    Count01(len);
    Two00(len);
    EmittedCount([Level(0, len), Level(0, len)], 6);
  }

  /** Arranging 3 elements 2 at a time emits 7 tuples, not 6: the unfiltered
      first tuple (0, 0) comes before the six arrangements that the steps
      above visit. */
  lemma ThreeArrangeTwo(len: nat)
    requires len == 3
    ensures |Emitted(BeginState(len, 2))| == 7 && Emitted(BeginState(len, 2))[0] == [0, 0]
  {
    assert BeginState(len, 2) == [Level(0, len), Level(0, len)];
    Count00(len);
    BeginRepeatsPositions(len, 2);
  }

  lemma Cons3(a: Level, b: Level, c: Level)
    ensures [a] + [b, c] == [a, b, c]
  {
  }

  lemma Three010(len: nat)
    requires len == 3
    ensures Next([Level(0, len), Level(1, len), Level(0, len)]) == [Level(0, len), Level(1, len), Level(2, len)]
  {
    Two10(len);
    StepKeeps(Level(0, len), [Level(1, len), Level(0, len)]);
    Cons3(Level(0, len), Level(1, len), Level(0, len));
    Cons3(Level(0, len), Level(1, len), Level(2, len));
    NextStops([Level(0, len), Level(1, len), Level(0, len)]);
  }

  lemma Three002(len: nat)
    requires len == 3
    ensures Next([Level(0, len), Level(0, len), Level(2, len)]) == [Level(0, len), Level(1, len), Level(2, len)]
  {
    Two02(len);
    StepKeeps(Level(0, len), [Level(0, len), Level(2, len)]);
    Cons3(Level(0, len), Level(0, len), Level(2, len));
    assert [Level(1, len), Level(0, len)][1].it == 0;
    Cons3(Level(0, len), Level(1, len), Level(0, len));
    NextSkips([Level(0, len), Level(0, len), Level(2, len)]);
    Three010(len);
  }

  lemma Three001(len: nat)
    requires len == 3
    ensures Next([Level(0, len), Level(0, len), Level(1, len)]) == [Level(0, len), Level(1, len), Level(2, len)]
  {
    Two01(len);
    StepKeeps(Level(0, len), [Level(0, len), Level(1, len)]);
    Cons3(Level(0, len), Level(0, len), Level(1, len));
    Cons3(Level(0, len), Level(0, len), Level(2, len));
    NextSkips([Level(0, len), Level(0, len), Level(1, len)]);
    Three002(len);
  }

  lemma Three000(len: nat)
    requires len == 3
    ensures Next([Level(0, len), Level(0, len), Level(0, len)]) == [Level(0, len), Level(1, len), Level(2, len)]
  {
    Two00(len);
    StepKeeps(Level(0, len), [Level(0, len), Level(0, len)]);
    Cons3(Level(0, len), Level(0, len), Level(0, len));
    Cons3(Level(0, len), Level(0, len), Level(1, len));
    NextSkips([Level(0, len), Level(0, len), Level(0, len)]);
    Three001(len);
  }

  lemma Three020(len: nat)
    requires len == 3
    ensures Next([Level(0, len), Level(2, len), Level(0, len)]) == [Level(0, len), Level(2, len), Level(1, len)]
  {
    Two20(len);
    StepKeeps(Level(0, len), [Level(2, len), Level(0, len)]);
    Cons3(Level(0, len), Level(2, len), Level(0, len));
    Cons3(Level(0, len), Level(2, len), Level(1, len));
    NextStops([Level(0, len), Level(2, len), Level(0, len)]);
  }

  lemma Three012(len: nat)
    requires len == 3
    ensures Next([Level(0, len), Level(1, len), Level(2, len)]) == [Level(0, len), Level(2, len), Level(1, len)]
  {
    Two12(len);
    StepKeeps(Level(0, len), [Level(1, len), Level(2, len)]);
    Cons3(Level(0, len), Level(1, len), Level(2, len));
    Cons3(Level(0, len), Level(2, len), Level(0, len));
    NextSkips([Level(0, len), Level(1, len), Level(2, len)]);
    Three020(len);
  }

  lemma Three021(len: nat)
    requires len == 3
    ensures Next([Level(0, len), Level(2, len), Level(1, len)]) == [Level(1, len), Level(0, len), Level(0, len)]
  {
    var ls := [Level(0, len), Level(2, len), Level(1, len)];
    var s := [Level(1, len), Level(0, len), Level(0, len)];
    assert Step(ls) == s by {
      var t := [Level(2, len), Level(1, len)];
      assert Next(t) == [Level(3, len), Level(3, len)] by {
        Two21(len);
      }
      assert Reset(Next(t)) == [Level(0, len), Level(0, len)];
      StepCarries(Level(0, len), t);
      Cons3(Level(1, len), Level(0, len), Level(0, len));
    }
    assert Halts(s) by {
      assert s[1].it != s[0].it && s[2].it != s[0].it;
    }
    NextStops(ls);
  }

  /** For N = 3 the reset restores a nested state whose own levels repeat
      each other, and the outer check does not see it: the third advance
      from begin over 3 elements emits (1, 0, 0). */
  lemma ThreeArrangeThreeRepeats(len: nat)
    requires len == 3
    ensures var b := BeginState(len, 3);
      Next(b) == [Level(0, len), Level(1, len), Level(2, len)] &&
      Next(Next(b)) == [Level(0, len), Level(2, len), Level(1, len)] &&
      Next(Next(Next(b))) == [Level(1, len), Level(0, len), Level(0, len)]
  {
    assert BeginState(len, 3) == [Level(0, len), Level(0, len), Level(0, len)];
    Three000(len);
    Three012(len);
    Three021(len);
  }

  /** Corrected, the first tuple emitted over three elements with N = 2 is
      (0, 1): the repeated (0, 0) is passed over. */
  lemma DistinctBeginThree(len: nat)
    requires len == 3
    ensures DistinctBeginState(len, 2) == [Level(0, len), Level(1, len)]
  {
    var b := BeginState(len, 2);
    assert b == [Level(0, len), Level(0, len)];
    assert !Distinct(b) by {
      assert b[0].it == b[1].it;
    }
    var n := [Level(0, len), Level(1, len)];
    assert Product.Next(b) == n by {
      assert b[1..] == [Level(0, len)];
      assert Product.Next(b[1..]) == [Level(1, len)];
    }
    assert Distinct(n);
  }
}
