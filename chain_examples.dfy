/** A worked run of `chain` over the inputs 1 2 3 4 and 5 6 7. */
module ChainExamples {
  import opened Levels
  import opened Chain

  /** The two levels over lasts 4 and 3 at positions a and b. */
  function Pair(a: nat, b: nat): seq<Level>
  {
    [Level(a, 4), Level(b, 3)]
  }

  /** The begin state over the two inputs. */
  lemma BeginPair()
    ensures Chained(Pair(0, 0)) && Pos(Pair(0, 0)) == 0 && Total(Pair(0, 0)) == 7
  {
    assert Pair(0, 0)[1..] == [Level(0, 3)];
  }

  /** One advance moves the first input until it is at its last, then the
      second. */
  lemma StepPair(a: nat, b: nat)
    requires (a < 4 && b == 0) || (a == 4 && b < 3)
    ensures Next(Pair(a, b)) == if a < 4 then Pair(a + 1, 0) else Pair(4, b + 1)
  {
    assert Pair(a, b)[1..] == [Level(b, 3)];
  }

  /** The state after k advances from begin: the first input is walked to
      its last, then the second. */
  lemma {:induction false} FourThenThree(k: nat)
    requires k <= 7
    ensures Chained(Pair(0, 0)) && Pos(Pair(0, 0)) == 0 && Total(Pair(0, 0)) == 7
    ensures Run(Pair(0, 0), k) == if k <= 4 then Pair(k, 0) else Pair(4, k - 4)
  {
    BeginPair();
    if k > 0 {
      FourThenThree(k - 1);
      if k <= 4 {
        StepPair(k - 1, 0);
      } else {
        StepPair(4, k - 5);
      }
    }
  }

  /** The output is 1 2 3 4 5 6 7. */
  lemma ChainSevenElements()
    ensures Flat([[1, 2, 3, 4], [5, 6, 7]]) == [1, 2, 3, 4, 5, 6, 7]
  {
    var srcs: seq<seq<int>> := [[1, 2, 3, 4], [5, 6, 7]];
    assert srcs[1..][1..] == [];
  }

  /** The begin cursor reaches the end after seven advances, not before. */
  lemma EndsAfterSeven(k: nat)
    requires k <= 7
    ensures AtLast(Run(Pair(0, 0), k)) <==> k == 7
  {
    FourThenThree(k);
  }
}
