/** Worked groupings under the identity key. */
module GroupByExamples {
  import opened GroupBy

  /** Equal keys that are not adjacent form separate groups:
      [1, 2, 2, 3, 3, 3, 2, 2, 1] gives five groups. */
  lemma NonAdjacentKeysSplit()
    ensures Groups([1, 2, 2, 3, 3, 3, 2, 2, 1], (x: int) => x, 0) ==
      [Group(1, 0, 1), Group(2, 1, 3), Group(3, 3, 6), Group(2, 6, 8), Group(1, 8, 9)]
  {
    var s := [1, 2, 2, 3, 3, 3, 2, 2, 1];
    var f := (x: int) => x;
    RunEndUnique(s, f, 1, 1, 1);
    RunEndUnique(s, f, 2, 2, 3);
    RunEndUnique(s, f, 3, 4, 6);
    RunEndUnique(s, f, 2, 7, 8);
    RunEndUnique(s, f, 1, 9, 9);
  }

  /** An empty input has no group; a constant input has one. */
  lemma EmptyAndConstant()
    ensures Groups([], (x: int) => x, 0) == []
    ensures Groups([3, 3, 3], (x: int) => x, 0) == [Group(3, 0, 3)]
  {
    RunEndUnique([3, 3, 3], (x: int) => x, 3, 1, 3);
  }
}
