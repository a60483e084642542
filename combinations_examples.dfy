/** A worked run of the combinations engine: choosing 3 of the 4 positions
    0, 1, 2, 3. The input length is a parameter pinned to 4 by each
    `requires`, so every advance is unfolded by the lemma that states it. */
module CombinationsExamples {
  import opened Levels
  import opened RewindEngine
  import opened Combinations

  /** The three levels over lasts `len - 2`, `len - 1`, `len` at positions
      a, b, c. */
  function Nest(len: nat, a: nat, b: nat, c: nat): seq<Level>
    requires len >= 2
  {
    [Level(a, len - 2), Level(b, len - 1), Level(c, len)]
  }

  lemma Inner(len: nat, c: nat)
    ensures Next([Level(c, len)], Gap) == [Level(c + 1, len)]
  {
  }

  lemma Step012(len: nat)
    requires len == 4
    ensures Next(Nest(len, 0, 1, 2), Gap) == Nest(len, 0, 1, 3)
  {
    var ls := Nest(len, 0, 1, 2);
    assert ls[1..] == [Level(1, len - 1), Level(2, len)];
    assert ls[1..][1..] == [Level(2, len)];
    Inner(len, 2);
  }

  lemma Step013(len: nat)
    requires len == 4
    ensures Next(Nest(len, 0, 1, 3), Gap) == Nest(len, 0, 2, 3)
  {
    var ls := Nest(len, 0, 1, 3);
    assert ls[1..] == [Level(1, len - 1), Level(3, len)];
    assert ls[1..][1..] == [Level(3, len)];
    Inner(len, 3);
    assert Rewind([Level(4, len)], 3, Gap) == [Level(3, len)];
  }

  lemma Step023(len: nat)
    requires len == 4
    ensures Next(Nest(len, 0, 2, 3), Gap) == Nest(len, 1, 2, 3)
  {
    var ls := Nest(len, 0, 2, 3);
    assert ls[1..] == [Level(2, len - 1), Level(3, len)];
    assert ls[1..][1..] == [Level(3, len)];
    Inner(len, 3);
    assert Rewind([Level(4, len)], 4, Gap) == [Level(4, len)];
    assert Rewind([Level(3, len - 1), Level(4, len)], 2, Gap) == [Level(2, len - 1), Level(3, len)];
  }

  lemma Step123(len: nat)
    requires len == 4
    ensures Next(Nest(len, 1, 2, 3), Gap) == Nest(len, 2, 3, 4)
  {
    var ls := Nest(len, 1, 2, 3);
    assert ls[1..] == [Level(2, len - 1), Level(3, len)];
    assert ls[1..][1..] == [Level(3, len)];
    Inner(len, 3);
    assert Rewind([Level(4, len)], 4, Gap) == [Level(4, len)];
    assert Rewind([Level(3, len - 1), Level(4, len)], 3, Gap) == [Level(3, len - 1), Level(4, len)];
  }

  /** range(4) choose 3: begin is (0, 1, 2); the advances visit (0, 1, 3),
      (0, 2, 3) and (1, 2, 3), and the fourth advance gives end. */
  lemma FourChooseThree(len: nat)
    requires len == 4
    ensures Cursors(Run(BeginState(len, 3), 0, Gap)) == [0, 1, 2]
    ensures Cursors(Run(BeginState(len, 3), 1, Gap)) == [0, 1, 3]
    ensures Cursors(Run(BeginState(len, 3), 2, Gap)) == [0, 2, 3]
    ensures Cursors(Run(BeginState(len, 3), 3, Gap)) == [1, 2, 3]
    ensures Run(BeginState(len, 3), 4, Gap) == EndState(len, 3)
  {
    var b := BeginState(len, 3);
    assert b == Nest(len, 0, 1, 2);
    assert EndState(len, 3) == Nest(len, 2, 3, 4);
    Step012(len);
    Step013(len);
    Step023(len);
    Step123(len);
    assert Run(b, 1, Gap) == Nest(len, 0, 1, 3);
    assert Run(b, 2, Gap) == Nest(len, 0, 2, 3);
    assert Run(b, 3, Gap) == Nest(len, 1, 2, 3);
    assert Run(b, 4, Gap) == Nest(len, 2, 3, 4);
  }
}
