/** `filter` and `filterfalse` over 1 0 -1 0 1 with element truthiness. */
module FilterExamples {
  import opened Filter
  import opened FilterFalse

  lemma TruthyKept(s: seq<int>)
    requires s == [1, 0, -1, 0, 1]
    ensures Keep(s, Truthy) == [1, -1, 1]
    ensures Keep(s, Negate(Truthy)) == [0, 0]
  {
    var q := Negate(Truthy);
    KeepCons(1, [], Truthy);
    KeepCons(1, [], q);
    KeepCons(0, [1], Truthy);
    KeepCons(0, [1], q);
    KeepCons(-1, [0, 1], Truthy);
    KeepCons(-1, [0, 1], q);
    KeepCons(0, [-1, 0, 1], Truthy);
    KeepCons(0, [-1, 0, 1], q);
    KeepCons(1, [0, -1, 0, 1], Truthy);
    KeepCons(1, [0, -1, 0, 1], q);
  }
}
