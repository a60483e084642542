/** The sequence view every adaptor returns: a begin cursor and an end
    cursor, handed back unchanged by `Begin` and `End`. */
module RangeViews {

  datatype RangeView<C> = RangeView(first: C, last: C) {

    /** The stored begin cursor. */
    function Begin(): C
    {
      first
    }

    /** The stored end cursor. */
    function End(): C
    {
      last
    }
  }

  /** A view hands back exactly the two cursors it was built from, so
      building a view and reading it back is the identity, and reading it
      twice gives the same pair. */
  lemma ViewRoundTrip<C>(first: C, last: C)
    ensures RangeView(first, last).Begin() == first
    ensures RangeView(first, last).End() == last
    ensures var v := RangeView(first, last); v == RangeView(v.Begin(), v.End())
  {
  }
}
