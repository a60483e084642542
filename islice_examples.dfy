/** Worked slices of "ABCDEFG" (seven positions) from position 0 with `stop`
    7, and one with `stop` inside the input. */
module ISliceExamples {
  import opened ISlice

  /** Step 2 visits 0, 2, 4, 6 ("ACEG") and reaches the end on advance 4. */
  lemma EveryOther(k: nat)
    requires k <= 4
    ensures Trace(7, Cursor(0, 0), 7, 2, k).it == if k < 4 then 2 * k else 7
  {
    TraceDistance(7, Cursor(0, 0), 7, 2, k);
  }

  /** Step 3 visits 0, 3, 6 ("ADG") and reaches the end on advance 3. */
  lemma EveryThird(k: nat)
    requires k <= 3
    ensures Trace(7, Cursor(0, 0), 7, 3, k).it == if k < 3 then 3 * k else 7
  {
    TraceDistance(7, Cursor(0, 0), 7, 3, k);
  }

  /** Step 4 visits 0, 4 ("AE") and reaches the end on advance 2. */
  lemma EveryFourth(k: nat)
    requires k <= 2
    ensures Trace(7, Cursor(0, 0), 7, 4, k).it == if k < 2 then 4 * k else 7
  {
    TraceDistance(7, Cursor(0, 0), 7, 4, k);
  }

  /** Step 7 visits 0 ("A") and reaches the end on advance 1. */
  lemma EverySeventh(k: nat)
    requires k <= 1
    ensures Trace(7, Cursor(0, 0), 7, 7, k).it == 7 * k
  {
    TraceDistance(7, Cursor(0, 0), 7, 7, k);
  }

  /** A start at or past the end skips the whole input, so begin is already
      at the end; an empty input is at the end from the start. */
  lemma StartPastEnd()
    ensures Skipped(7, 7) == 7 && Skipped(0, 0) == 0
  {
  }

  /** `stop` 3 inside the input with step 1: after three advances the cursor
      sits on D with index 3, and no further advance moves it. */
  lemma StopInsideRepeats()
    ensures forall j: nat :: j >= 3 ==> Trace(7, Cursor(0, 0), 3, 1, j) == Cursor(3, 3)
  {
    StopCutsShort(7, Cursor(0, 0), 3, 1);
  }
}
