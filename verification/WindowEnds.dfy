/** Ends of windows that are multiples of their size. */
module WindowEnds {
  import opened Arithmetic

  // get_closest_window_end
  function ClosestEnd(timestamp: nat, size: nat): nat
    requires size > 0
  {
    timestamp + (size - timestamp % size)
  }

  /** Multiples add up, and between two different ones there is room for one window. */
  lemma Multiples(x: nat, y: nat, size: nat)
    requires size > 0 && x % size == 0 && y % size == 0
    ensures (x + y) % size == 0
    ensures x < y ==> x + size <= y
  {
    var a, b := x / size, y / size;
    MultipleAt(x, size);
    MultipleAt(y, size);
    assert (a + b) * size == a * size + b * size;
    MultipleMod(a + b, size);
    if x < y {
      NextMultiple(a, b, size);
    }
  }

  /** The closest end is the least multiple of the size that is later than the time. */
  lemma ClosestEndIsLeast(timestamp: nat, size: nat, other: nat)
    requires size > 0
    ensures var end := ClosestEnd(timestamp, size);
            && timestamp < end <= timestamp + size && end % size == 0
            && (other % size == 0 && timestamp < other ==> end <= other)
  {
    var q := timestamp / size;
    var end := ClosestEnd(timestamp, size);
    assert timestamp == q * size + timestamp % size;
    assert end == q * size + size == (q + 1) * size;
    MultipleMod(q + 1, size);
    MultipleMod(q, size);
    if other % size == 0 && timestamp < other {
      Multiples(q * size, other, size);
    }
  }

  lemma MultipleTrans(x: nat, long: nat, short: nat)
    requires short > 0 && long > 0 && long % short == 0 && x % long == 0
    ensures x % short == 0
  {
    var a, b := x / long, long / short;
    MultipleAt(x, long);
    MultipleAt(long, short);
    assert a * (b * short) == (a * b) * short;
    MultipleMod(a * b, short);
  }

  /** When the long window is a multiple of the short one, the first short one ends no later than the first long one. */
  lemma FirstEndsNested(timestamp: nat, short: nat, long: nat)
    requires short > 0 && long > 0 && long % short == 0
    ensures ClosestEnd(timestamp, short) <= ClosestEnd(timestamp, long)
    ensures ClosestEnd(timestamp, short) % short == 0 && ClosestEnd(timestamp, long) % short == 0
  {
    ClosestEndIsLeast(timestamp, long, 0);
    MultipleTrans(ClosestEnd(timestamp, long), long, short);
    ClosestEndIsLeast(timestamp, short, ClosestEnd(timestamp, long));
  }

  // the end after the check of a record at this time
  function NextEnd(end: nat, size: nat, time: nat): nat {
    if time >= end then end + size else end
  }

  /** The short window never ends after the long one, and when the long window turns so does the short one. */
  lemma EndsStayNested(endShort: nat, endLong: nat, short: nat, long: nat, time: nat)
    requires short > 0 && long > 0 && long % short == 0
    requires endShort % short == 0 && endLong % short == 0 && endShort <= endLong
    ensures var s, l := NextEnd(endShort, short, time), NextEnd(endLong, long, time);
            && s % short == 0 && l % short == 0 && s <= l
            && (l != endLong ==> s != endShort)
    ensures endShort + short <= endLong + long && (endShort + short) % short == 0 && (endLong + long) % short == 0
  {
    MultipleMod(0, short);
    MultipleMod(1, short);
    Multiples(0, long, short);
    Multiples(endShort, short, short);
    Multiples(endLong, long, short);
    Multiples(endShort, endLong, short);
  }

  /** For windows of other sizes, some first short window ends after the first long one, which then turns alone. */
  lemma NestedExactlyForMultiples(short: nat, long: nat)
    requires short > 0 && long > 0
    ensures (forall t: nat :: ClosestEnd(t, short) <= ClosestEnd(t, long)) <==> long % short == 0
  {
    if long % short == 0 {
      forall t: nat
        ensures ClosestEnd(t, short) <= ClosestEnd(t, long)
      {
        FirstEndsNested(t, short, long);
      }
    } else {
      LongTurnsAlone(short, long);
    }
  }

  /** The windows that are open at the last multiple of the short size before that of the long one. */
  lemma LongTurnsAlone(short: nat, long: nat)
    requires short > 0 && long > 0 && long % short != 0
    ensures var t := long / short * short;
            t >= 0 && ClosestEnd(t, long) == long < ClosestEnd(t, short) == t + short
  {
    var t := long / short * short;
    assert long == t + long % short;
    NotNegative(long / short, short);
    MultipleMod(long / short, short);
    assert t % long == t;
  }
}
