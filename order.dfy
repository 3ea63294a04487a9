/** JavaScript's `<` on strings, and the booking timestamps the core compares
    with it. The source builds `"${date}T${HH:MM}:00"` and relies on string
    order agreeing with time order; `StampOrder` states when it does. */
module StringOrder {

  /** `a < b` on JavaScript strings: lexicographic by character, a proper
      prefix coming first. */
  predicate Precedes(a: string, b: string)
  {
    if a == [] then b != []
    else if b == [] then false
    else if a[0] != b[0] then a[0] < b[0]
    else Precedes(a[1..], b[1..])
  }

  lemma {:induction false} Irreflexive(a: string)
    ensures !Precedes(a, a)
  {
    if a != [] { Irreflexive(a[1..]); }
  }

  lemma {:induction false} Asymmetric(a: string, b: string)
    ensures !(Precedes(a, b) && Precedes(b, a))
  {
    if a != [] && b != [] && a[0] == b[0] { Asymmetric(a[1..], b[1..]); }
  }

  lemma {:induction false} Transitive(a: string, b: string, c: string)
    requires Precedes(a, b) && Precedes(b, c)
    ensures Precedes(a, c)
  {
    if a != [] && a[0] == b[0] && b[0] == c[0] {
      Transitive(a[1..], b[1..], c[1..]);
    }
  }

  /** Two different strings are always ordered one way or the other. */
  lemma {:induction false} Total(a: string, b: string)
    requires a != b
    ensures Precedes(a, b) || Precedes(b, a)
  {
    if a != [] && b != [] && a[0] == b[0] {
      assert a == [a[0]] + a[1..] && b == [b[0]] + b[1..];
      Total(a[1..], b[1..]);
    }
  }

  /** A shared prefix does not change the order. */
  lemma {:induction false} CommonPrefix(p: string, a: string, b: string)
    ensures Precedes(p + a, p + b) == Precedes(a, b)
  {
    if p != [] {
      assert (p + a)[1..] == p[1..] + a;
      assert (p + b)[1..] == p[1..] + b;
      CommonPrefix(p[1..], a, b);
    } else {
      assert p + a == a && p + b == b;
    }
  }

  /** When two strings of the same length differ, whatever follows them does
      not change their order. */
  lemma {:induction false} SameLengthHeads(a: string, b: string, x: string, y: string)
    requires |a| == |b| && a != b
    ensures Precedes(a + x, b + y) == Precedes(a, b)
  {
    assert a != [] && b != [];
    assert (a + x)[0] == a[0] && (b + y)[0] == b[0];
    if a[0] == b[0] {
      assert (a + x)[1..] == a[1..] + x;
      assert (b + y)[1..] == b[1..] + y;
      assert a == [a[0]] + a[1..] && b == [b[0]] + b[1..];
      SameLengthHeads(a[1..], b[1..], x, y);
    }
  }
}

/** Booking times: an `<input type="time">` value "HH:MM" and the timestamp
    `"${date}T${time}:00"` that `createBooking` stores and compares. */
module Clock {
  import opened StringOrder

  predicate IsDigit(c: char) { '0' <= c <= '9' }

  function DigitValue(c: char): nat
    requires IsDigit(c)
  {
    c as nat - '0' as nat
  }

  /** A zero-padded "HH:MM" with minutes below 60. */
  predicate WellFormedTime(t: string)
  {
    |t| == 5 && IsDigit(t[0]) && IsDigit(t[1]) && t[2] == ':' &&
    '0' <= t[3] <= '5' && IsDigit(t[4])
  }

  /** Minutes since midnight of a well-formed time. */
  function Minutes(t: string): (m: nat)
    requires WellFormedTime(t)
    ensures m < 6000
  {
    (10 * DigitValue(t[0]) + DigitValue(t[1])) * 60 + 10 * DigitValue(t[3]) + DigitValue(t[4])
  }

  /** `${date}T${time}:00` (app/actions.ts, createBooking). */
  function Stamp(date: string, time: string): string
  {
    date + "T" + time + ":00"
  }

  /** For zero-padded times, string order is clock order. */
  lemma TimeOrder(t1: string, t2: string)
    requires WellFormedTime(t1) && WellFormedTime(t2)
    ensures Precedes(t1, t2) <==> Minutes(t1) < Minutes(t2)
  {
    var d0, d1, d3, d4 := DigitValue(t1[0]), DigitValue(t1[1]), DigitValue(t1[3]), DigitValue(t1[4]);
    var e0, e1, e3, e4 := DigitValue(t2[0]), DigitValue(t2[1]), DigitValue(t2[3]), DigitValue(t2[4]);
    assert Minutes(t1) == 600 * d0 + 60 * d1 + 10 * d3 + d4;
    assert Minutes(t2) == 600 * e0 + 60 * e1 + 10 * e3 + e4;
    if t1[0] != t2[0] {
      assert Precedes(t1, t2) == (t1[0] < t2[0]);
    } else if t1[1] != t2[1] {
      assert Precedes(t1, t2) == Precedes(t1[1..], t2[1..]);
      assert Precedes(t1[1..], t2[1..]) == (t1[1] < t2[1]);
    } else if t1[3] != t2[3] {
      assert Precedes(t1, t2) == Precedes(t1[1..], t2[1..]);
      assert Precedes(t1[1..], t2[1..]) == Precedes(t1[2..], t2[2..]);
      assert Precedes(t1[2..], t2[2..]) == Precedes(t1[3..], t2[3..]);
      assert Precedes(t1[3..], t2[3..]) == (t1[3] < t2[3]);
    } else if t1[4] != t2[4] {
      assert Precedes(t1, t2) == Precedes(t1[1..], t2[1..]);
      assert Precedes(t1[1..], t2[1..]) == Precedes(t1[2..], t2[2..]);
      assert Precedes(t1[2..], t2[2..]) == Precedes(t1[3..], t2[3..]);
      assert Precedes(t1[3..], t2[3..]) == Precedes(t1[4..], t2[4..]);
      assert Precedes(t1[4..], t2[4..]) == (t1[4] < t2[4]);
    } else {
      assert t1 == t2;
      Irreflexive(t1);
    }
  }

  /** Timestamps on dates written with the same number of characters are
      ordered by date first and then by time of day. */
  lemma StampOrder(d1: string, t1: string, d2: string, t2: string)
    requires |d1| == |d2|
    requires WellFormedTime(t1) && WellFormedTime(t2)
    ensures Precedes(Stamp(d1, t1), Stamp(d2, t2)) <==>
            Precedes(d1, d2) || (d1 == d2 && Minutes(t1) < Minutes(t2))
  {
    var x1, x2 := "T" + t1 + ":00", "T" + t2 + ":00";
    assert Stamp(d1, t1) == d1 + x1 && Stamp(d2, t2) == d2 + x2;
    if d1 != d2 {
      SameLengthHeads(d1, d2, x1, x2);
      if Precedes(d1, d2) { Asymmetric(d1, d2); }
    } else {
      Irreflexive(d1);
      CommonPrefix(d1 + "T", t1 + ":00", t2 + ":00");
      assert Stamp(d1, t1) == (d1 + "T") + (t1 + ":00");
      assert Stamp(d2, t2) == (d1 + "T") + (t2 + ":00");
      TimeOrder(t1, t2);
      if t1 != t2 {
        SameLengthHeads(t1, t2, ":00", ":00");
      } else {
        Irreflexive(t1 + ":00");
      }
    }
  }
}
