/** Booking admission (app/actions.ts, createBooking and deleteBooking): a
    request is refused when a field is missing, when it does not end after it
    starts, or when it overlaps a booking of the same resource; otherwise it
    becomes exactly one new booking. Times are the strings the action builds,
    `"${date}T${HH:MM}:00"`, compared with JavaScript's string `<`. */
module Bookings {
  import opened Common
  import opened StringOrder
  import opened Clock

  const MissingFields := "Fyll i alla fält."
  const EndBeforeStart := "Sluttid måste vara efter starttid."
  const SlotTaken := "Tiden är redan bokad! 🚫"

  /** The form fields createBooking reads. */
  datatype Request = Request(date: string, startTime: string, endTime: string, name: string, contact: string)

  /** A row of the `bookings` collection. */
  datatype Booking = Booking(id: Id, resourceId: Id, userName: string, start: string, end: string)

  predicate HasMissingField(req: Request)
  {
    req.date == [] || req.startTime == [] || req.endTime == [] || req.name == [] || req.contact == []
  }

  function StartOf(req: Request): string { Stamp(req.date, req.startTime) }
  function EndOf(req: Request): string { Stamp(req.date, req.endTime) }

  /** The conflict filter: the existing booking starts before the new one ends
      and ends after the new one starts. */
  predicate Overlaps(b: Booking, start: string, end: string)
  {
    Precedes(b.start, end) && Precedes(start, b.end)
  }

  /** Some booking of the resource overlaps the interval. */
  predicate Conflicts(bookings: seq<Booking>, resourceId: Id, start: string, end: string)
  {
    exists i :: 0 <= i < |bookings| && bookings[i].resourceId == resourceId && Overlaps(bookings[i], start, end)
  }

  /** No two different rows of the same resource overlap. */
  predicate NoOverlap(bookings: seq<Booking>)
  {
    forall i, j :: 0 <= i < |bookings| && 0 <= j < |bookings| && i != j &&
                   bookings[i].resourceId == bookings[j].resourceId ==>
                   !Overlaps(bookings[i], bookings[j].start, bookings[j].end)
  }

  /** The decision of createBooking: the error it returns, or the row it
      creates under the identifier `id`. */
  function Admit(bookings: seq<Booking>, id: Id, resourceId: Id, req: Request): (r: Outcome<Booking>)
    ensures HasMissingField(req) ==> r == Fail(Reported(MissingFields))
    ensures !HasMissingField(req) && !Precedes(StartOf(req), EndOf(req)) ==> r == Fail(Reported(EndBeforeStart))
    ensures (!HasMissingField(req) && Precedes(StartOf(req), EndOf(req)) &&
             Conflicts(bookings, resourceId, StartOf(req), EndOf(req))) ==> r == Fail(Reported(SlotTaken))
    ensures r.Ok? <==> !HasMissingField(req) && Precedes(StartOf(req), EndOf(req)) &&
                       !Conflicts(bookings, resourceId, StartOf(req), EndOf(req))
    ensures r.Ok? ==> r.value == Booking(id, resourceId, req.name + " (" + req.contact + ")", StartOf(req), EndOf(req))
    ensures r.Ok? ==> Precedes(r.value.start, r.value.end)
    ensures r.Ok? ==> forall b :: b in bookings && b.resourceId == resourceId ==> !Overlaps(b, r.value.start, r.value.end)
  {
    if HasMissingField(req) then Fail(Reported(MissingFields))
    else
      var start, end := StartOf(req), EndOf(req);
      if !Precedes(start, end) then Fail(Reported(EndBeforeStart))
      else if Conflicts(bookings, resourceId, start, end) then Fail(Reported(SlotTaken))
      else Ok(Booking(id, resourceId, req.name + " (" + req.contact + ")", start, end))
  }

  /** Appending an admitted booking keeps the bookings of every resource
      pairwise disjoint. */
  lemma AdmitPreservesNoOverlap(bookings: seq<Booking>, id: Id, resourceId: Id, req: Request)
    requires NoOverlap(bookings)
    requires Admit(bookings, id, resourceId, req).Ok?
    ensures NoOverlap(bookings + [Admit(bookings, id, resourceId, req).value])
  {
    var b := Admit(bookings, id, resourceId, req).value;
    var after := bookings + [b];
    forall i, j | 0 <= i < |after| && 0 <= j < |after| && i != j && after[i].resourceId == after[j].resourceId
      ensures !Overlaps(after[i], after[j].start, after[j].end)
    {
      if i == |bookings| {
        assert bookings[j] in bookings;
        assert !Overlaps(bookings[j], b.start, b.end);
      } else if j == |bookings| {
        assert bookings[i] in bookings;
      }
    }
  }

  /** Sending the same form twice books the slot once: the second request
      overlaps the first booking. */
  lemma DuplicateRejected(bookings: seq<Booking>, id: Id, nextId: Id, resourceId: Id, req: Request)
    requires Admit(bookings, id, resourceId, req).Ok?
    ensures Admit(bookings + [Admit(bookings, id, resourceId, req).value], nextId, resourceId, req) ==
            Fail(Reported(SlotTaken))
  {
    var b := Admit(bookings, id, resourceId, req).value;
    var after := bookings + [b];
    assert after[|bookings|] == b && Overlaps(b, StartOf(req), EndOf(req));
  }

  /** A request that starts where an existing booking ends, or ends where one
      starts, does not conflict with it: the intervals are half-open. */
  lemma BackToBackAdmitted(bookings: seq<Booking>, id: Id, resourceId: Id, req: Request)
    requires !HasMissingField(req) && Precedes(StartOf(req), EndOf(req))
    requires forall b :: b in bookings && b.resourceId == resourceId ==>
               b.end == StartOf(req) || b.start == EndOf(req)
    ensures Admit(bookings, id, resourceId, req).Ok?
  {
    forall i | 0 <= i < |bookings| && bookings[i].resourceId == resourceId
      ensures !Overlaps(bookings[i], StartOf(req), EndOf(req))
    {
      assert bookings[i] in bookings;
      if bookings[i].end == StartOf(req) {
        Irreflexive(StartOf(req));
      } else {
        Irreflexive(EndOf(req));
      }
    }
  }

  /** For zero-padded times, the "end after start" check compares clock
      times: a request is turned away with EndBeforeStart exactly when its end
      is not later than its start. */
  lemma ValidationByClock(bookings: seq<Booking>, id: Id, resourceId: Id, req: Request)
    requires !HasMissingField(req)
    requires WellFormedTime(req.startTime) && WellFormedTime(req.endTime)
    ensures Admit(bookings, id, resourceId, req) == Fail(Reported(EndBeforeStart)) <==>
            Minutes(req.endTime) <= Minutes(req.startTime)
  {
    StampOrder(req.date, req.startTime, req.date, req.endTime);
    Irreflexive(req.date);
  }

  /** Two intervals on the same day overlap exactly when their clock times do. */
  lemma OverlapByClock(date: string, s1: string, e1: string, s2: string, e2: string, b: Booking)
    requires WellFormedTime(s1) && WellFormedTime(e1) && WellFormedTime(s2) && WellFormedTime(e2)
    requires b.start == Stamp(date, s1) && b.end == Stamp(date, e1)
    ensures Overlaps(b, Stamp(date, s2), Stamp(date, e2)) <==>
            Minutes(s1) < Minutes(e2) && Minutes(s2) < Minutes(e1)
  {
    Irreflexive(date);
    StampOrder(date, s1, date, e2);
    StampOrder(date, s2, date, e1);
  }

  /** A laundry room booked 10:00-12:00 on some date. */
  function LaundryBooking(date: string): Booking
  {
    Booking(1, 7, "Anna (12)", Stamp(date, "10:00"), Stamp(date, "12:00"))
  }

  /** 11:00-13:00 overlaps the 10:00-12:00 booking. */
  lemma LaundryOverlapTaken(date: string)
    requires date != []
    ensures Admit([LaundryBooking(date)], 2, 7, Request(date, "11:00", "13:00", "Bo", "14")) == Fail(Reported(SlotTaken))
  {
    var req := Request(date, "11:00", "13:00", "Bo", "14");
    assert Minutes("10:00") == 600 && Minutes("11:00") == 660 && Minutes("12:00") == 720 && Minutes("13:00") == 780;
    OverlapByClock(date, "10:00", "12:00", "11:00", "13:00", LaundryBooking(date));
    ValidationByClock([LaundryBooking(date)], 2, 7, req);
    assert [LaundryBooking(date)][0] == LaundryBooking(date);
  }

  /** 12:00-14:00, right after the 10:00-12:00 booking, is free. */
  lemma LaundryAfterFree(date: string)
    requires date != []
    ensures Admit([LaundryBooking(date)], 2, 7, Request(date, "12:00", "14:00", "Bo", "14")).Ok?
  {
    var req := Request(date, "12:00", "14:00", "Bo", "14");
    assert Minutes("10:00") == 600 && Minutes("12:00") == 720 && Minutes("14:00") == 840;
    OverlapByClock(date, "10:00", "12:00", "12:00", "14:00", LaundryBooking(date));
    ValidationByClock([LaundryBooking(date)], 2, 7, req);
  }

  /** 08:00-10:00, right before the 10:00-12:00 booking, is free. */
  lemma LaundryBeforeFree(date: string)
    requires date != []
    ensures Admit([LaundryBooking(date)], 2, 7, Request(date, "08:00", "10:00", "Bo", "14")).Ok?
  {
    var req := Request(date, "08:00", "10:00", "Bo", "14");
    assert Minutes("08:00") == 480 && Minutes("10:00") == 600 && Minutes("12:00") == 720;
    OverlapByClock(date, "10:00", "12:00", "08:00", "10:00", LaundryBooking(date));
    ValidationByClock([LaundryBooking(date)], 2, 7, req);
  }

  /** The bookings collection after `delete(bookingId)`. */
  function Cancel(bookings: seq<Booking>, bookingId: Id): (r: seq<Booking>)
    ensures |r| <= |bookings|
    ensures forall b :: b in r <==> b in bookings && b.id != bookingId
  {
    if bookings == [] then []
    else
      var rest := Cancel(bookings[1..], bookingId);
      assert forall b :: b in bookings <==> b == bookings[0] || b in bookings[1..];
      if bookings[0].id == bookingId then rest else [bookings[0]] + rest
  }

  /** A first row that overlaps nothing after it keeps the rest disjoint. */
  lemma {:induction false} NoOverlapCons(b: Booking, rest: seq<Booking>)
    requires NoOverlap(rest)
    requires forall x :: x in rest && x.resourceId == b.resourceId ==> !Overlaps(x, b.start, b.end)
    ensures NoOverlap([b] + rest)
  {
    var s := [b] + rest;
    forall i, j | 0 <= i < |s| && 0 <= j < |s| && i != j && s[i].resourceId == s[j].resourceId
      ensures !Overlaps(s[i], s[j].start, s[j].end)
    {
      if i == 0 {
        assert s[j] == rest[j - 1] && s[j] in rest;
      } else if j == 0 {
        assert s[i] == rest[i - 1] && s[i] in rest;
      } else {
        assert s[i] == rest[i - 1] && s[j] == rest[j - 1];
      }
    }
  }

  /** Deleting a booking keeps the rest pairwise disjoint. */
  lemma {:induction false} CancelPreservesNoOverlap(bookings: seq<Booking>, bookingId: Id)
    requires NoOverlap(bookings)
    ensures NoOverlap(Cancel(bookings, bookingId))
  {
    if bookings != [] {
      var rest := bookings[1..];
      assert NoOverlap(rest) by {
        forall i, j | 0 <= i < |rest| && 0 <= j < |rest| && i != j && rest[i].resourceId == rest[j].resourceId
          ensures !Overlaps(rest[i], rest[j].start, rest[j].end)
        {
          assert rest[i] == bookings[i + 1] && rest[j] == bookings[j + 1];
        }
      }
      CancelPreservesNoOverlap(rest, bookingId);
      if bookings[0].id != bookingId {
        var kept := Cancel(rest, bookingId);
        forall x | x in kept && x.resourceId == bookings[0].resourceId
          ensures !Overlaps(x, bookings[0].start, bookings[0].end)
        {
          var k :| 0 <= k < |rest| && rest[k] == x;
          assert bookings[k + 1] == x;
        }
        NoOverlapCons(bookings[0], kept);
      }
    }
  }
}
