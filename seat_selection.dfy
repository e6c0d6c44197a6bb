/** The seat picker of the booking page: the seats picked on the seat grid
    and, in step with them, one passenger form per picked seat; the
    passenger list the page sends with the booking request; and the total
    amount it shows. */
module SeatSelection {
  import opened Schemas
  import opened Decimal

  /** A passenger form as the page holds it: age is the text of the number
      input, gender the value of the select. */
  datatype FormPassenger = FormPassenger(seatNumber: int, passengerName: string, age: string, gender: string)

  /** The form fields the page lets the user edit. */
  datatype Field = NameField | AgeField | GenderField

  /** The form added for a newly picked seat. */
  function BlankPassenger(seat: int): FormPassenger
  {
    FormPassenger(seat, "", "", "male")
  }

  predicate Distinct(s: seq<int>)
  {
    forall i, j :: 0 <= i < j < |s| ==> s[i] != s[j]
  }

  /** filter(s => s !== x): every occurrence of x dropped, order kept, so
      every other element stays and only those. */
  function Without(s: seq<int>, x: int): (r: seq<int>)
    ensures |r| <= |s|
    ensures forall y :: y in r <==> y in s && y != x
  {
    if s == [] then []
    else
      var rest := Without(s[1..], x);
      assert forall y :: y in s <==> y == s[0] || y in s[1..];
      (if s[0] == x then [] else [s[0]]) + rest
  }

  /** indexOf of a present element: its first position. */
  function IndexOf(s: seq<int>, x: int): (i: nat)
    requires x in s
    ensures i < |s| && s[i] == x
    ensures forall j :: 0 <= j < i ==> s[j] != x
  {
    if s[0] == x then 0 else IndexOf(s[1..], x) + 1
  }

  /** filter((_, i) => i !== k): the entry at position k dropped; a list
      without a position k comes back as it was. */
  function RemoveAt<T>(s: seq<T>, k: nat): (r: seq<T>)
    ensures k < |s| ==> |r| == |s| - 1
    ensures k < |s| ==> forall i :: 0 <= i < |r| ==> r[i] == if i < k then s[i] else s[i + 1]
    ensures k >= |s| ==> r == s
  {
    if k < |s| then s[..k] + s[k + 1..] else s
  }

  /** The page invariant: no seat picked twice, one form per picked seat,
      and form i belongs to seat i. */
  predicate InStep(seats: seq<int>, passengers: seq<FormPassenger>)
  {
    && Distinct(seats)
    && |passengers| == |seats|
    && forall i :: 0 <= i < |seats| ==> passengers[i].seatNumber == seats[i]
  }

  /** handleSeatClick on the two lists: a picked seat is dropped together
      with the form at its former position; any other seat is appended with
      a blank form. */
  function Toggle(seats: seq<int>, passengers: seq<FormPassenger>, seat: int): (r: (seq<int>, seq<FormPassenger>))
    ensures seat in r.0 <==> seat !in seats
    ensures forall y :: y != seat ==> (y in r.0 <==> y in seats)
    ensures seat !in seats ==> r == (seats + [seat], passengers + [BlankPassenger(seat)])
    ensures seat in seats ==> r == (Without(seats, seat), RemoveAt(passengers, IndexOf(seats, seat)))
  {
    if seat in seats then (Without(seats, seat), RemoveAt(passengers, IndexOf(seats, seat)))
    else (seats + [seat], passengers + [BlankPassenger(seat)])
  }

  lemma {:induction false} WithoutAbsent(s: seq<int>, x: int)
    requires x !in s
    ensures Without(s, x) == s
  {
    if s != [] {
      assert x !in s[1..];
      WithoutAbsent(s[1..], x);
      assert s == [s[0]] + s[1..];
    }
  }

  lemma {:induction false} WithoutAppend(s: seq<int>, y: int, x: int)
    ensures Without(s + [y], x) == Without(s, x) + (if y == x then [] else [y])
  {
    if s == [] {
      assert [] + [y] == [y];
      assert Without([y], x) == (if y == x then [] else [y]) + Without([], x);
    } else {
      var u := s + [y];
      assert u[0] == s[0];
      assert u[1..] == s[1..] + [y];
      WithoutAppend(s[1..], y, x);
      var h := if s[0] == x then [] else [s[0]];
      assert Without(u, x) == h + Without(s[1..] + [y], x);
      assert Without(s, x) == h + Without(s[1..], x);
    }
  }

  /** On a list without repetitions, dropping x is dropping its one position. */
  lemma {:induction false} WithoutDistinct(s: seq<int>, x: int)
    requires Distinct(s) && x in s
    ensures Without(s, x) == RemoveAt(s, IndexOf(s, x))
  {
    if s[0] == x {
      assert x !in s[1..];
      WithoutAbsent(s[1..], x);
      assert s[1..] == s[..0] + s[1..];
    } else {
      var t := s[1..];
      assert x in t;
      assert Distinct(t);
      WithoutDistinct(t, x);
      var k := IndexOf(t, x);
      assert IndexOf(s, x) == k + 1;
      assert Without(s, x) == [s[0]] + (t[..k] + t[k + 1..]);
      assert s[..k + 1] == [s[0]] + t[..k];
      assert s[k + 2..] == t[k + 1..];
    }
  }

  /** Dropping a position from a list without repetitions leaves none. */
  lemma {:induction false} RemoveAtDistinct(s: seq<int>, k: nat)
    requires Distinct(s) && k < |s|
    ensures Distinct(RemoveAt(s, k))
  {
    var r := RemoveAt(s, k);
    forall i, j | 0 <= i < j < |r|
      ensures r[i] != r[j]
    {
      var i' := if i < k then i else i + 1;
      var j' := if j < k then j else j + 1;
      assert r[i] == s[i'] && r[j] == s[j'] && i' < j';
    }
  }

  /** Dropping the same position from both lists keeps them in step. */
  lemma {:induction false} RemoveAtKeepsInStep(seats: seq<int>, passengers: seq<FormPassenger>, k: nat)
    requires InStep(seats, passengers) && k < |seats|
    ensures InStep(RemoveAt(seats, k), RemoveAt(passengers, k))
  {
    RemoveAtDistinct(seats, k);
    var r := RemoveAt(seats, k);
    var p := RemoveAt(passengers, k);
    forall i | 0 <= i < |r|
      ensures p[i].seatNumber == r[i]
    {
      var i' := if i < k then i else i + 1;
      assert p[i] == passengers[i'] && r[i] == seats[i'];
    }
  }

  /** Appending a seat not yet picked, with its form, keeps the lists in step. */
  lemma {:induction false} AppendKeepsInStep(seats: seq<int>, passengers: seq<FormPassenger>, seat: int)
    requires InStep(seats, passengers) && seat !in seats
    ensures InStep(seats + [seat], passengers + [BlankPassenger(seat)])
  {
    var r := seats + [seat];
    assert forall i :: 0 <= i < |seats| ==> r[i] == seats[i] && seats[i] in seats;
  }

  /** Every click keeps the two lists in step (handleSeatClick). */
  lemma {:induction false} ToggleKeepsInStep(seats: seq<int>, passengers: seq<FormPassenger>, seat: int)
    requires InStep(seats, passengers)
    ensures InStep(Toggle(seats, passengers, seat).0, Toggle(seats, passengers, seat).1)
  {
    if seat in seats {
      WithoutDistinct(seats, seat);
      RemoveAtKeepsInStep(seats, passengers, IndexOf(seats, seat));
    } else {
      AppendKeepsInStep(seats, passengers, seat);
    }
  }

  /** Clicking a free seat twice gives back both lists as they were. */
  lemma {:induction false} ToggleTwiceRestores(seats: seq<int>, passengers: seq<FormPassenger>, seat: int)
    requires seat !in seats && |passengers| == |seats|
    ensures Toggle(Toggle(seats, passengers, seat).0, Toggle(seats, passengers, seat).1, seat) == (seats, passengers)
  {
    var r := Toggle(seats, passengers, seat);
    assert r.0 == seats + [seat];
    WithoutAppend(seats, seat, seat);
    WithoutAbsent(seats, seat);
    var k := IndexOf(r.0, seat);
    assert r.0[|seats|] == seat;
    assert forall j :: 0 <= j < |seats| ==> r.0[j] == seats[j] && seats[j] in seats;
    assert k == |seats|;
    var r2 := Toggle(r.0, r.1, seat);
    assert seat in r.0;
    assert r2.0 == Without(r.0, seat) == seats;
    assert r2.1 == RemoveAt(r.1, k) == passengers;
  }

  /** Clicking a picked seat twice does not give back the lists: the seat
      moves to the end and its form is reset to a blank one. */
  lemma {:induction false} ReselectResetsForm(seats: seq<int>, passengers: seq<FormPassenger>, seat: int)
    requires InStep(seats, passengers) && seat in seats
    ensures var r := Toggle(Toggle(seats, passengers, seat).0, Toggle(seats, passengers, seat).1, seat);
      && |r.0| == |seats|
      && r.0 == Without(seats, seat) + [seat]
      && r.1[|r.1| - 1] == BlankPassenger(seat)
  {
    var r1 := Toggle(seats, passengers, seat);
    WithoutDistinct(seats, seat);
    assert |r1.1| == |seats| - 1;
    assert seat !in r1.0;
  }

  /** The total the page shows: seats picked times the price of one seat. */
  function TotalAmount(seats: seq<int>, price: int): (t: int)
    ensures seats == [] ==> t == 0
    ensures price >= 0 ==> t >= 0
    ensures |seats| == 1 ==> t == price
  {
    |seats| * price
  }

  /** Each click moves the total by exactly one seat's price: up when the
      seat was free, down when it was picked. */
  lemma {:induction false} ToggleTotal(seats: seq<int>, passengers: seq<FormPassenger>, seat: int, price: int)
    requires Distinct(seats)
    ensures TotalAmount(Toggle(seats, passengers, seat).0, price) ==
            TotalAmount(seats, price) + (if seat in seats then -price else price)
  {
    var r := Toggle(seats, passengers, seat).0;
    if seat in seats {
      WithoutDistinct(seats, seat);
      assert |r| == |seats| - 1;
      assert TotalAmount(r, price) == (|seats| - 1) * price == |seats| * price - price;
    } else {
      assert |r| == |seats| + 1;
      assert TotalAmount(r, price) == (|seats| + 1) * price == |seats| * price + price;
    }
  }

  /** Picked seats are seats of the grid, which numbers them 1 to totalSeats;
      clicks on grid seats keep it so. */
  predicate OnGrid(seats: seq<int>, totalSeats: int)
  {
    forall i :: 0 <= i < |seats| ==> 1 <= seats[i] <= totalSeats
  }

  lemma {:induction false} ToggleStaysOnGrid(seats: seq<int>, passengers: seq<FormPassenger>, seat: int, totalSeats: int)
    requires OnGrid(seats, totalSeats) && 1 <= seat <= totalSeats
    ensures OnGrid(Toggle(seats, passengers, seat).0, totalSeats)
  {
    var r := Toggle(seats, passengers, seat).0;
    forall i | 0 <= i < |r|
      ensures 1 <= r[i] <= totalSeats
    {
      assert r[i] in r;
      if r[i] != seat {
        assert r[i] in seats;
        var j :| 0 <= j < |seats| && seats[j] == r[i];
      }
    }
  }

  /** The form edited by handlePassengerChange, with one field set to value. */
  function SetField(p: FormPassenger, field: Field, value: string): FormPassenger
  {
    match field
    case NameField => p.(passengerName := value)
    case AgeField => p.(age := value)
    case GenderField => p.(gender := value)
  }

  /** handlePassengerChange on the form list: only the named field of form
      index changes; the length, the seat of that form and every other form
      stay as they were. */
  function ChangePassenger(passengers: seq<FormPassenger>, index: nat, field: Field, value: string): (r: seq<FormPassenger>)
    requires index < |passengers|
    ensures |r| == |passengers|
    ensures forall j :: 0 <= j < |r| && j != index ==> r[j] == passengers[j]
    ensures r[index].seatNumber == passengers[index].seatNumber
    ensures r[index].passengerName == if field == NameField then value else passengers[index].passengerName
    ensures r[index].age == if field == AgeField then value else passengers[index].age
    ensures r[index].gender == if field == GenderField then value else passengers[index].gender
  {
    passengers[index := SetField(passengers[index], field, value)]
  }

  /** Editing a form keeps the two lists in step. */
  lemma ChangeKeepsInStep(seats: seq<int>, passengers: seq<FormPassenger>, index: nat, field: Field, value: string)
    requires InStep(seats, passengers) && index < |passengers|
    ensures InStep(seats, ChangePassenger(passengers, index, field, value))
  {
  }

  /** The longest prefix of s made of digits. */
  function DigitRun(s: string): (n: nat)
    ensures n <= |s| && AllDigits(s[..n])
    ensures n < |s| ==> !IsDigit(s[n])
  {
    if s == [] || !IsDigit(s[0]) then 0
    else
      var n := DigitRun(s[1..]) + 1;
      assert s[..n] == [s[0]] + s[1..][..n - 1];
      n
  }

  /** parseInt of the text of the age input: an optional sign, then the
      digits up to the first non-digit; None stands for NaN (no digit). */
  function ParseInt(s: string): (r: Option<int>)
    ensures s == "" ==> r.None?
    ensures r.None? <==> DigitRun(if |s| > 0 && (s[0] == '-' || s[0] == '+') then s[1..] else s) == 0
    ensures r.Some? && r.value < 0 ==> s[0] == '-'
  {
    var neg := |s| > 0 && s[0] == '-';
    var body := if |s| > 0 && (s[0] == '-' || s[0] == '+') then s[1..] else s;
    var n := DigitRun(body);
    if n == 0 then None
    else
      var v: int := DecimalValue(body[..n]);
      Some(if neg then -v else v)
  }

  /** parseInt reads back a number the way it is printed, and stops at the
      first character that is not a digit ("25.5" reads as 25). */
  lemma {:induction false} ParseIntReadsDecimal(n: nat, rest: string)
    requires rest == [] || !IsDigit(rest[0])
    ensures ParseInt(NatToDecimal(n) + rest) == Some(n)
  {
    var d := NatToDecimal(n);
    var s := d + rest;
    assert IsDigit(s[0]);
    assert s[..|d|] == d;
    DigitRunOfDigits(s, |d|);
    DecimalRoundTrip(n);
  }

  lemma {:induction false} DigitRunOfDigits(s: string, k: nat)
    requires k <= |s| && AllDigits(s[..k]) && (k == |s| || !IsDigit(s[k]))
    ensures DigitRun(s) == k
  {
    if k > 0 {
      assert IsDigit(s[..k][0]);
      assert s[1..][..k - 1] == s[..k][1..];
      DigitRunOfDigits(s[1..], k - 1);
    }
  }

  /** An entry of the passenger list sent with the booking request: the seat
      at the same position of selectedSeats (None when there is none), the
      name and gender of the form, and parseInt of its age. */
  datatype SubmittedPassenger = SubmittedPassenger(seatNumber: Option<int>, passengerName: string, age: Option<int>, gender: string)

  /** The passengerData mapping of handleBooking. */
  function PassengerData(seats: seq<int>, passengers: seq<FormPassenger>): (r: seq<SubmittedPassenger>)
    ensures |r| == |passengers|
    ensures forall i :: 0 <= i < |r| ==>
      && r[i].seatNumber == (if i < |seats| then Some(seats[i]) else None)
      && r[i].passengerName == passengers[i].passengerName
      && r[i].age == ParseInt(passengers[i].age)
      && r[i].gender == passengers[i].gender
  {
    seq(|passengers|, i requires 0 <= i < |passengers| =>
      SubmittedPassenger(if i < |seats| then Some(seats[i]) else None,
                         passengers[i].passengerName, ParseInt(passengers[i].age), passengers[i].gender))
  }

  /** From lists in step, the request carries one passenger per picked seat,
      in picking order, each seat once: the page itself never sends a seat
      twice. */
  lemma SubmittedSeatsArePicked(seats: seq<int>, passengers: seq<FormPassenger>)
    requires InStep(seats, passengers)
    ensures var r := PassengerData(seats, passengers);
      && |r| == |seats|
      && (forall i :: 0 <= i < |r| ==> r[i].seatNumber == Some(seats[i]) == Some(passengers[i].seatNumber))
      && (forall i, j :: 0 <= i < j < |r| ==> r[i].seatNumber != r[j].seatNumber)
  {
  }

  /** The page state: the two lists of the component. */
  class SeatPicker {
    var selectedSeats: seq<int>
    var passengers: seq<FormPassenger>

    ghost predicate Valid()
      reads this
    {
      InStep(selectedSeats, passengers)
    }

    /** Both lists start empty. */
    constructor()
      ensures selectedSeats == [] && passengers == []
      ensures Valid()
    {
      selectedSeats := [];
      passengers := [];
    }

    /** handleSeatClick: both lists are computed from their values before
        the click (the position of the seat included). */
    method HandleSeatClick(seatNum: int)
      modifies this
      ensures (selectedSeats, passengers) == Toggle(old(selectedSeats), old(passengers), seatNum)
      ensures old(Valid()) ==> Valid()
    {
      if seatNum in selectedSeats {
        var k := IndexOf(selectedSeats, seatNum);
        passengers := RemoveAt(passengers, k);
        selectedSeats := Without(selectedSeats, seatNum);
      } else {
        passengers := passengers + [BlankPassenger(seatNum)];
        selectedSeats := selectedSeats + [seatNum];
      }
      if old(Valid()) {
        ToggleKeepsInStep(old(selectedSeats), old(passengers), seatNum);
      }
    }

    /** handlePassengerChange: one field of one form. */
    method HandlePassengerChange(index: nat, field: Field, value: string)
      requires index < |passengers|
      modifies this
      ensures selectedSeats == old(selectedSeats)
      ensures passengers == ChangePassenger(old(passengers), index, field, value)
      ensures old(Valid()) ==> Valid()
    {
      var updated := passengers[index := SetField(passengers[index], field, value)];
      passengers := updated;
    }
  }
}
