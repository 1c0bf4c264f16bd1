/**
 * `parseSeats` (controllers/bookingController.js): the seat normaliser used
 * on request bodies and on the `bookings.seats` text column.
 */
module SeatParser {
  import opened Wrappers
  import opened JsText

  /** The shapes a seats value can have when it reaches `parseSeats`. */
  datatype SeatInput =
    | Absent                      // undefined, null, false, 0: any falsy non-string
    | Items(elems: seq<Number>)   // an array, each element already passed through Number()
    | Text(text: string)          // a string; "" is falsy
    | Other                       // any other truthy value (a number, an object)

  /** The numeric, strictly positive entries of `vs`, in order, duplicates kept. */
  function Positives(vs: seq<Number>): (r: seq<int>)
    ensures |r| <= |vs|
    ensures forall i :: 0 <= i < |r| ==> r[i] > 0
  {
    if vs == [] then []
    else
      var head := if vs[0].Num? && vs[0].value > 0 then [vs[0].value] else [];
      head + Positives(vs[1..])
  }

  /** Number() applied to each element of a parsed JSON array. */
  function NumbersOfScalars(items: seq<Scalar>): (r: seq<Number>)
    ensures |r| == |items| && forall i :: 0 <= i < |items| ==> r[i] == NumberOfScalar(items[i])
  {
    seq(|items|, i requires 0 <= i < |items| => NumberOfScalar(items[i]))
  }

  /** Number(s.trim()) applied to each comma-separated piece. */
  function NumbersOfPieces(pieces: seq<string>): (r: seq<Number>)
    ensures |r| == |pieces| && forall i :: 0 <= i < |pieces| ==> r[i] == NumberOfText(pieces[i])
  {
    seq(|pieces|, i requires 0 <= i < |pieces| => NumberOfText(pieces[i]))
  }

  /**
   * `parseSeats(seats)`: an array keeps its positive numeric elements; a
   * string is read as JSON when it parses (an array keeps its positive
   * numeric elements, anything else gives nothing) and as comma-separated
   * numbers when it does not; every other value gives nothing.
   */
  function ParseSeats(x: SeatInput): (r: seq<int>)
    ensures forall i :: 0 <= i < |r| ==> r[i] > 0
    ensures x.Absent? || x.Other? || x == Text("") ==> r == []
    ensures x.Items? ==> |r| <= |x.elems|
  {
    match x
    case Absent => []
    case Other => []
    case Items(vs) => Positives(vs)
    case Text(t) =>
      if t == "" then []
      else
        match Parse(t)
        case Some(JArray(items)) => Positives(NumbersOfScalars(items))
        case Some(JScalar(_)) => []
        case None => Positives(NumbersOfPieces(Split(t, ',')))
  }

  /** The seats column as `parseSeats` receives it: SQL NULL is a falsy value. */
  function ColumnInput(column: Option<string>): SeatInput
  {
    match column
    case None => Absent
    case Some(t) => Text(t)
  }

  /** A seat list handed back to `parseSeats` as an array of numbers. */
  function AsNumbers(xs: seq<int>): (r: seq<Number>)
    ensures |r| == |xs| && forall i :: 0 <= i < |xs| ==> r[i] == Num(xs[i])
  {
    seq(|xs|, i requires 0 <= i < |xs| => Num(xs[i]))
  }

  // ---------------------------------------------------------------------------
  // Laws

  /** Filtering distributes over concatenation: relative order is kept. */
  lemma {:induction false} PositivesAppend(a: seq<Number>, b: seq<Number>)
    ensures Positives(a + b) == Positives(a) + Positives(b)
  {
    if a == [] {
      assert a + b == b;
    } else {
      assert (a + b)[0] == a[0];
      assert (a + b)[1..] == a[1..] + b;
      PositivesAppend(a[1..], b);
    }
  }

  /** Each positive value occurs in the result exactly as often as in the input. */
  lemma {:induction false} PositivesCount(vs: seq<Number>, n: int)
    requires n > 0
    ensures multiset(Positives(vs))[n] == multiset(vs)[Num(n)]
  {
    if vs != [] {
      assert vs == [vs[0]] + vs[1..];
      PositivesCount(vs[1..], n);
    }
  }

  /** Entries that are NaN or not positive never reach the result. */
  lemma {:induction false} PositivesMembers(vs: seq<Number>, n: int)
    ensures n in Positives(vs) <==> n > 0 && Num(n) in vs
  {
    if vs != [] {
      assert vs == [vs[0]] + vs[1..];
      PositivesMembers(vs[1..], n);
    }
  }

  lemma {:induction false} PositivesOfPositive(xs: seq<int>)
    requires forall i :: 0 <= i < |xs| ==> xs[i] > 0
    ensures Positives(AsNumbers(xs)) == xs
  {
    if xs != [] {
      assert AsNumbers(xs)[1..] == AsNumbers(xs[1..]);
      PositivesOfPositive(xs[1..]);
    }
  }

  /** Normalising an already normalised list, handed over as an array, changes nothing. */
  lemma ParseSeatsIdempotent(x: SeatInput)
    ensures ParseSeats(Items(AsNumbers(ParseSeats(x)))) == ParseSeats(x)
  {
    PositivesOfPositive(ParseSeats(x));
  }

  /**
   * Storing a normalised list with `JSON.stringify` and reading the column
   * back through `parseSeats` gives the same list.
   */
  lemma StoredSeatsRoundTrip(xs: seq<int>)
    requires forall i :: 0 <= i < |xs| ==> xs[i] > 0
    ensures ParseSeats(Text(Stringify(xs))) == xs
  {
    ParseStringify(xs);
    assert NumbersOfScalars(Ints(xs)) == AsNumbers(xs);
    PositivesOfPositive(xs);
  }

  /** The round trip for whatever `parseSeats` returned. */
  lemma ParseSeatsRoundTrip(x: SeatInput)
    ensures ParseSeats(Text(Stringify(ParseSeats(x)))) == ParseSeats(x)
  {
    StoredSeatsRoundTrip(ParseSeats(x));
  }

  /** Duplicates survive, and non-positive or non-numeric entries are dropped. */
  lemma DuplicatesKept()
    ensures ParseSeats(Items([Num(3), Num(3), Num(-1), NaN])) == [3, 3]
  {
    var vs := [Num(3), Num(3), Num(-1), NaN];
    assert ParseSeats(Items(vs)) == Positives(vs);
    var tail := [Num(-1), NaN];
    assert Positives([NaN]) == [] by { assert [NaN][1..] == []; }
    assert Positives(tail) == [] by { assert tail[1..] == [NaN]; }
    assert Positives([Num(3)] + tail) == [3] by { assert ([Num(3)] + tail)[1..] == tail; }
    assert Positives([Num(3), Num(3)] + tail) == [3, 3] by {
      assert ([Num(3), Num(3)] + tail)[1..] == [Num(3)] + tail;
    }
    assert [Num(3), Num(3)] + tail == [Num(3), Num(3), Num(-1), NaN];
  }

  /**
   * A lone seat number written as a string is valid JSON that is not an
   * array, so it gives no seats (compare CommaListFallsBack).
   */
  lemma LoneNumberStringGivesNothing()
    ensures ParseSeats(Text("5")) == []
  {
    var t := "5";
    assert SkipWs(t) == t;
    assert LeadingDigits(t) == 1;
    assert t[..1] == "5" && t[1..] == [];
    assert DigitsValue("5") == 5 by {
      assert "5"[..0] == [];
    }
    assert ParseInt(t) == Some((5, []));
    assert Parse(t) == Some(JScalar(JInt(5)));
  }

  /** Two comma-separated numbers are not JSON, so the text is split on commas. */
  lemma CommaListFallsBack()
    ensures ParseSeats(Text("5,6")) == [5, 6]
  {
    CommaTextIsNotJson();
    CommaTextPieces();
    assert ParseSeats(Text("5,6")) == Positives(NumbersOfPieces(["5", "6"]));
    assert NumbersOfPieces(["5", "6"]) == [Num(5), Num(6)];
    assert Positives([Num(6)]) == [6] by { assert [Num(6)][1..] == []; }
    assert Positives([Num(5), Num(6)]) == [5, 6] by { assert [Num(5), Num(6)][1..] == [Num(6)]; }
  }

  /** `"5,6"` starts with a number that is followed by more text, so `JSON.parse` throws. */
  lemma CommaTextIsNotJson()
    ensures Parse("5,6") == None
  {
    var t := "5,6";
    assert SkipWs(t) == t;
    assert LeadingDigits(t) == 1 by {
      assert t[1..] == ",6";
    }
    assert t[..1] == "5" && t[1..] == ",6";
    assert DigitsValue("5") == 5 by {
      assert "5"[..0] == [];
    }
    assert ParseInt(t) == Some((5, ",6"));
    assert SkipWs(",6") != [];
  }

  /** The comma fallback splits `"5,6"` into two pieces that read as 5 and 6. */
  lemma CommaTextPieces()
    ensures Split("5,6", ',') == ["5", "6"]
    ensures NumberOfText("5") == Num(5) && NumberOfText("6") == Num(6)
  {
    var t := "5,6";
    assert Split(t, ',') == ["5", "6"] by {
      assert t[1..] == ",6" && t[1..][1..] == "6" && "6"[1..] == [];
      assert Split([], ',') == [""];
      assert Split("6", ',') == [['6'] + ""];
      assert ['6'] + "" == "6" && ['5'] + "" == "5";
      assert ",6"[1..] == "6" && ",6"[0] == ',';
      assert Split(",6", ',') == [""] + ["6"];
      assert Split(t, ',') == [['5'] + ""] + ["6"];
    }
    assert NumberOfText("5") == Num(5) by {
      assert Trim("5") == "5" by { assert "5"[..0] == []; }
      assert DigitsValue("5") == 5 by { assert "5"[..0] == []; }
    }
    assert NumberOfText("6") == Num(6) by {
      assert Trim("6") == "6" by { assert "6"[..0] == []; }
      assert DigitsValue("6") == 6 by { assert "6"[..0] == []; }
    }
  }
}
