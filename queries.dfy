/** The read-only side of the booking routes: the train filter, the seat
    listing of a train, the single-record lookups and the reservation
    listing of a client.  Everything here is a function of a store value. */
module Queries {
  import opened Outcomes
  import opened Models

  /** An optional text argument as an `if arg:` test sees it: absent and
      empty both leave the filter off. */
  function ActiveText(o: Option<string>): Option<string> {
    if o.Some? && o.value != "" then o else None
  }

  // ---- Trains ---------------------------------------------------------

  /** A seat of `trainId` that is Available and, under a class filter, of that class. */
  predicate AvailableOn(s: Seat, trainId: int, classFilter: Option<string>) {
    && s.trainId == trainId
    && s.status == Available
    && (classFilter.Some? ==> SeatClassName(s.seatClass) == classFilter.value)
  }

  /** How many of the train's seats survive the status and class filters:
      the `COUNT(Seat.seat_id)` of the train's group in the joined query. */
  function SeatCount(ss: seq<Seat>, trainId: int, classFilter: Option<string>): nat {
    if ss == [] then 0
    else SeatCount(ss[..|ss| - 1], trainId, classFilter)
         + (if AvailableOn(ss[|ss| - 1], trainId, classFilter) then 1 else 0)
  }

  /** Appending one seat adds one to the count exactly when the filters keep it. */
  lemma SeatCountSnoc(ss: seq<Seat>, s: Seat, trainId: int, classFilter: Option<string>)
    ensures SeatCount(ss + [s], trainId, classFilter)
         == SeatCount(ss, trainId, classFilter) + (if AvailableOn(s, trainId, classFilter) then 1 else 0)
  {
    assert (ss + [s])[..|ss|] == ss;
  }

  /** The positions among the first `n` seats that the filters keep. */
  function Positions(ss: seq<Seat>, trainId: int, classFilter: Option<string>, n: nat): set<int>
    requires n <= |ss|
  {
    set k | 0 <= k < n && AvailableOn(ss[k], trainId, classFilter)
  }

  lemma {:induction false} PrefixCountIsCardinality(ss: seq<Seat>, trainId: int, classFilter: Option<string>, n: nat)
    requires n <= |ss|
    ensures SeatCount(ss[..n], trainId, classFilter) == |Positions(ss, trainId, classFilter, n)|
  {
    if n > 0 {
      PrefixCountIsCardinality(ss, trainId, classFilter, n - 1);
      PositionsStep(ss, trainId, classFilter, n);
      assert ss[..n][..n - 1] == ss[..n - 1];
    }
  }

  lemma PositionsStep(ss: seq<Seat>, trainId: int, classFilter: Option<string>, n: nat)
    requires 0 < n <= |ss|
    ensures Positions(ss, trainId, classFilter, n)
         == Positions(ss, trainId, classFilter, n - 1)
            + (if AvailableOn(ss[n - 1], trainId, classFilter) then {n - 1} else {})
  {
  }

  /** The count is the number of positions holding such a seat. */
  lemma SeatCountIsCardinality(ss: seq<Seat>, trainId: int, classFilter: Option<string>)
    ensures SeatCount(ss, trainId, classFilter) == |Positions(ss, trainId, classFilter, |ss|)|
  {
    PrefixCountIsCardinality(ss, trainId, classFilter, |ss|);
    assert ss[..|ss|] == ss;
  }

  /** Without a class filter the count is the sum of the three per-class counts. */
  lemma {:induction false} SeatCountSplitsByClass(ss: seq<Seat>, trainId: int)
    ensures SeatCount(ss, trainId, None)
         == SeatCount(ss, trainId, Some(SeatClassName(First)))
          + SeatCount(ss, trainId, Some(SeatClassName(Business)))
          + SeatCount(ss, trainId, Some(SeatClassName(Standard)))
  {
    if ss != [] {
      SeatCountSplitsByClass(ss[..|ss| - 1], trainId);
    }
  }

  /** A positive count has a seat behind it. */
  lemma {:induction false} SeatCountWitness(ss: seq<Seat>, trainId: int, classFilter: Option<string>)
    requires SeatCount(ss, trainId, classFilter) > 0
    ensures exists k :: 0 <= k < |ss| && AvailableOn(ss[k], trainId, classFilter)
  {
    var n := |ss| - 1;
    if !AvailableOn(ss[n], trainId, classFilter) {
      SeatCountWitness(ss[..n], trainId, classFilter);
      var k :| 0 <= k < n && AvailableOn(ss[..n][k], trainId, classFilter);
      assert ss[k] == ss[..n][k];
    }
  }

  /** The arguments of the train filter; date-times are timestamps. */
  datatype TrainQuery = TrainQuery(
    departureStation: string,
    arrivalStation: string,
    outboundDate: Option<int>,
    returnDate: Option<int>,
    minAvailableSeats: Option<int>,
    seatClass: Option<string>)

  /** Whether the filter query returns a group for train `t`: both stations
      equal, the departure inside the inclusive date bounds, at least one
      Available seat after the class filter, and, when a non-zero minimum is
      given, at least that many. */
  predicate Qualifies(t: Train, ss: seq<Seat>, q: TrainQuery) {
    var n := SeatCount(ss, t.trainId, ActiveText(q.seatClass));
    && t.departureStation == q.departureStation
    && t.arrivalStation == q.arrivalStation
    && (q.outboundDate.Some? ==> t.departureTime >= q.outboundDate.value)
    && (q.returnDate.Some? ==> t.departureTime <= q.returnDate.value)
    && n > 0
    && (q.minAvailableSeats.Some? && q.minAvailableSeats.value != 0 ==> n >= q.minAvailableSeats.value)
  }

  /** The trains the filter query returns, in storage order: each stored
      train that qualifies, as often as it is stored. */
  function MatchingTrains(ts: seq<Train>, ss: seq<Seat>, q: TrainQuery): (r: seq<Train>)
    ensures forall t :: multiset(r)[t] == if Qualifies(t, ss, q) then multiset(ts)[t] else 0
  {
    if ts == [] then []
    else
      var n := |ts| - 1;
      assert ts == ts[..n] + [ts[n]];
      MatchingTrains(ts[..n], ss, q) + (if Qualifies(ts[n], ss, q) then [ts[n]] else [])
  }

  /** Appending one train to the table appends it to the answer exactly when it qualifies. */
  lemma MatchingTrainsSnoc(ts: seq<Train>, t: Train, ss: seq<Seat>, q: TrainQuery)
    ensures MatchingTrains(ts + [t], ss, q) == MatchingTrains(ts, ss, q) + (if Qualifies(t, ss, q) then [t] else [])
  {
    assert (ts + [t])[..|ts|] == ts;
  }

  /** A train is returned exactly when it is stored and qualifies. */
  lemma MatchingTrainsExact(ts: seq<Train>, ss: seq<Seat>, q: TrainQuery, t: Train)
    ensures t in MatchingTrains(ts, ss, q) <==> t in ts && Qualifies(t, ss, q)
  {
    var r := MatchingTrains(ts, ss, q);
    assert t in r <==> multiset(r)[t] > 0;
    assert t in ts <==> multiset(ts)[t] > 0;
  }

  /** A qualifying train has at least one Available seat, of the requested
      class if one is requested. */
  lemma QualifyingTrainHasSeat(t: Train, ss: seq<Seat>, q: TrainQuery)
    requires Qualifies(t, ss, q)
    ensures exists k :: 0 <= k < |ss| && AvailableOn(ss[k], t.trainId, ActiveText(q.seatClass))
  {
    SeatCountWitness(ss, t.trainId, ActiveText(q.seatClass));
  }

  /** One entry of the filter's answer, with the live per-class counts. */
  datatype TrainSummary = TrainSummary(
    trainId: int,
    departureStation: string,
    arrivalStation: string,
    departureTime: int,
    arrivalTime: int,
    availableFirst: nat,
    availableBusiness: nat,
    availableStandard: nat)

  function ClassCount(ss: seq<Seat>, trainId: int, c: SeatClass): nat {
    SeatCount(ss, trainId, Some(SeatClassName(c)))
  }

  /** The positions of the train's Available seats of class `c`. */
  function AvailableOfClass(ss: seq<Seat>, trainId: int, c: SeatClass): set<int> {
    set k | 0 <= k < |ss| && ss[k].trainId == trainId && ss[k].seatClass == c && ss[k].status == Available
  }

  /** Each per-class count is the number of Available seats of that class on
      the train, whatever filter selected the train. */
  lemma ClassCountIsAvailableSeats(ss: seq<Seat>, trainId: int, c: SeatClass)
    ensures ClassCount(ss, trainId, c) == |AvailableOfClass(ss, trainId, c)|
  {
    SeatCountIsCardinality(ss, trainId, Some(SeatClassName(c)));
    assert forall d: SeatClass :: SeatClassName(d) == SeatClassName(c) ==> d == c;
    assert Positions(ss, trainId, Some(SeatClassName(c)), |ss|) == AvailableOfClass(ss, trainId, c);
  }

  /** The answer entry for a returned train: its own columns and, per class,
      the number of its Available seats. */
  function Summarize(t: Train, ss: seq<Seat>): (r: TrainSummary)
    ensures && r.trainId == t.trainId && r.departureStation == t.departureStation
            && r.arrivalStation == t.arrivalStation && r.departureTime == t.departureTime
            && r.arrivalTime == t.arrivalTime
    ensures r.availableFirst == |AvailableOfClass(ss, t.trainId, First)|
    ensures r.availableBusiness == |AvailableOfClass(ss, t.trainId, Business)|
    ensures r.availableStandard == |AvailableOfClass(ss, t.trainId, Standard)|
  {
    ClassCountIsAvailableSeats(ss, t.trainId, First);
    ClassCountIsAvailableSeats(ss, t.trainId, Business);
    ClassCountIsAvailableSeats(ss, t.trainId, Standard);
    TrainSummary(
      t.trainId, t.departureStation, t.arrivalStation, t.departureTime, t.arrivalTime,
      ClassCount(ss, t.trainId, First),
      ClassCount(ss, t.trainId, Business),
      ClassCount(ss, t.trainId, Standard))
  }

  /** Two trains on the same line: with a minimum of two Standard seats only
      the first, which has three, is returned. */
  lemma FilterByClassAndMinimum()
    ensures
      var t1 := Train(1, "StationA", "StationB", 5, 6);
      var t2 := Train(2, "StationA", "StationB", 10, 11);
      var ss := [NewSeat(1, 1, Standard, 5000), NewSeat(2, 1, Standard, 5000),
                 NewSeat(3, 1, Standard, 5000), NewSeat(4, 2, Standard, 5000)];
      MatchingTrains([t1, t2], ss, TrainQuery("StationA", "StationB", None, None, Some(2), Some("Standard"))) == [t1]
  {
    var t1 := Train(1, "StationA", "StationB", 5, 6);
    var t2 := Train(2, "StationA", "StationB", 10, 11);
    var s1, s2, s3, s4 := NewSeat(1, 1, Standard, 5000), NewSeat(2, 1, Standard, 5000),
                          NewSeat(3, 1, Standard, 5000), NewSeat(4, 2, Standard, 5000);
    var ss := [s1, s2, s3, s4];
    var q := TrainQuery("StationA", "StationB", None, None, Some(2), Some("Standard"));
    ThreeAndOne(s1, s2, s3, s4, "Standard");
    assert Qualifies(t1, ss, q) && !Qualifies(t2, ss, q);
    MatchingTrainsSnoc([], t1, ss, q);
    MatchingTrainsSnoc([t1], t2, ss, q);
    assert [] + [t1] == [t1] && [t1] + [t2] == [t1, t2];
  }

  /** Three kept seats on train 1 and then one on train 2 count three and one. */
  lemma ThreeAndOne(s1: Seat, s2: Seat, s3: Seat, s4: Seat, className: string)
    requires AvailableOn(s1, 1, Some(className)) && AvailableOn(s2, 1, Some(className))
    requires AvailableOn(s3, 1, Some(className)) && AvailableOn(s4, 2, Some(className))
    ensures SeatCount([s1, s2, s3, s4], 1, Some(className)) == 3
    ensures SeatCount([s1, s2, s3, s4], 2, Some(className)) == 1
  {
    var c := Some(className);
    assert [] + [s1] == [s1] && [s1] + [s2] == [s1, s2] && [s1, s2] + [s3] == [s1, s2, s3]
        && [s1, s2, s3] + [s4] == [s1, s2, s3, s4];
    assert SeatCount([], 1, c) == 0 && SeatCount([], 2, c) == 0;
    SeatCountSnoc([], s1, 1, c);
    SeatCountSnoc([s1], s2, 1, c);
    SeatCountSnoc([s1, s2], s3, 1, c);
    SeatCountSnoc([s1, s2, s3], s4, 1, c);
    SeatCountSnoc([], s1, 2, c);
    SeatCountSnoc([s1], s2, 2, c);
    SeatCountSnoc([s1, s2], s3, 2, c);
    SeatCountSnoc([s1, s2, s3], s4, 2, c);
  }

  // ---- Seats of a train -----------------------------------------------

  /** Non-increasing by fare. */
  predicate FareDescending(s: seq<Seat>) {
    forall i, j :: 0 <= i < j < |s| ==> s[i].fare >= s[j].fare
  }

  /** A bound on every fare of `s` and on `x` bounds every fare of a permutation of both. */
  lemma FareBound(bound: int, x: Seat, s: seq<Seat>, r: seq<Seat>)
    requires x.fare <= bound
    requires forall i :: 0 <= i < |s| ==> s[i].fare <= bound
    requires multiset(r) == multiset(s) + multiset{x}
    ensures forall j :: 0 <= j < |r| ==> r[j].fare <= bound
  {
    forall j | 0 <= j < |r| ensures r[j].fare <= bound {
      assert r[j] in multiset(r);
      if r[j] != x {
        assert r[j] in multiset(s);
        var i :| 0 <= i < |s| && s[i] == r[j];
      }
    }
  }

  /** A seat whose fare bounds every fare of a fare-descending sequence can go in front. */
  lemma ConsFareDescending(x: Seat, r: seq<Seat>)
    requires FareDescending(r)
    requires forall j :: 0 <= j < |r| ==> r[j].fare <= x.fare
    ensures FareDescending([x] + r)
  {
    forall i, j | 0 <= i < j < |[x] + r| ensures ([x] + r)[i].fare >= ([x] + r)[j].fare {
      assert ([x] + r)[j] == r[j - 1];
      if i > 0 {
        assert ([x] + r)[i] == r[i - 1];
      }
    }
  }

  /** A selection from the tail of a fare-descending sequence, in order, can
      follow its head. */
  lemma PrependKeepsOrder(s: seq<Seat>, r: seq<Seat>)
    requires s != [] && multiset(r) <= multiset(s[1..])
    ensures FareDescending(s) && FareDescending(r) ==> FareDescending([s[0]] + r)
  {
    if FareDescending(s) && FareDescending(r) {
      forall j | 0 <= j < |r| ensures r[j].fare <= s[0].fare {
        assert r[j] in multiset(r);
        assert r[j] in s[1..];
        var k :| 0 <= k < |s[1..]| && s[1..][k] == r[j];
        assert s[k + 1] == r[j];
      }
      ConsFareDescending(s[0], r);
    }
  }

  function InsertByFare(x: Seat, s: seq<Seat>): (r: seq<Seat>)
    requires FareDescending(s)
    ensures FareDescending(r)
    ensures multiset(r) == multiset(s) + multiset{x}
  {
    if s == [] || s[0].fare <= x.fare then
      ConsFareDescending(x, s);
      [x] + s
    else
      var rest := InsertByFare(x, s[1..]);
      assert s == [s[0]] + s[1..];
      FareBound(s[0].fare, x, s[1..], rest);
      ConsFareDescending(s[0], rest);
      assert multiset([s[0]] + rest) == multiset{s[0]} + multiset(rest);
      [s[0]] + rest
  }

  /** `ORDER BY fare DESC`: seats ordered by fare, high to low. */
  function SortByFare(s: seq<Seat>): (r: seq<Seat>)
    ensures FareDescending(r)
    ensures multiset(r) == multiset(s)
  {
    if s == [] then []
    else
      assert s == [s[0]] + s[1..];
      InsertByFare(s[0], SortByFare(s[1..]))
  }

  /** The seats of one class, in the given order: each of them as often as
      it occurs in `s`. */
  function Bucket(s: seq<Seat>, className: string): (r: seq<Seat>)
    ensures forall x :: multiset(r)[x] == if SeatClassName(x.seatClass) == className then multiset(s)[x] else 0
    ensures FareDescending(s) ==> FareDescending(r)
  {
    if s == [] then []
    else
      var rest := Bucket(s[1..], className);
      BucketStep(s, className, rest);
      (if SeatClassName(s[0].seatClass) == className then [s[0]] else []) + rest
  }

  /** The group of `s` is the head, when of the class, before the group of the tail. */
  lemma BucketStep(s: seq<Seat>, className: string, rest: seq<Seat>)
    requires s != []
    requires forall x :: multiset(rest)[x] == if SeatClassName(x.seatClass) == className then multiset(s[1..])[x] else 0
    requires FareDescending(s[1..]) ==> FareDescending(rest)
    ensures var r := (if SeatClassName(s[0].seatClass) == className then [s[0]] else []) + rest;
      && (forall x :: multiset(r)[x] == if SeatClassName(x.seatClass) == className then multiset(s)[x] else 0)
      && (FareDescending(s) ==> FareDescending(r))
  {
    assert s == [s[0]] + s[1..];
    assert multiset(s) == multiset{s[0]} + multiset(s[1..]);
    assert multiset(rest) <= multiset(s[1..]);
    if FareDescending(s) {
      assert FareDescending(s[1..]) by {
        forall i, j | 0 <= i < j < |s[1..]| ensures s[1..][i].fare >= s[1..][j].fare {
          assert s[1..][i] == s[i + 1] && s[1..][j] == s[j + 1];
        }
      }
    }
    if SeatClassName(s[0].seatClass) == className {
      PrependKeepsOrder(s, rest);
      assert multiset([s[0]] + rest) == multiset{s[0]} + multiset(rest);
    }
  }

  /** The Available seats of a train, optionally of one class, in storage
      order: each of them as often as it is stored. */
  function OfferedSeats(ss: seq<Seat>, trainId: int, classFilter: Option<string>): (r: seq<Seat>)
    ensures forall x :: multiset(r)[x] == if AvailableOn(x, trainId, classFilter) then multiset(ss)[x] else 0
    ensures forall x :: x in r <==> x in ss && AvailableOn(x, trainId, classFilter)
  {
    if ss == [] then []
    else
      assert ss == [ss[0]] + ss[1..];
      (if AvailableOn(ss[0], trainId, classFilter) then [ss[0]] else [])
      + OfferedSeats(ss[1..], trainId, classFilter)
  }

  datatype SeatsByClass = SeatsByClass(trainId: int, seats: map<string, seq<Seat>>)

  const ClassNames: set<string> := {SeatClassName(First), SeatClassName(Business), SeatClassName(Standard)}

  /** `g` holds exactly the class-`name` seats of `s`, each as often as in
      `s`, and keeps a fare-descending input fare-descending. */
  ghost predicate GroupOf(s: seq<Seat>, name: string, g: seq<Seat>) {
    && (forall x: Seat :: multiset(g)[x] == if SeatClassName(x.seatClass) == name then multiset(s)[x] else 0)
    && (FareDescending(s) ==> FareDescending(g))
  }

  /** One group per class name, each holding that class's seats of `s`. */
  function GroupByClass(s: seq<Seat>): (m: map<string, seq<Seat>>)
    ensures m.Keys == ClassNames
    ensures forall name :: name in m ==> GroupOf(s, name, m[name])
  {
    var first, business, standard := SeatClassName(First), SeatClassName(Business), SeatClassName(Standard);
    assert GroupOf(s, first, Bucket(s, first));
    assert GroupOf(s, business, Bucket(s, business));
    assert GroupOf(s, standard, Bucket(s, standard));
    map[first := Bucket(s, first), business := Bucket(s, business), standard := Bucket(s, standard)]
  }

  /** The seat listing of a train: Available seats grouped by class, each
      group sorted by fare from high to low; a class filter keeps one group. */
  function GetTrainSeats(st: Store, trainId: int, seatClass: Option<string>): (r: Result<SeatsByClass>)
    ensures r.Err? ==> r.error == NotFound(NoSeatsFound)
    ensures r.Ok? ==> r.value.trainId == trainId
  {
    var classFilter := ActiveText(seatClass);
    var sorted := SortByFare(OfferedSeats(st.seats, trainId, classFilter));
    if sorted == [] then Err(NotFound(NoSeatsFound))
    else
      var grouped := GroupByClass(sorted);
      if classFilter.Some? then
        var c := classFilter.value;
        Ok(SeatsByClass(trainId, map[c := if c in grouped then grouped[c] else []]))
      else
        Ok(SeatsByClass(trainId, grouped))
  }

  /** The listing fails, with NotFound, exactly when the train has no
      Available seat (of the requested class, under a filter). */
  lemma GetTrainSeatsNotFound(st: Store, trainId: int, seatClass: Option<string>)
    ensures GetTrainSeats(st, trainId, seatClass).Err? <==>
      forall k :: 0 <= k < |st.seats| ==> !AvailableOn(st.seats[k], trainId, ActiveText(seatClass))
    ensures GetTrainSeats(st, trainId, seatClass).Err? ==>
      GetTrainSeats(st, trainId, seatClass).error == NotFound(NoSeatsFound)
  {
    var offered := OfferedSeats(st.seats, trainId, ActiveText(seatClass));
    var sorted := SortByFare(offered);
    if sorted == [] {
      assert multiset(offered) == multiset{};
      assert offered == [];
    } else {
      assert sorted[0] in multiset(offered);
      assert sorted[0] in offered;
    }
  }

  /** A successful listing is for the requested train and has exactly the
      requested class as key under a filter, and all three classes otherwise. */
  lemma GetTrainSeatsKeys(st: Store, trainId: int, seatClass: Option<string>)
    requires GetTrainSeats(st, trainId, seatClass).Ok?
    ensures GetTrainSeats(st, trainId, seatClass).value.trainId == trainId
    ensures GetTrainSeats(st, trainId, seatClass).value.seats.Keys ==
      if ActiveText(seatClass).Some? then {seatClass.value} else ClassNames
  {
  }

  /** Under a class filter a successful listing's only key is the filter's,
      and it holds that class's seats of the sorted offer. */
  lemma FilteredGroup(st: Store, trainId: int, seatClass: Option<string>, name: string)
    requires ActiveText(seatClass).Some?
    requires GetTrainSeats(st, trainId, seatClass).Ok? && name in GetTrainSeats(st, trainId, seatClass).value.seats
    ensures name == seatClass.value
    ensures GroupOf(SortByFare(OfferedSeats(st.seats, trainId, ActiveText(seatClass))), name,
                    GetTrainSeats(st, trainId, seatClass).value.seats[name])
  {
    var c := seatClass.value;
    var offered := OfferedSeats(st.seats, trainId, ActiveText(seatClass));
    var sorted := SortByFare(offered);
    assert sorted != [];
    assert sorted[0] in multiset(offered);
    assert AvailableOn(sorted[0], trainId, Some(c));
    assert c in ClassNames by {
      match sorted[0].seatClass
      case First =>
      case Business =>
      case Standard =>
    }
  }

  /** Every group of a successful listing holds exactly the train's Available
      seats of that class, each once per stored row, sorted by fare from high
      to low. */
  lemma GetTrainSeatsGroups(st: Store, trainId: int, seatClass: Option<string>, name: string)
    ensures var listing := GetTrainSeats(st, trainId, seatClass);
      listing.Ok? && name in listing.value.seats ==>
        var group := listing.value.seats[name];
        && FareDescending(group)
        && (forall x: Seat :: multiset(group)[x] ==
              if x.trainId == trainId && x.status == Available && SeatClassName(x.seatClass) == name
              then multiset(st.seats)[x] else 0)
        && forall x :: x in group <==>
             x in st.seats && x.trainId == trainId && x.status == Available && SeatClassName(x.seatClass) == name
  {
    var listing := GetTrainSeats(st, trainId, seatClass);
    if listing.Ok? && name in listing.value.seats {
      var classFilter := ActiveText(seatClass);
      var offered := OfferedSeats(st.seats, trainId, classFilter);
      var group := listing.value.seats[name];
      if classFilter.Some? {
        FilteredGroup(st, trainId, seatClass, name);
      }
      assert GroupOf(SortByFare(offered), name, group);
      forall x: Seat ensures multiset(group)[x] ==
          if x.trainId == trainId && x.status == Available && SeatClassName(x.seatClass) == name
          then multiset(st.seats)[x] else 0
      {
      }
      forall x: Seat ensures x in group <==>
          x in st.seats && x.trainId == trainId && x.status == Available && SeatClassName(x.seatClass) == name
      {
        assert x in group <==> multiset(group)[x] > 0;
        assert x in st.seats <==> multiset(st.seats)[x] > 0;
      }
    }
  }

  // ---- Single records -------------------------------------------------

  /** The seat with this id, or NotFound. */
  function GetSeat(st: Store, seatId: int): (r: Result<Seat>)
    ensures r.Ok? <==> seatId in SeatIds(st.seats)
    ensures r.Ok? ==> r.value in st.seats && r.value.seatId == seatId
    ensures r.Err? ==> r.error == NotFound(SeatNotFound)
  {
    match SeatIndex(st.seats, seatId)
    case None => Err(NotFound(SeatNotFound))
    case Some(k) => Ok(st.seats[k])
  }

  /** The train with this id, or NotFound. */
  function GetTrain(st: Store, trainId: int): (r: Result<Train>)
    ensures r.Ok? <==> trainId in TrainIds(st.trains)
    ensures r.Ok? ==> r.value in st.trains && r.value.trainId == trainId
    ensures r.Err? ==> r.error == NotFound(TrainNotFound)
  {
    match TrainIndex(st.trains, trainId)
    case None => Err(NotFound(TrainNotFound))
    case Some(k) => Ok(st.trains[k])
  }

  // ---- Reservations of a client ---------------------------------------

  predicate StatusMatches(r: Reservation, statusFilter: Option<string>) {
    statusFilter.Some? ==> ReservationStatusName(r.status) == statusFilter.value
  }

  /** The client's reservations, optionally of one status, in storage order:
      each of them as often as it is stored. */
  function ReservationsOf(rs: seq<Reservation>, clientId: int, statusFilter: Option<string>): (r: seq<Reservation>)
    ensures forall x :: multiset(r)[x]
                     == if x.clientId == clientId && StatusMatches(x, statusFilter) then multiset(rs)[x] else 0
    ensures forall x :: x in r <==> x in rs && x.clientId == clientId && StatusMatches(x, statusFilter)
  {
    if rs == [] then []
    else
      assert rs == [rs[0]] + rs[1..];
      (if rs[0].clientId == clientId && StatusMatches(rs[0], statusFilter) then [rs[0]] else [])
      + ReservationsOf(rs[1..], clientId, statusFilter)
  }

  /** The listing keeps storage order: the listing of two stretches of rows
      is the listing of the first followed by that of the second. */
  lemma {:induction false} ReservationsOfConcat(a: seq<Reservation>, b: seq<Reservation>, clientId: int,
                                                statusFilter: Option<string>)
    ensures ReservationsOf(a + b, clientId, statusFilter)
         == ReservationsOf(a, clientId, statusFilter) + ReservationsOf(b, clientId, statusFilter)
  {
    if a == [] {
      assert a + b == b;
    } else {
      var ab := a + b;
      var rest := a[1..] + b;
      assert ab[0] == a[0] && ab[1..] == rest;
      var head := if a[0].clientId == clientId && StatusMatches(a[0], statusFilter) then [a[0]] else [];
      var listed := ReservationsOf(rest, clientId, statusFilter);
      assert ReservationsOf(ab, clientId, statusFilter) == head + listed;
      ReservationsOfConcat(a[1..], b, clientId, statusFilter);
      var ra, rb := ReservationsOf(a[1..], clientId, statusFilter), ReservationsOf(b, clientId, statusFilter);
      ConcatAssoc(head, ra, rb);
    }
  }

  lemma ConcatAssoc<T>(x: seq<T>, y: seq<T>, z: seq<T>)
    ensures x + (y + z) == (x + y) + z
  {
  }

  /** The train of the seat with this id, or None when no such seat is stored. */
  function TrainOfSeat(ss: seq<Seat>, seatId: int): (r: Option<int>)
    ensures r.None? <==> seatId !in SeatIds(ss)
    ensures r.Some? ==> exists k :: 0 <= k < |ss| && ss[k].seatId == seatId && ss[k].trainId == r.value
  {
    match SeatIndex(ss, seatId)
    case None => None
    case Some(k) => Some(ss[k].trainId)
  }

  /** One entry of a client's reservation listing. */
  datatype ReservationView = ReservationView(
    reservationId: int,
    seatId: int,
    trainId: Option<int>,
    ticketType: TicketType,
    status: ReservationStatus)

  /** The listing entry of a reservation: its own columns and the train of
      its seat, or None when that seat is not stored. */
  function View(r: Reservation, ss: seq<Seat>): (v: ReservationView)
    ensures && v.reservationId == r.reservationId && v.seatId == r.seatId
            && v.ticketType == r.ticketType && v.status == r.status
    ensures v.trainId.None? <==> r.seatId !in SeatIds(ss)
    ensures v.trainId.Some? ==> exists k :: 0 <= k < |ss| && ss[k].seatId == r.seatId && ss[k].trainId == v.trainId.value
  {
    ReservationView(r.reservationId, r.seatId, TrainOfSeat(ss, r.seatId), r.ticketType, r.status)
  }

  /** In a well-formed store every listed reservation has the train of its
      (unique) seat. */
  lemma ViewHasTrain(st: Store, j: nat)
    requires WellFormed(st) && j < |st.reservations|
    ensures View(st.reservations[j], st.seats).trainId.Some?
    ensures forall k :: 0 <= k < |st.seats| && st.seats[k].seatId == st.reservations[j].seatId ==>
      View(st.reservations[j], st.seats).trainId == Some(st.seats[k].trainId)
  {
    assert st.reservations[j].seatId in SeatIds(st.seats);
    forall k | 0 <= k < |st.seats| && st.seats[k].seatId == st.reservations[j].seatId
      ensures TrainOfSeat(st.seats, st.reservations[j].seatId) == Some(st.seats[k].trainId)
    {
      TrainOfUniqueSeat(st.seats, k);
    }
  }

  /** Under unique seat keys a seat's id leads back to that seat's train. */
  lemma TrainOfUniqueSeat(ss: seq<Seat>, i: nat)
    requires Distinct(SeatIds(ss)) && i < |ss|
    ensures TrainOfSeat(ss, ss[i].seatId) == Some(ss[i].trainId)
  {
    assert SeatIds(ss)[i] == ss[i].seatId;
    var t := TrainOfSeat(ss, ss[i].seatId);
    var k :| 0 <= k < |ss| && ss[k].seatId == ss[i].seatId && ss[k].trainId == t.value;
    assert SeatIds(ss)[k] == SeatIds(ss)[i];
  }
}
