/** The station ledger set (`dalist`): one ledger per configured station,
    a load-time snapshot used for duplicate detection, and the ship,
    receive, search and overview operations. */
module FlaskTracker {
  import opened Ledger
  import opened Report

  /** One line of the overview report: station, pair count as printed, the
      oldest and newest shipment (low id and date) and the flag string. */
  datatype Line = Line(station: string, pairs: string,
                       oldestFlask: string, oldestDay: string,
                       newestFlask: string, newestDay: string,
                       flag: string)

  const NotApplicable: string := " n/a "

  /** What the overview line of a station says about its table `t`, when the
      variable `weeks` holds `weeks` at the flag test: the count as padded
      text, the first row as oldest, the last row as newest, and the flags. */
  predicate Summarises(line: Line, station: string, t: Table, weeks: real)
  {
    && line.station == station
    && line.pairs == PProcess(|t|)
    && line.flag == StationFlag(|t|, weeks)
    && (|t| > 0 ==>
          && line.oldestFlask == t[0].low && line.oldestDay == t[0].outdate
          && line.newestFlask == t[|t| - 1].low && line.newestDay == t[|t| - 1].outdate)
    && (|t| == 0 ==>
          && line.oldestFlask == NotApplicable && line.oldestDay == NotApplicable
          && line.newestFlask == NotApplicable && line.newestDay == NotApplicable)
  }

  /** The body of `overview`'s loop for one station: the report line of
      table `t`, building the flag string piece by piece. */
  method Summarise(station: string, t: Table, weeks: real) returns (line: Line)
    ensures Summarises(line, station, t, weeks)
  {
    var n := |t|;
    var oldestFlask, oldestDay, newestFlask, newestDay, flag;
    if n > 0 {
      oldestFlask, oldestDay := t[0].low, t[0].outdate;
      newestFlask, newestDay := t[n - 1].low, t[n - 1].outdate;
      flag := " ";
    } else {
      oldestFlask, oldestDay := NotApplicable, NotApplicable;
      newestFlask, newestDay := NotApplicable, NotApplicable;
      flag := NoFlasks;
    }
    if n < 3 {
      flag := flag + Under3;
    }
    if (n as real) < weeks {
      flag := flag + Overdue;
    }
    line := Line(station, PProcess(n), oldestFlask, oldestDay, newestFlask, newestDay, flag);
  }

  class DaList {
    /** The configured station names, in order. */
    const locs: seq<string>
    /** The ledgers as loaded; `ship` and `receive` never change it. */
    const original: seq<Table>
    /** The live ledgers, one per station, in the order of `locs`. */
    var ledgers: seq<Table>

    ghost predicate Valid()
      reads this
    {
      |ledgers| == |locs| && |original| == |locs|
    }

    /** Construction from the ledgers read at load time; the snapshot is
        taken of exactly those ledgers. */
    constructor (locs: seq<string>, loaded: seq<Table>)
      requires |loaded| == |locs|
      ensures Valid()
      ensures this.locs == locs && ledgers == loaded && original == loaded
    {
      this.locs := locs;
      original := loaded;
      ledgers := loaded;
    }

    /** `index`: the position of the first station called `name`. */
    function Index(name: string): (i: nat)
      requires name in locs
      ensures i < |locs| && locs[i] == name
      ensures forall j | 0 <= j < i :: locs[j] != name
    {
      FirstIndex(locs, name)
    }

    /** `ship`: record that the pair with low id `low` went out to station
        `name`. It is refused when the id is in the station's load-time
        snapshot; otherwise one new row is appended to the live ledger. */
    method Ship(name: string, low: string, date: string, high: string, notes: string)
      returns (shipped: bool)
      requires Valid() && name in locs
      modifies this
      ensures Valid()
      ensures shipped <==> !HasLow(original[Index(name)], low)
      ensures shipped ==> ledgers == old(ledgers)[Index(name) :=
                                       old(ledgers)[Index(name)] + [NewEntry(low, date, high, notes)]]
      ensures !shipped ==> ledgers == old(ledgers)
    {
      var i := Index(name);
      var snapshot := original[i];
      var k := 0;
      while k < |snapshot|
        invariant 0 <= k <= |snapshot|
        invariant forall j | 0 <= j < k :: snapshot[j].low != low
      {
        if low == snapshot[k].low {
          shipped := false;
          return;
        }
        k := k + 1;
      }
      ledgers := ledgers[i := ledgers[i] + [NewEntry(low, date, high, notes)]];
      shipped := true;
    }

    /** `receive`: record that the pair with low id `low` came back from
        station `name`. It is refused when no live row carries the id;
        otherwise every row carrying it is dropped and the rest keep their
        order. */
    method Receive(name: string, low: string) returns (received: bool)
      requires Valid() && name in locs
      modifies this
      ensures Valid()
      ensures received <==> HasLow(old(ledgers)[Index(name)], low)
      ensures received ==> ledgers == old(ledgers)[Index(name) :=
                                        WithoutLow(old(ledgers)[Index(name)], low)]
      ensures !received ==> ledgers == old(ledgers)
    {
      var i := Index(name);
      var t := ledgers[i];
      if !HasLow(t, low) {
        received := false;
        return;
      }
      ledgers := ledgers[i := WithoutLow(t, low)];
      received := true;
    }

    /** `search_all_stations`: the stations, in configured order, whose live
        ledger holds a row with low id `n`; these are the ledgers printed. */
    method SearchAllStations(n: string) returns (hits: seq<nat>)
      ensures forall k | 0 <= k < |hits| :: hits[k] < |ledgers| && HasLow(ledgers[hits[k]], n)
      ensures forall i | 0 <= i < |ledgers| && HasLow(ledgers[i], n) :: i in hits
      ensures forall k, l | 0 <= k < l < |hits| :: hits[k] < hits[l]
    {
      hits := [];
      for i := 0 to |ledgers|
        invariant forall k | 0 <= k < |hits| :: hits[k] < i && HasLow(ledgers[hits[k]], n)
        invariant forall j | 0 <= j < i && HasLow(ledgers[j], n) :: j in hits
        invariant forall k, l | 0 <= k < l < |hits| :: hits[k] < hits[l]
      {
        if HasLow(ledgers[i], n) {
          hits := hits + [i];
        }
      }
    }

    /** `overview`: one line per station, in order. `weeks[i]` is the value
        the variable `weeks` holds when station `i`'s flag is tested. */
    method Overview(weeks: seq<real>) returns (lines: seq<Line>)
      requires Valid() && |weeks| == |ledgers|
      ensures |lines| == |ledgers|
      ensures forall i | 0 <= i < |lines| :: Summarises(lines[i], locs[i], ledgers[i], weeks[i])
    {
      lines := [];
      for i := 0 to |ledgers|
        invariant |lines| == i
        invariant forall j | 0 <= j < i :: Summarises(lines[j], locs[j], ledgers[j], weeks[j])
      {
        var line := Summarise(locs[i], ledgers[i], weeks[i]);
        lines := lines + [line];
      }
    }

    /** Shipping an id that is neither in the snapshot nor live at the
        station, then receiving it, leaves every ledger as it was. */
    method ShipThenReceive(name: string, low: string, date: string, high: string, notes: string)
      returns (shipped: bool, received: bool)
      requires Valid() && name in locs
      requires !HasLow(original[Index(name)], low) && !HasLow(ledgers[Index(name)], low)
      modifies this
      ensures Valid()
      ensures shipped && received
      ensures ledgers == old(ledgers)
    {
      var i := Index(name);
      ghost var before := ledgers;
      shipped := Ship(name, low, date, high, notes);
      ReceiveUndoesShip(before[i], NewEntry(low, date, high, notes));
      assert HasLow(ledgers[i], low) by {
        assert ledgers[i][|ledgers[i]| - 1].low == low;
      }
      received := Receive(name, low);
      assert ledgers == before;
    }

    /** The duplicate test reads only the snapshot: an id it does not hold
        is accepted twice in a row, leaving two rows with that id. */
    method ShipTwice(name: string, low: string, date: string, high: string, notes: string)
      returns (first: bool, second: bool)
      requires Valid() && name in locs
      requires !HasLow(original[Index(name)], low)
      modifies this
      ensures Valid()
      ensures first && second
      ensures ledgers == old(ledgers)[Index(name) := old(ledgers)[Index(name)]
                                        + [NewEntry(low, date, high, notes), NewEntry(low, date, high, notes)]]
    {
      var i := Index(name);
      var e := NewEntry(low, date, high, notes);
      first := Ship(name, low, date, high, notes);
      second := Ship(name, low, date, high, notes);
      assert old(ledgers)[i] + [e] + [e] == old(ledgers)[i] + [e, e];
    }

    /** An id in the snapshot stays unshippable, even once it has been
        received and is no longer live. */
    method ReceiveThenShipSnapshotId(name: string, low: string, date: string, high: string, notes: string)
      returns (received: bool, shipped: bool)
      requires Valid() && name in locs
      requires HasLow(original[Index(name)], low)
      modifies this
      ensures Valid()
      ensures received <==> HasLow(old(ledgers)[Index(name)], low)
      ensures !shipped
      ensures !HasLow(ledgers[Index(name)], low)
      ensures ledgers == if received then old(ledgers)[Index(name) := WithoutLow(old(ledgers)[Index(name)], low)]
                         else old(ledgers)
    {
      received := Receive(name, low);
      var i := Index(name);
      assert !HasLow(ledgers[i], low) by {
        if received {
          var r := ledgers[i];
          forall k | 0 <= k < |r| ensures r[k].low != low { }
        }
      }
      shipped := Ship(name, low, date, high, notes);
    }
  }

  /** A one-station session on an empty ledger: a second shipment of the
      same id is accepted, and one receive removes both rows. */
  method OneStationSession()
  {
    var d := new DaList(["STN"], [[]]);
    assert d.Index("STN") == 0;
    var e := NewEntry("101", "2023-01-01", "", "");
    assert !HasLow([], "101");
    var s1 := d.Ship("STN", "101", "2023-01-01", "", "");
    assert [] + [e] == [e];
    assert s1 && d.ledgers == [[e]];
    var s2 := d.Ship("STN", "101", "2023-01-01", "", "");
    assert [e] + [e] == [e, e];
    assert s2 && d.ledgers == [[e, e]];
    assert HasLow(d.ledgers[0], "101") by {
      assert d.ledgers[0][0].low == "101";
    }
    var r1 := d.Receive("STN", "101");
    assert r1 && d.ledgers == [[]];
    var r2 := d.Receive("STN", "101");
    assert !r2 && d.ledgers == [[]];
    var lines := d.Overview([0.0]);
    assert lines[0].pairs == "0";
  }
}
