/** Rows and per-station tables of the flask ledger, and the pure operations
    on them: list lookup, the row built for a shipment, membership in the low
    column and the filter that drops a low id. */
module Ledger {

  /** One shipment slot of a station's table: a flask pair out at the
      station. Every field is text, as in the persisted tables. */
  datatype Row = Row(low: string, high: string, outdate: string, notes: string, returned: string)

  /** A station's ledger: its rows in shipment order. */
  type Table = seq<Row>

  /** `s.index(x)`: the position of the first occurrence of `x` in `s`. */
  function FirstIndex(s: seq<string>, x: string): (i: nat)
    requires x in s
    ensures i < |s| && s[i] == x
    ensures forall j | 0 <= j < i :: s[j] != x
  {
    if s[0] == x then 0 else 1 + FirstIndex(s[1..], x)
  }

  /** The row that `new_da(name, [low], [date], [high], notes=[notes])`
      builds for a shipment: whatever is given is stored, and the pair is
      recorded as not yet returned. */
  function NewEntry(low: string, date: string, high: string, notes: string): (r: Row)
    ensures r.low == low && r.high == high && r.outdate == date && r.notes == notes
    ensures r.returned == "False"
  {
    Row(low, high, date, notes, "False")
  }

  /** `t.sel(dt='low')`: the low ids of `t`, one per row, in row order. */
  function LowColumn(t: Table): (c: seq<string>)
    ensures |c| == |t|
    ensures forall x :: x in c <==> HasLow(t, x)
  {
    var c := seq(|t|, k requires 0 <= k < |t| => t[k].low);
    assert forall k | 0 <= k < |t| :: c[k] == t[k].low;
    c
  }

  /** `x in t.sel(dt='low')`: some row of `t` has low id `x`. */
  predicate HasLow(t: Table, x: string)
  {
    exists k | 0 <= k < |t| :: t[k].low == x
  }

  /** `t.where(t.sel(dt='low') != x, drop=True)`: the rows of `t` whose low
      id is not `x`, in their original order. */
  function WithoutLow(t: Table, x: string): (r: Table)
    ensures |r| <= |t|
    ensures forall k | 0 <= k < |r| :: r[k].low != x
    ensures forall row :: row in r <==> row in t && row.low != x
    ensures |r| == |t| <==> !HasLow(t, x)
  {
    if t == [] then []
    else if t[0].low == x then WithoutLow(t[1..], x)
    else [t[0]] + WithoutLow(t[1..], x)
  }

  /** Filtering distributes over concatenation: rows are neither reordered
      nor moved across the boundary, so relative order is kept. */
  lemma {:induction false} WithoutLowConcat(a: Table, b: Table, x: string)
    ensures WithoutLow(a + b, x) == WithoutLow(a, x) + WithoutLow(b, x)
  {
    if a == [] {
      assert a + b == b;
    } else {
      assert (a + b)[0] == a[0];
      assert (a + b)[1..] == a[1..] + b;
      WithoutLowConcat(a[1..], b, x);
    }
  }

  /** Filtering out an id that no row carries returns the table itself. */
  lemma {:induction false} WithoutAbsentLow(t: Table, x: string)
    requires !HasLow(t, x)
    ensures WithoutLow(t, x) == t
  {
    if t != [] {
      assert !HasLow(t[1..], x) by {
        forall k | 0 <= k < |t[1..]| ensures t[1..][k].low != x {
          assert t[1..][k] == t[k + 1];
        }
      }
      WithoutAbsentLow(t[1..], x);
      assert [t[0]] + t[1..] == t;
    }
  }

  /** Appending a row whose id the table does not yet hold, then filtering
      that id out, gives back the table exactly. */
  lemma {:induction false} ReceiveUndoesShip(t: Table, row: Row)
    requires !HasLow(t, row.low)
    ensures WithoutLow(t + [row], row.low) == t
  {
    WithoutLowConcat(t, [row], row.low);
    WithoutAbsentLow(t, row.low);
    assert WithoutLow([row], row.low) == [];
  }

  /** Filtering twice by the same id is the same as filtering once. */
  lemma {:induction false} WithoutLowIdempotent(t: Table, x: string)
    ensures WithoutLow(WithoutLow(t, x), x) == WithoutLow(t, x)
  {
    var r := WithoutLow(t, x);
    assert !HasLow(r, x) by {
      forall k | 0 <= k < |r| ensures r[k].low != x { }
    }
    WithoutAbsentLow(r, x);
  }
}
