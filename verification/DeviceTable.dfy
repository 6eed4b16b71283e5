/** The fixed table that gives every measured device its own history. */
module DeviceTable {
  import opened Grouping
  import opened History

  const FREE := -1

  /** One slot: a device id, or FREE, and the buffers of the device. */
  datatype IdData = IdData(deviceId: int, data: DeviceData)

  /** What a slot stands for: the id and all samples ever added under it. */
  datatype Row = Row(deviceId: int, history: seq<Sample>)

  // ---- as a map ----

  ghost predicate Distinct(rows: seq<Row>) {
    forall i, j :: 0 <= i < j < |rows| && rows[i].deviceId == rows[j].deviceId ==> rows[i].deviceId == FREE
  }

  ghost predicate Holds(rows: seq<Row>, id: int) {
    exists i :: 0 <= i < |rows| && rows[i].deviceId == id
  }

  /** The table as a map from device to history. */
  ghost function Histories(rows: seq<Row>): map<int, seq<Sample>>
    requires Distinct(rows)
  {
    map i | 0 <= i < |rows| && rows[i].deviceId != FREE :: rows[i].deviceId := rows[i].history
  }

  ghost function HistoryOf(rows: seq<Row>, id: int): seq<Sample>
    requires Distinct(rows)
  {
    if id in Histories(rows) then Histories(rows)[id] else []
  }

  /** Changing one row is an update of the map. */
  lemma HistoriesUpdate(before: seq<Row>, k: nat, row: Row)
    requires Distinct(before) && row.deviceId != FREE && k < |before|
    requires before[k].deviceId == row.deviceId || (before[k].deviceId == FREE && !Holds(before, row.deviceId))
    ensures Distinct(before[k := row])
    ensures Histories(before[k := row]) == Histories(before)[row.deviceId := row.history]
    ensures HistoryOf(before, row.deviceId) == if before[k].deviceId == FREE then [] else before[k].history
  {
    var after := before[k := row];
    StaysDistinct(before, k, row);
    var a, b := Histories(after), Histories(before)[row.deviceId := row.history];
    forall d ensures d in a <==> d in b {
      HeldUpdate(before, k, row, d);
    }
    forall d | d in a ensures a[d] == b[d] {
      var i :| 0 <= i < |after| && after[i].deviceId == d && d != FREE;
    }
    RowsHold(before, row.deviceId);
  }

  lemma StaysDistinct(before: seq<Row>, k: nat, row: Row)
    requires Distinct(before) && row.deviceId != FREE && k < |before|
    requires before[k].deviceId == row.deviceId || (before[k].deviceId == FREE && !Holds(before, row.deviceId))
    ensures Distinct(before[k := row])
  {
  }

  lemma HeldUpdate(before: seq<Row>, k: nat, row: Row, id: int)
    requires Distinct(before) && row.deviceId != FREE && k < |before|
    requires before[k].deviceId == row.deviceId || before[k].deviceId == FREE
    requires Distinct(before[k := row])
    ensures id in Histories(before[k := row]) <==> id in Histories(before) || id == row.deviceId
  {
    RowsHold(before, id);
    RowsHold(before[k := row], id);
    if id != FREE {
      HoldsUpdate(before, k, row, id);
    }
  }

  lemma RowsHold(rows: seq<Row>, id: int)
    requires Distinct(rows)
    ensures id in Histories(rows) <==> id != FREE && Holds(rows, id)
  {
  }

  lemma HoldsUpdate(before: seq<Row>, k: nat, row: Row, id: int)
    requires k < |before| && (before[k].deviceId == row.deviceId || before[k].deviceId == FREE) && id != FREE
    ensures Holds(before[k := row], id) <==> Holds(before, id) || id == row.deviceId
  {
    var after := before[k := row];
    assert after[k] == row;
    if i :| 0 <= i < |before| && before[i].deviceId == id && i != k {
      assert after[i] == before[i];
    }
  }

  // ---- in memory ----

  /** Intact empty histories that share nothing. */
  ghost predicate AllEmpty(data: seq<DeviceData>, owned: set<object>)
    reads owned
  {
    && (forall i :: 0 <= i < |data| ==> data[i] in owned && data[i].Repr <= owned)
    && (forall i :: 0 <= i < |data| ==> EmptyData(data[i], owned))
    && (forall i, j :: 0 <= i < j < |data| ==> data[i].Repr !! data[j].Repr)
  }

  ghost predicate EmptyData(data: DeviceData, owned: set<object>)
    requires data in owned && data.Repr <= owned
    reads owned
  {
    data in data.Repr && data.Valid() && data.history == []
  }

  method EmptyHistories(n: nat) returns (data: seq<DeviceData>, ghost owned: set<object>)
    ensures |data| == n && fresh(owned) && AllEmpty(data, owned)
  {
    data, owned := [], {};
    for k := 0 to n
      invariant |data| == k && fresh(owned) && AllEmpty(data, owned)
    {
      var next := new DeviceData();
      Joins(data, owned, next);
      data, owned := data + [next], owned + next.Repr;
    }
  }

  lemma Joins(data: seq<DeviceData>, owned: set<object>, next: DeviceData)
    requires AllEmpty(data, owned) && next.Valid() && next.history == [] && next.Repr !! owned
    ensures AllEmpty(data + [next], owned + next.Repr)
  {
    var more, all := data + [next], owned + next.Repr;
    forall i | 0 <= i < |more| ensures more[i] in all && more[i].Repr <= all && EmptyData(more[i], all) {
      if i < |data| {
        assert EmptyData(data[i], owned);
      }
    }
  }

  class Table {
    const slots: array<IdData>
    ghost var rows: seq<Row>
    ghost var Repr: set<object>

    /** Slot `i` has intact buffers of its own, and they hold what its row says. */
    ghost predicate Slot(i: nat)
      requires i < slots.Length && i < |rows|
      reads this, slots, slots[i].data, slots[i].data.Repr
    {
      slots[i].data.Valid() && rows[i] == Row(slots[i].deviceId, slots[i].data.history)
    }

    ghost predicate Apart()
      reads this, slots
    {
      && {this, slots} <= Repr
      && (forall i :: 0 <= i < slots.Length ==> slots[i].data in slots[i].data.Repr && slots[i].data.Repr <= Repr)
      && (forall i :: 0 <= i < slots.Length ==> this !in slots[i].data.Repr && slots !in slots[i].data.Repr)
      && (forall i, j :: 0 <= i < j < slots.Length ==> slots[i].data.Repr !! slots[j].data.Repr)
    }

    ghost predicate Intact()
      reads this, Repr
    {
      slots in Repr && Apart() && |rows| == slots.Length && forall i :: 0 <= i < slots.Length ==> Slot(i)
    }

    ghost predicate Valid()
      reads this, Repr
    {
      Intact() && Distinct(rows)
    }

    /** All slots are free. */
    constructor (n: nat)
      ensures Valid() && fresh(Repr) && slots.Length == n
      ensures Histories(rows) == map[]
    {
      var data, owned := EmptyHistories(n);
      slots := new IdData[n](i requires 0 <= i < n => IdData(FREE, data[i]));
      rows := seq(n, _ => Row(FREE, []));
      new;
      Repr := {this, slots} + owned;
      forall i | 0 <= i < n ensures slots[i].data == data[i] && Slot(i) {
        assert EmptyData(data[i], owned);
      }
    }

    /** The first slot with the given id, or the number of slots. */
    method Find(id: int) returns (k: nat)
      requires Intact()
      ensures k <= slots.Length
      ensures if k < slots.Length then rows[k].deviceId == id else !Holds(rows, id)
      ensures forall i :: 0 <= i < k ==> rows[i].deviceId != id
    {
      k := 0;
      while k < slots.Length && slots[k].deviceId != id
        invariant k <= slots.Length && forall i :: 0 <= i < k ==> rows[i].deviceId != id
      {
        assert Slot(k);
        k := k + 1;
      }
      assert k < slots.Length ==> Slot(k);
    }

    /** A slot whose buffers and row are left alone stays as it is. */
    twostate lemma SlotStays(i: nat)
      requires i < slots.Length && i < |rows| == |old(rows)| && old(Slot(i))
      requires slots[i] == old(slots[i]) && rows[i] == old(rows[i]) && unchanged(slots[i].data.Repr)
      requires slots[i].data in slots[i].data.Repr
      ensures Slot(i)
    {
    }

    /** Adds a sample to the buffers of one slot; the other slots keep theirs. */
    method AddTo(k: nat, value: real, time: nat)
      requires Intact() && k < slots.Length && time < 0x1_0000_0000
      modifies slots[k].data.Repr, `rows
      ensures Intact()
      ensures rows == old(rows)[k := Row(old(rows[k].deviceId), old(rows[k].history) + [Sample(value, time)])]
    {
      assert Slot(k);
      slots[k].data.AddData(value, time);
      assert Apart();
      rows := rows[k := Row(rows[k].deviceId, rows[k].history + [Sample(value, time)])];
      assert Slot(k);
      forall i | 0 <= i < slots.Length && i != k ensures Slot(i) {
        assert old(Slot(i));
        SlotStays(i);
      }
    }

    twostate lemma OthersStay(k: nat)
      requires old(Intact()) && |rows| == slots.Length && unchanged(old(Repr) - {this, slots})
      requires forall i :: 0 <= i < slots.Length && i != k ==> slots[i] == old(slots[i]) && rows[i] == old(rows[i])
      ensures forall i :: 0 <= i < slots.Length && i != k ==> Slot(i)
    {
      forall i | 0 <= i < slots.Length && i != k ensures Slot(i) {
        assert old(Slot(i));
        SlotStays(i);
      }
    }

    /** Gives a slot to a new device, with an empty history. */
    method TakeOver(k: nat, id: int)
      requires Intact() && k < slots.Length
      modifies this, slots
      ensures Intact() && fresh(Repr - old(Repr)) && fresh(slots[k].data.Repr)
      ensures rows == old(rows)[k := Row(id, [])]
    {
      var data := new DeviceData();
      slots[k] := IdData(id, data);
      rows := rows[k := Row(id, [])];
      Repr := Repr + data.Repr;
      assert Slot(k) && Apart();
      OthersStay(k);
    }

    /** Adds a sample under `id`, taking over the first free slot for a new device and dropping the sample when
        the table is full. Every other device keeps its history. */
    method Write(id: int, value: real, time: nat)
      requires Valid() && id != FREE && time < 0x1_0000_0000
      modifies Repr
      ensures Valid() && fresh(Repr - old(Repr))
      ensures var before := old(rows);
              if Holds(before, id) || Holds(before, FREE) then
                Histories(rows) == Histories(before)[id := HistoryOf(before, id) + [Sample(value, time)]]
              else rows == before
    {
      ghost var before := rows;
      var k := Find(id);
      if k == slots.Length {
        k := Find(FREE);
        if k == slots.Length {
          return;
        }
        TakeOver(k, id);
      }
      ghost var row := Row(id, HistoryOf(before, id) + [Sample(value, time)]);
      HistoriesUpdate(before, k, row);
      AddTo(k, value, time);
      assert rows == before[k := row];
    }
  }
}
