/**
 * The `fingerprints` table both drivers share: an auto-increment `id`,
 * a `name` and a UNIQUE `template_position` (the device slot).  The
 * database engine itself is not modelled; an insert may fail either
 * because the slot is taken or because of an outside fault, which the
 * caller passes in.
 */
module Store {
  import opened Wrappers

  datatype Entry = Entry(id: int, name: string, slot: int)

  /** The rows in insertion order and the next auto-increment id. */
  datatype Table = Table(rows: seq<Entry>, nextId: int)

  const Empty := Table([], 1)

  predicate Valid(t: Table)
  {
    && 1 <= t.nextId
    && (forall i | 0 <= i < |t.rows| :: 1 <= t.rows[i].id < t.nextId)
    && Ordered(t.rows)
  }

  /** Ids increase in insertion order and no two rows share a slot. */
  predicate Ordered(rows: seq<Entry>)
  {
    forall i, j | 0 <= i < j < |rows| :: rows[i].id < rows[j].id && rows[i].slot != rows[j].slot
  }

  predicate SlotTaken(t: Table, slot: int)
  {
    exists i | 0 <= i < |t.rows| :: t.rows[i].slot == slot
  }

  predicate HasId(t: Table, id: int)
  {
    exists i | 0 <= i < |t.rows| :: t.rows[i].id == id
  }

  /** `SELECT name FROM fingerprints WHERE template_position = ?` with `fetchone`. */
  function NameAt(rows: seq<Entry>, slot: int): Option<string>
  {
    if rows == [] then None
    else if rows[0].slot == slot then Some(rows[0].name)
    else NameAt(rows[1..], slot)
  }

  /** `SELECT name, template_position FROM fingerprints WHERE id = ?` with `fetchone`. */
  function RowById(rows: seq<Entry>, id: int): Option<Entry>
  {
    if rows == [] then None
    else if rows[0].id == id then Some(rows[0])
    else RowById(rows[1..], id)
  }

  /** `DELETE FROM fingerprints WHERE id = ?`. */
  function DeleteById(t: Table, id: int): Table
  {
    Table(Without(t.rows, id), t.nextId)
  }

  function Without(rows: seq<Entry>, id: int): seq<Entry>
  {
    if rows == [] then []
    else if rows[0].id == id then Without(rows[1..], id)
    else [rows[0]] + Without(rows[1..], id)
  }

  /**
   * `INSERT INTO fingerprints (name, template_position) VALUES (?, ?)`:
   * refused on a taken slot (the UNIQUE constraint) or on an outside
   * fault; otherwise the row gets the next id.
   */
  function Insert(t: Table, name: string, slot: int, fault: bool): (r: Option<Table>)
    ensures r.None? <==> fault || SlotTaken(t, slot)
  {
    if fault || SlotTaken(t, slot) then None
    else Some(Table(t.rows + [Entry(t.nextId, name, slot)], t.nextId + 1))
  }

  /** A name is found for a slot exactly when some row holds that slot. */
  lemma {:induction false} NameAtFound(rows: seq<Entry>, slot: int)
    ensures NameAt(rows, slot).Some? <==> exists i | 0 <= i < |rows| :: rows[i].slot == slot
    ensures NameAt(rows, slot).Some? ==>
      exists i | 0 <= i < |rows| :: rows[i].slot == slot && rows[i].name == NameAt(rows, slot).value
  {
    if rows != [] {
      NameAtFound(rows[1..], slot);
      if rows[0].slot != slot {
        assert forall i | 1 <= i < |rows| :: rows[i] == rows[1..][i - 1];
        if exists i | 0 <= i < |rows| :: rows[i].slot == slot {
          var i :| 0 <= i < |rows| && rows[i].slot == slot;
          assert rows[1..][i - 1].slot == slot;
        }
      }
    }
  }

  lemma {:induction false} NameAtAppend(rows: seq<Entry>, e: Entry, slot: int)
    ensures NameAt(rows + [e], slot) ==
      if NameAt(rows, slot).Some? then NameAt(rows, slot)
      else if e.slot == slot then Some(e.name) else None
  {
    if rows != [] {
      assert (rows + [e])[1..] == rows[1..] + [e];
      NameAtAppend(rows[1..], e, slot);
    }
  }

  lemma {:induction false} NameAtMissing(rows: seq<Entry>, slot: int)
    requires forall i | 0 <= i < |rows| :: rows[i].slot != slot
    ensures NameAt(rows, slot) == None
  {
    if rows != [] {
      NameAtMissing(rows[1..], slot);
    }
  }

  /**
   * After a successful insert the table is still valid, the new slot
   * names the inserted finger, and every other slot answers as before.
   */
  lemma InsertThenLookup(t: Table, name: string, slot: int, s: int)
    requires Valid(t) && Insert(t, name, slot, false).Some?
    ensures var t' := Insert(t, name, slot, false).value;
      && Valid(t')
      && NameAt(t'.rows, slot) == Some(name)
      && (s != slot ==> NameAt(t'.rows, s) == NameAt(t.rows, s))
      && |t'.rows| == |t.rows| + 1
  {
    var e := Entry(t.nextId, name, slot);
    NameAtAppend(t.rows, e, slot);
    NameAtAppend(t.rows, e, s);
    NameAtMissing(t.rows, slot);
  }

  lemma {:induction false} RowByIdFound(rows: seq<Entry>, id: int)
    ensures RowById(rows, id).Some? <==> exists i | 0 <= i < |rows| :: rows[i].id == id
    ensures RowById(rows, id).Some? ==> RowById(rows, id).value in rows && RowById(rows, id).value.id == id
  {
    if rows != [] {
      RowByIdFound(rows[1..], id);
      if rows[0].id != id {
        if exists i | 0 <= i < |rows| :: rows[i].id == id {
          var i :| 0 <= i < |rows| && rows[i].id == id;
          assert rows[1..][i - 1].id == id;
        }
      }
    }
  }

  lemma {:induction false} WithoutSpec(rows: seq<Entry>, id: int)
    ensures forall e | e in Without(rows, id) :: e in rows && e.id != id
    ensures forall e | e in rows && e.id != id :: e in Without(rows, id)
  {
    if rows != [] {
      WithoutSpec(rows[1..], id);
      assert forall e | e in rows :: e == rows[0] || e in rows[1..];
    }
  }

  lemma {:induction false} WithoutKeepsOrder(rows: seq<Entry>, id: int)
    requires Ordered(rows)
    ensures Ordered(Without(rows, id))
    ensures forall e | e in Without(rows, id) :: e in rows
  {
    if rows != [] {
      OrderedTail(rows);
      WithoutKeepsOrder(rows[1..], id);
      WithoutSpec(rows[1..], id);
      if rows[0].id != id {
        var tail := Without(rows[1..], id);
        HeadBelowRest(rows);
        ConsOrdered(rows[0], tail);
        assert Without(rows, id) == [rows[0]] + tail;
      }
    }
  }

  lemma OrderedTail(rows: seq<Entry>)
    requires Ordered(rows) && rows != []
    ensures Ordered(rows[1..])
  {
    forall i, j | 0 <= i < j < |rows[1..]| ensures rows[1..][i].id < rows[1..][j].id && rows[1..][i].slot != rows[1..][j].slot {
      assert rows[1..][i] == rows[i + 1] && rows[1..][j] == rows[j + 1];
    }
  }

  /** The first row of an ordered table is below, and on another slot than, every later row. */
  lemma HeadBelowRest(rows: seq<Entry>)
    requires Ordered(rows) && rows != []
    ensures forall e | e in rows[1..] :: rows[0].id < e.id && rows[0].slot != e.slot
  {
    forall e | e in rows[1..] ensures rows[0].id < e.id && rows[0].slot != e.slot {
      var m :| 0 <= m < |rows[1..]| && rows[1..][m] == e;
      assert rows[m + 1] == e;
    }
  }

  lemma ConsOrdered(e: Entry, tail: seq<Entry>)
    requires Ordered(tail)
    requires forall x | x in tail :: e.id < x.id && e.slot != x.slot
    ensures Ordered([e] + tail)
  {
    var w := [e] + tail;
    forall i, j | 0 <= i < j < |w| ensures w[i].id < w[j].id && w[i].slot != w[j].slot {
      assert w[j] == tail[j - 1];
      if i > 0 {
        assert w[i] == tail[i - 1];
      } else {
        assert tail[j - 1] in tail;
      }
    }
  }

  /**
   * Deleting by id removes exactly that row, keeps the table valid and
   * leaves every other row in place.
   */
  lemma DeleteRemovesOnlyThatRow(t: Table, id: int)
    requires Valid(t)
    ensures var t' := DeleteById(t, id);
      && Valid(t')
      && !HasId(t', id)
      && (forall e | e in t.rows && e.id != id :: e in t'.rows)
      && (forall e | e in t'.rows :: e in t.rows)
  {
    var t' := DeleteById(t, id);
    WithoutSpec(t.rows, id);
    WithoutKeepsOrder(t.rows, id);
    forall i | 0 <= i < |t'.rows| ensures 1 <= t'.rows[i].id < t'.nextId && t'.rows[i].id != id {
      assert t'.rows[i] in t.rows;
    }
  }
}
