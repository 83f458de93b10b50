/** The second data-sheet reader (src/variants/mod.rs): a cell looked up by
    name, and a walk over a layout's data section that fills in the
    `value` of every entry that names a sheet row. */
module VariantsToml {
  import opened Common
  import opened Workbook
  import Toml

  datatype VariantError =
    | FailedToReadFile
    | FailedToParseFile
    | NameColumnNotFound
    | DefaultColumnNotFound
    | OptionalColumnNotFound
    | RowNotFound
    | InvalidCell
    | ArrayTooLong
    | BadRecursion
    | BadName

  type Entries = seq<(string, Toml.Value)>

  /** `retrieve_cell_data`: debug over variant over default, passing over
      only empty cells; no row or no value is `RowNotFound`. */
  function RetrieveCellData(ds: DataSheet, name: string): (r: Result<Cell, VariantError>)
    ensures r.Ok? <==> Select(ds, name, (c: Cell) => c.Empty?).Some?
    ensures r.Ok? ==> r.value == Select(ds, name, (c: Cell) => c.Empty?).value && !r.value.Empty?
    ensures r.Err? ==> r.error == RowNotFound
  {
    match Select(ds, name, (c: Cell) => c.Empty?)
    case Some(c) => Ok(c)
    case None => Err(RowNotFound)
  }

  /** `single_data_to_toml`: a number cell as a TOML number. */
  function SingleDataToToml(c: Cell): (r: Result<Toml.Value, VariantError>)
    ensures r.Ok? <==> c.Int? || c.Float?
    ensures c.Int? ==> r == Ok(Toml.Integer(c.n))
    ensures c.Float? ==> r == Ok(Toml.Float(c.x))
    ensures r.Err? ==> r.error == InvalidCell
  {
    match c
    case Int(n) => Ok(Toml.Integer(n))
    case Float(x) => Ok(Toml.Float(x))
    case _ => Err(InvalidCell)
  }

  /** An entry that already holds its value. */
  predicate IsPopulated(t: Entries) { Toml.ContainsKey(t, "value") && Toml.ContainsKey(t, "type") }

  /** An entry that names a sheet row. */
  predicate IsNamed(t: Entries) { Toml.ContainsKey(t, "name") && Toml.ContainsKey(t, "type") }

  /** One named entry filled in from its cell: a number becomes its
      `value` and no other key changes, text leaves the entry as it is,
      and any other cell, a name that is not text, or a name with no cell
      is refused. */
  function FillNamed(ds: DataSheet, t: Entries): (r: (Toml.Value, Result<(), VariantError>))
    requires IsNamed(t)
    ensures r.0.Table?
    ensures !Toml.Get(t, "name").value.String? ==> r == (Toml.Table(t), Err(BadName))
    ensures Toml.Get(t, "name").value.String? ==>
      var cell := RetrieveCellData(ds, Toml.Get(t, "name").value.s);
      && (cell.Err? ==> r == (Toml.Table(t), Err(RowNotFound)))
      && (cell.Ok? && cell.value.Text? ==> r == (Toml.Table(t), Ok(())))
      && (cell.Ok? && !cell.value.Text? && !(cell.value.Int? || cell.value.Float?) ==> r.1 == Err(InvalidCell))
      && (cell.Ok? && (cell.value.Int? || cell.value.Float?) ==>
            && r.1 == Ok(())
            && Toml.Get(r.0.entries, "value") == Some(SingleDataToToml(cell.value).value)
            && (forall k :: k != "value" ==> Toml.Get(r.0.entries, k) == Toml.Get(t, k)))
  {
    match Toml.Get(t, "name").value
    case String(name) =>
      (match RetrieveCellData(ds, name)
       case Err(e) => (Toml.Table(t), Err(e))
       case Ok(c) =>
         if c.Int? || c.Float? then (Toml.Table(Toml.Insert(t, "value", SingleDataToToml(c).value)), Ok(()))
         else if c.Text? then (Toml.Table(t), Ok(()))
         else (Toml.Table(t), Err(InvalidCell)))
    case _ => (Toml.Table(t), Err(BadName))
  }

  /** The value one step of `walk_data_section` leaves in an entry, and
      whether the walk goes on: a populated entry is left alone, a named
      one is filled in, any other table is walked in turn, and anything
      that is not a table stops the walk. */
  function WalkEntry(ds: DataSheet, v: Toml.Value): (r: (Toml.Value, Result<(), VariantError>))
    ensures !v.Table? ==> r == (v, Err(BadRecursion))
    ensures v.Table? && IsPopulated(v.entries) ==> r == (v, Ok(()))
    ensures v.Table? ==> r.0.Table?
    decreases v, 1
  {
    match v
    case Table(t) =>
      if IsPopulated(t) then (v, Ok(()))
      else if IsNamed(t) then FillNamed(ds, t)
      else
        var w := WalkFrom(ds, t, 0);
        (Toml.Table(w.0), w.1)
    case _ => (v, Err(BadRecursion))
  }

  /** `walk_data_section` over a table's entries from position i on: each
      entry is walked in order, and the first failure ends the walk with
      the entries after it untouched. Keys and their order never change. */
  function WalkFrom(ds: DataSheet, entries: Entries, i: nat): (r: (Entries, Result<(), VariantError>))
    requires i <= |entries|
    ensures |r.0| == |entries| - i
    ensures forall j :: 0 <= j < |r.0| ==> r.0[j].0 == entries[i + j].0
    decreases Toml.Table(entries), 0, |entries| - i
  {
    if i == |entries| then ([], Ok(()))
    else
      assert entries[i] in entries;
      var e := WalkEntry(ds, entries[i].1);
      if e.1.Err? then ([(entries[i].0, e.0)] + entries[i + 1..], e.1)
      else
        var rest := WalkFrom(ds, entries, i + 1);
        ([(entries[i].0, e.0)] + rest.0, rest.1)
  }

  /** The walk of a whole table. */
  function WalkList(ds: DataSheet, entries: Entries): (r: (Entries, Result<(), VariantError>))
    ensures |r.0| == |entries|
    ensures forall j :: 0 <= j < |entries| ==> r.0[j].0 == entries[j].0
  {
    WalkFrom(ds, entries, 0)
  }

  /** Walking from position j is walking the table without its first entry
      from position j - 1. */
  lemma {:induction false} WalkFromShift(ds: DataSheet, s: Entries, j: nat)
    requires 1 <= j <= |s|
    ensures WalkFrom(ds, s, j) == WalkFrom(ds, s[1..], j - 1)
    decreases |s| - j
  {
    if j < |s| {
      assert s[1..][j - 1] == s[j];
      assert s[j + 1..] == s[1..][j..];
      WalkFromShift(ds, s, j + 1);
    }
  }

  /** Two tables with the same keys in the same places contain the same
      keys. */
  lemma SameKeysContain(a: Entries, b: Entries, k: string)
    requires |a| == |b| && forall i :: 0 <= i < |a| ==> a[i].0 == b[i].0
    ensures Toml.ContainsKey(a, k) <==> Toml.ContainsKey(b, k)
  {
    if Toml.ContainsKey(a, k) {
      var i :| 0 <= i < |a| && a[i] == (k, Toml.Get(a, k).value);
      assert b[i].0 == k;
    }
    if Toml.ContainsKey(b, k) {
      var i :| 0 <= i < |b| && b[i] == (k, Toml.Get(b, k).value);
      assert a[i].0 == k;
    }
  }

  /** Walking a walked entry again changes nothing: every named number now
      has its value, and text entries are left as they were. */
  lemma {:induction false} WalkEntryIdempotent(ds: DataSheet, v: Toml.Value)
    requires WalkEntry(ds, v).1.Ok?
    ensures WalkEntry(ds, WalkEntry(ds, v).0) == (WalkEntry(ds, v).0, Ok(()))
    decreases v, 1
  {
    match v
    case Table(t) =>
      if IsPopulated(t) {
      } else if IsNamed(t) {
        var u := WalkEntry(ds, v).0.entries;
        if u != t {
          assert Toml.ContainsKey(u, "value");
          assert Toml.Get(u, "type") == Toml.Get(t, "type");
          assert IsPopulated(u);
        }
      } else {
        var w := WalkFrom(ds, t, 0);
        SameKeysContain(t, w.0, "value");
        SameKeysContain(t, w.0, "type");
        SameKeysContain(t, w.0, "name");
        WalkFromIdempotent(ds, t, 0);
      }
  }

  /** The same for the entries of a table from position i on. */
  lemma {:induction false} WalkFromIdempotent(ds: DataSheet, entries: Entries, i: nat)
    requires i <= |entries| && WalkFrom(ds, entries, i).1.Ok?
    ensures WalkFrom(ds, WalkFrom(ds, entries, i).0, 0) == (WalkFrom(ds, entries, i).0, Ok(()))
    decreases Toml.Table(entries), 0, |entries| - i
  {
    if i < |entries| {
      assert entries[i] in entries;
      var e := WalkEntry(ds, entries[i].1);
      var rest := WalkFrom(ds, entries, i + 1);
      WalkEntryIdempotent(ds, entries[i].1);
      WalkFromIdempotent(ds, entries, i + 1);
      var out := [(entries[i].0, e.0)] + rest.0;
      assert out[1..] == rest.0;
      WalkFromShift(ds, out, 1);
    }
  }

  /** A successful walk of a table is idempotent. */
  lemma WalkListIdempotent(ds: DataSheet, entries: Entries)
    requires WalkList(ds, entries).1.Ok?
    ensures WalkList(ds, WalkList(ds, entries).0) == (WalkList(ds, entries).0, Ok(()))
  {
    WalkFromIdempotent(ds, entries, 0);
  }

  /** A walked prefix followed by the walk of the rest. */
  function Joined(prefix: Entries, w: (Entries, Result<(), VariantError>)): (Entries, Result<(), VariantError>)
  {
    (prefix + w.0, w.1)
  }

  /** Writing x at position i of a sequence whose prefix is followed by
      `rest`. */
  lemma UpdatePrefix<T>(out: seq<T>, i: nat, x: T, rest: seq<T>)
    requires i < |out|
    ensures out[i := x][..i + 1] == out[..i] + [x]
    ensures out[i := x][i + 1..] == out[i + 1..]
    ensures out[..i] + ([x] + rest) == out[i := x][..i + 1] + rest
  {
  }

  /** One step of the walk: writing the walked entry at position i keeps
      the table equal to the walked prefix followed by the rest. */
  lemma WalkStep(ds: DataSheet, table: Entries, i: nat, out: Entries, next: Toml.Value, step: Result<(), VariantError>)
    requires i < |table| && |out| == |table| && out[i..] == table[i..]
    requires (next, step) == WalkEntry(ds, table[i].1)
    requires WalkList(ds, table) == Joined(out[..i], WalkFrom(ds, table, i))
    ensures var out' := out[i := (table[i].0, next)];
      && out'[i + 1..] == table[i + 1..]
      && (step.Err? ==> WalkList(ds, table) == (out', step))
      && (step.Ok? ==> WalkList(ds, table) == Joined(out'[..i + 1], WalkFrom(ds, table, i + 1)))
  {
    var x := (table[i].0, next);
    if step.Ok? {
      UpdatePrefix(out, i, x, WalkFrom(ds, table, i + 1).0);
    } else {
      UpdatePrefix(out, i, x, table[i + 1..]);
      assert out[i := x] == out[i := x][..i + 1] + out[i := x][i + 1..];
    }
  }

  /** The body of `walk_data_section` for one entry: the value it leaves
      there, and whether the walk goes on. */
  method WalkOne(ds: DataSheet, value: Toml.Value) returns (next: Toml.Value, step: Result<(), VariantError>)
    ensures (next, step) == WalkEntry(ds, value)
    decreases value, 1
  {
    next := value;
    step := Ok(());
    if value.Table? {
      var nested := value.entries;
      if IsPopulated(nested) {
        // already populated: left alone
      } else if IsNamed(nested) {
        var nameValue := Toml.Get(nested, "name").value;
        if !nameValue.String? {
          step := Err(BadName);
        } else {
          var data := RetrieveCellData(ds, nameValue.s);
          if data.Err? {
            step := Err(data.error);
          } else if data.value.Int? || data.value.Float? {
            var tomlValue := SingleDataToToml(data.value);
            next := Toml.Table(Toml.Insert(nested, "value", tomlValue.value));
          } else if !data.value.Text? {
            step := Err(InvalidCell);
          }
        }
      } else {
        var inner, e := WalkDataSection(ds, nested);
        next := Toml.Table(inner);
        step := e;
      }
    } else {
      step := Err(BadRecursion);
    }
  }

  /** `walk_data_section`: the table is updated in place, entry by entry;
      on a failure the entries already walked keep their new values and
      the rest are untouched. */
  method WalkDataSection(ds: DataSheet, table: Entries) returns (out: Entries, r: Result<(), VariantError>)
    ensures (out, r) == WalkList(ds, table)
    decreases Toml.Table(table), 0
  {
    out := table;
    var i := 0;
    assert [] + WalkList(ds, table).0 == WalkList(ds, table).0;
    while i < |table|
      invariant 0 <= i <= |table| && |out| == |table|
      invariant out[i..] == table[i..]
      invariant WalkList(ds, table) == Joined(out[..i], WalkFrom(ds, table, i))
    {
      assert table[i] in table;
      var key := table[i].0;
      var next, step := WalkOne(ds, table[i].1);
      WalkStep(ds, table, i, out, next, step);
      out := out[i := (key, next)];
      if step.Err? {
        return out, step;
      }
      i := i + 1;
    }
    assert WalkFrom(ds, table, i) == ([], Ok(()));
    assert out[..i] + [] == out;
    return out, Ok(());
  }
}
