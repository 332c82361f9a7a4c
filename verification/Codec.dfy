/** Decoding rows: scanValues and assignValues of the generated entities. */
module Codec {
  import opened Seqs
  import opened Schema
  import opened Store

  /** What scanValues allocates for one column of the result. */
  datatype Holder = HInt | HString | HTime | HBytes | HUnknown

  /** The same, after the driver has scanned a value into it. */
  datatype Cell =
    | NullInt64(valid: bool, n: int)
    | NullString(valid: bool, s: string)
    | NullTime(valid: bool, t: int)
    | ByteSlice(present: bool, b: seq<int>)
    | UnknownType(v: Value)

  /** The fields of the struct, and the values kept for columns that are none of its fields. */
  datatype AssignResult = Assigned(fields: Row, selected: map<Column, Cell>) | Mismatch | UnexpectedType(c: Column)

  function HolderOf(typ: EntityType, c: Column): Holder {
    if c !in Columns(typ) then HUnknown
    else
      match KindOf(typ, c)
      case KInt => HInt
      case KString => HString
      case KTime => HTime
      case KBytes => HBytes
  }

  method ScanValues(typ: EntityType, columns: seq<Column>) returns (holders: seq<Holder>)
    ensures |holders| == |columns|
    ensures forall i :: 0 <= i < |columns| ==> holders[i] == HolderOf(typ, columns[i])
  {
    holders := [];
    var i := 0;
    while i < |columns|
      invariant 0 <= i <= |columns| && |holders| == i
      invariant forall k :: 0 <= k < i ==> holders[k] == HolderOf(typ, columns[k])
    {
      holders := holders + [HolderOf(typ, columns[i])];
      i := i + 1;
    }
  }

  /** The driver's part: scanning a stored value into a holder of its own type; NULL leaves it
      invalid. */
  function Fill(h: Holder, v: Value): Cell {
    match h
    case HInt => if v.IntV? then NullInt64(true, v.n) else NullInt64(false, 0)
    case HString => if v.StrV? then NullString(true, v.s) else NullString(false, "")
    case HTime => if v.TimeV? then NullTime(true, v.t) else NullTime(false, 0)
    case HBytes => if v.BytesV? then ByteSlice(true, v.b) else ByteSlice(false, [])
    case HUnknown => UnknownType(v)
  }

  /** The type assertion of one case of assignValues. */
  predicate Agrees(typ: EntityType, c: Column, v: Cell) {
    c in Columns(typ) ==>
      match KindOf(typ, c)
      case KInt => v.NullInt64?
      case KString => v.NullString?
      case KTime => v.NullTime?
      case KBytes => v.ByteSlice?
  }

  /** The effect of one case on the struct. An integer id is assigned without looking at its
      validity; a NULL byte slice is assigned as nil. */
  function AssignOne(typ: EntityType, fields: Row, c: Column, v: Cell): Row {
    if c !in Columns(typ) then fields
    else
      match v
      case NullInt64(valid, n) => if valid || c == Id then fields[c := IntV(n)] else fields
      case NullString(valid, s) => if valid then fields[c := StrV(s)] else fields
      case NullTime(valid, t) => if valid then fields[c := TimeV(t)] else fields
      case ByteSlice(present, b) => if present then fields[c := BytesV(b)] else fields - {c}
      case UnknownType(_) => fields
  }

  ghost function AssignTo(typ: EntityType, columns: seq<Column>, values: seq<Cell>, n: nat): Row
    requires n <= |columns| && n <= |values|
  {
    if n == 0 then map[] else AssignOne(typ, AssignTo(typ, columns, values, n - 1), columns[n - 1], values[n - 1])
  }

  /** The values kept for columns that are no fields: the last one of each name. */
  function SelectedTo(typ: EntityType, columns: seq<Column>, values: seq<Cell>, n: nat): map<Column, Cell>
    requires n <= |columns| && n <= |values|
  {
    if n == 0 then map[]
    else
      var selected := SelectedTo(typ, columns, values, n - 1);
      if columns[n - 1] in Columns(typ) then selected else selected[columns[n - 1] := values[n - 1]]
  }

  /** assignValues on a new struct. */
  method AssignValues(typ: EntityType, columns: seq<Column>, values: seq<Cell>) returns (r: AssignResult)
    ensures r.Mismatch? <==> |values| < |columns|
    ensures r.UnexpectedType? ==>
      exists i :: 0 <= i < |columns| <= |values| && r.c == columns[i] && !Agrees(typ, columns[i], values[i])
                  && forall k :: 0 <= k < i ==> Agrees(typ, columns[k], values[k])
    ensures r.Assigned? <==>
      |columns| <= |values| && forall i :: 0 <= i < |columns| ==> Agrees(typ, columns[i], values[i])
    ensures r.Assigned? ==>
      r.fields == AssignTo(typ, columns, values, |columns|) && r.selected == SelectedTo(typ, columns, values, |columns|)
  {
    hide Columns, KindOf, Agrees, AssignOne;
    if |values| < |columns| {
      return Mismatch;
    }
    var fields: Row := map[];
    var selected: map<Column, Cell> := map[];
    var i := 0;
    while i < |columns|
      invariant 0 <= i <= |columns|
      invariant forall k :: 0 <= k < i ==> Agrees(typ, columns[k], values[k])
      invariant fields == AssignTo(typ, columns, values, i) && selected == SelectedTo(typ, columns, values, i)
    {
      if !Agrees(typ, columns[i], values[i]) {
        return UnexpectedType(columns[i]);
      }
      fields := AssignOne(typ, fields, columns[i], values[i]);
      if columns[i] !in Columns(typ) {
        selected := selected[columns[i] := values[i]];
      }
      i := i + 1;
    }
    return Assigned(fields, selected);
  }

  // ---------------------------------------------------------------- reading a row

  /** A row as the driver scans it into the holders of a column list. */
  function FillAll(typ: EntityType, columns: seq<Column>, values: seq<Value>): seq<Cell>
    requires |values| == |columns|
  {
    seq(|columns|, i requires 0 <= i < |columns| => Fill(HolderOf(typ, columns[i]), values[i]))
  }

  /** scanValues and assignValues never disagree on a type, whatever the column and whatever the
      driver found. */
  lemma NeverDisagrees(typ: EntityType, c: Column, v: Value)
    ensures Agrees(typ, c, Fill(HolderOf(typ, c), v))
  {
  }

  /** Decoding is what the eager loaders rely on: the listed columns of the row that are fields of
      the entity and not NULL, in whatever order they are listed, even repeatedly. */
  lemma {:induction false} AssignDecodes(typ: EntityType, columns: seq<Column>, values: seq<Value>, r: Row, n: nat)
    requires |values| == |columns| && n <= |columns| && RowTyped(typ, r)
    requires forall i :: 0 <= i < |columns| ==> values[i] == Get(r, columns[i])
    ensures AssignTo(typ, columns, FillAll(typ, columns, values), n)
            == Decode(r, Elems(columns[..n]) * Elems(Columns(typ)))
  {
    hide Columns, KindOf, RowTyped;
    if n == 0 {
    } else {
      var c := columns[n - 1];
      AssignDecodes(typ, columns, values, r, n - 1);
      TakeSnoc(columns, n - 1);
      assert columns[..n - 1 + 1] == columns[..n];
      if c in Columns(typ) {
        AssignStep(typ, r, c, Elems(columns[..n - 1]) * Elems(Columns(typ)));
        assert Elems(columns[..n]) * Elems(Columns(typ)) == Elems(columns[..n - 1]) * Elems(Columns(typ)) + {c};
      } else {
        assert Elems(columns[..n]) * Elems(Columns(typ)) == Elems(columns[..n - 1]) * Elems(Columns(typ));
      }
    }
  }

  lemma AssignStep(typ: EntityType, r: Row, c: Column, cols: set<Column>)
    requires RowTyped(typ, r) && c in Columns(typ)
    ensures AssignOne(typ, Decode(r, cols), c, Fill(HolderOf(typ, c), Get(r, c))) == Decode(r, cols + {c})
  {
    hide Columns, KindOf;
    var v := Get(r, c);
    assert v != Null ==> HasKind(v, KindOf(typ, c));
    if v == Null {
      assert Decode(r, cols + {c}) == Decode(r, cols);
    } else {
      assert Decode(r, cols + {c}) == Decode(r, cols)[c := v];
    }
  }

  /** The columns that are no fields keep their raw values. */
  lemma {:induction false} AssignSelects(typ: EntityType, columns: seq<Column>, values: seq<Value>, r: Row, n: nat)
    requires |values| == |columns| && n <= |columns|
    requires forall i :: 0 <= i < |columns| ==> values[i] == Get(r, columns[i])
    ensures SelectedTo(typ, columns, FillAll(typ, columns, values), n)
            == map c | c in columns[..n] && c !in Columns(typ) :: UnknownType(Get(r, c))
  {
    hide Columns, KindOf, Fill;
    if n == 0 {
    } else {
      AssignSelects(typ, columns, values, r, n - 1);
      UnknownFilled(typ, columns[n - 1], values[n - 1]);
      assert FillAll(typ, columns, values)[n - 1] == Fill(HolderOf(typ, columns[n - 1]), values[n - 1]);
      KeptStep(typ, columns, r, n);
    }
  }

  lemma UnknownFilled(typ: EntityType, c: Column, v: Value)
    ensures c !in Columns(typ) ==> Fill(HolderOf(typ, c), v) == UnknownType(v)
  {
  }

  lemma KeptStep(typ: EntityType, columns: seq<Column>, r: Row, n: nat)
    requires 0 < n <= |columns|
    ensures (map c | c in columns[..n] && c !in Columns(typ) :: UnknownType(Get(r, c)))
            == var kept := map c | c in columns[..n - 1] && c !in Columns(typ) :: UnknownType(Get(r, c));
               var c := columns[n - 1];
               if c in Columns(typ) then kept else kept[c := UnknownType(Get(r, c))]
  {
    hide Columns, Get;
    assert columns[..n] == columns[..n - 1] + [columns[n - 1]];
  }

  /** One row through the driver: scanValues, scanning, assignValues. */
  method ReadRow(typ: EntityType, columns: seq<Column>, values: seq<Value>, ghost row: Row) returns (r: AssignResult)
    requires RowTyped(typ, row)
    requires |values| == |columns| && forall i :: 0 <= i < |columns| ==> values[i] == Get(row, columns[i])
    ensures r.Assigned? && r.fields == Decode(row, Elems(columns) * Elems(Columns(typ)))
    ensures r.selected == map c | c in columns && c !in Columns(typ) :: UnknownType(Get(row, c))
  {
    hide Columns, KindOf, RowTyped, Agrees, Decode;
    var holders := ScanValues(typ, columns);
    var scanned := seq(|columns|, i requires 0 <= i < |columns| => Fill(holders[i], values[i]));
    assert scanned == FillAll(typ, columns, values);
    forall i | 0 <= i < |columns| ensures Agrees(typ, columns[i], scanned[i]) {
      NeverDisagrees(typ, columns[i], values[i]);
    }
    r := AssignValues(typ, columns, scanned);
    AssignDecodes(typ, columns, values, row, |columns|);
    AssignSelects(typ, columns, values, row, |columns|);
    assert columns[..|columns|] == columns;
  }
}
