/** Instances of a synthesised model and `model_save`, the `save` every
    such model gets: validate with `full_clean`, escape every string
    attribute in place, then store the row. */
module Records {
  import opened Wrappers
  import opened Escaping
  import opened Schema
  import opened Text
  import opened JsonValue

  datatype Date = Date(year: nat, month: nat, day: nat)

  predicate IsLeap(y: nat) {
    y % 4 == 0 && (y % 100 != 0 || y % 400 == 0)
  }

  function DaysInMonth(y: nat, m: nat): nat {
    if m == 2 then (if IsLeap(y) then 29 else 28)
    else if m == 4 || m == 6 || m == 9 || m == 11 then 30
    else 31
  }

  /** A `datetime.date`: years 1 to 9999 of the proleptic Gregorian calendar. */
  predicate ValidDate(d: Date) {
    1 <= d.year <= 9999 && 1 <= d.month <= 12 && 1 <= d.day <= DaysInMonth(d.year, d.month)
  }

  /** The value of one attribute of an instance. */
  datatype Value = Null | Str(s: string) | Int(n: int) | Day(date: Date)

  /** `str(value)`. */
  function ValueText(v: Value): string {
    match v
    case Null => "None"
    case Str(s) => s
    case Int(n) => IntToDecimal(n)
    case Day(d) => IsoDate(d.year, d.month, d.day)
  }

  /** The value an attribute has when the constructor is not given one:
      the empty string for a char field, `None` otherwise. */
  function DefaultValue(kind: FieldKind): Value {
    if kind == CharField then Str("") else Null
  }

  /** Whether `full_clean` accepts the value for a field of this class: the
      primary key may be unset; a char field needs a non-blank string of at
      most `max_length` characters; an integer field needs an int inside the
      bounds of its two validators; a date field needs a date. */
  predicate Accepts(kind: FieldKind, v: Value)
    ensures Accepts(kind, v) && kind != AutoField ==> !v.Null?
    ensures Accepts(kind, v) && v.Str? ==> kind == CharField && v.s != ""
  {
    match kind
    case AutoField => v.Null? || v.Int?
    case CharField => v.Str? && 1 <= |v.s| <= MaxLength
    case IntegerField => v.Int? && MinInt32 <= v.n <= MaxInt32
    case DateField => v.Day? && ValidDate(v.date)
  }

  predicate HasAll(fields: seq<FieldDef>, vals: map<string, Value>) {
    forall f :: f in fields ==> f.name in vals
  }

  /** The fields `full_clean` reports, i.e. the keys of its ValidationError. */
  function Errors(fields: seq<FieldDef>, vals: map<string, Value>): (r: set<string>)
    requires HasAll(fields, vals)
    ensures r <= Names(fields)
    ensures r == {} <==> forall f :: f in fields ==> Accepts(f.kind, vals[f.name])
  {
    assert forall f :: f in fields ==> f.name in Names(fields) by {
      forall f | f in fields ensures f.name in Names(fields) {
        var i :| 0 <= i < |fields| && fields[i] == f;
      }
    }
    var r := set f | f in fields && !Accepts(f.kind, vals[f.name]) :: f.name;
    assert forall f :: f in fields && !Accepts(f.kind, vals[f.name]) ==> f.name in r;
    r
  }

  /** `full_clean` rejects an integer exactly when it lies outside
      [-2147483648, 2147483647], and names that field. */
  lemma IntegerBounds(fields: seq<FieldDef>, vals: map<string, Value>, i: int, n: int)
    requires HasAll(fields, vals) && DistinctNames(fields)
    requires 0 <= i < |fields| && fields[i].kind == IntegerField && vals[fields[i].name] == Int(n)
    ensures fields[i].name in Errors(fields, vals) <==> n < -2147483648 || n > 2147483647
  {
    var f := fields[i];
    if f.name in Errors(fields, vals) {
      var g :| g in fields && !Accepts(g.kind, vals[g.name]) && g.name == f.name;
      var j :| 0 <= j < |fields| && fields[j] == g;
      assert j == i;
    }
  }

  /** One step of the loop in `model_save`: a `str` value is escaped, any
      other value is written back unchanged. */
  function EscapeValue(v: Value): (r: Value)
    ensures r.Str? <==> v.Str?
    ensures !v.Str? ==> r == v
    ensures r.Str? ==> forall i :: 0 <= i < |r.s| ==> !IsMarkup(r.s[i])
  {
    if v.Str? then EscapeHasNoMarkup(v.s); Str(Escape(v.s)) else v
  }

  /** The attribute values after the loop of `model_save` has visited `fs`. */
  function EscapeFields(fs: seq<FieldDef>, vals: map<string, Value>): (r: map<string, Value>)
    requires HasAll(fs, vals)
    ensures r.Keys == vals.Keys
    decreases |fs|
  {
    if fs == [] then vals
    else
      var prev := EscapeFields(fs[..|fs| - 1], vals);
      var name := fs[|fs| - 1].name;
      prev[name := EscapeValue(prev[name])]
  }

  /** After the loop, every string attribute of a field holds escaped text:
      no `<`, `>`, `'` or `"`. */
  lemma {:induction false} SavedStringsHaveNoMarkup(fs: seq<FieldDef>, vals: map<string, Value>, f: FieldDef)
    requires HasAll(fs, vals) && f in fs && EscapeFields(fs, vals)[f.name].Str?
    ensures forall i :: 0 <= i < |EscapeFields(fs, vals)[f.name].s| ==> !IsMarkup(EscapeFields(fs, vals)[f.name].s[i])
    decreases |fs|
  {
    var p := fs[..|fs| - 1];
    var last := fs[|fs| - 1];
    var prev := EscapeFields(p, vals);
    if last.name == f.name {
      EscapeHasNoMarkup(prev[f.name].s);
    } else {
      var i :| 0 <= i < |fs| && fs[i] == f;
      assert i < |p| && p[i] == f;
      SavedStringsHaveNoMarkup(p, vals, f);
    }
  }

  /** The loop leaves values that are not strings, and attributes of no
      field, as they were. */
  lemma {:induction false} SaveKeepsNonStrings(fs: seq<FieldDef>, vals: map<string, Value>, k: string)
    requires HasAll(fs, vals) && k in vals
    requires !vals[k].Str? || forall f :: f in fs ==> f.name != k
    ensures EscapeFields(fs, vals)[k] == vals[k]
    decreases |fs|
  {
    if fs != [] {
      var p := fs[..|fs| - 1];
      assert forall f :: f in p ==> f in fs;
      SaveKeepsNonStrings(p, vals, k);
      assert fs[|fs| - 1] in fs;
    }
  }

  /** With distinct field names, every string attribute is escaped exactly
      once. */
  lemma {:induction false} SaveEscapesOnce(fs: seq<FieldDef>, vals: map<string, Value>, i: int, s: string)
    requires HasAll(fs, vals) && DistinctNames(fs) && 0 <= i < |fs| && vals[fs[i].name] == Str(s)
    ensures EscapeFields(fs, vals)[fs[i].name] == Str(Escape(s))
    decreases |fs|
  {
    var p := fs[..|fs| - 1];
    assert forall f :: f in p ==> f in fs;
    if i == |fs| - 1 {
      forall f | f in p ensures f.name != fs[i].name {
        var j :| 0 <= j < |p| && p[j] == f;
        assert fs[j] == f;
      }
      SaveKeepsNonStringsOrAbsent(p, vals, fs[i].name);
    } else {
      assert p[i] == fs[i];
      assert DistinctNames(p) by {
        forall a, b | 0 <= a < b < |p| ensures p[a].name != p[b].name { assert p[a] == fs[a] && p[b] == fs[b]; }
      }
      SaveEscapesOnce(p, vals, i, s);
    }
  }

  lemma SaveKeepsNonStringsOrAbsent(fs: seq<FieldDef>, vals: map<string, Value>, k: string)
    requires HasAll(fs, vals) && k in vals && forall f :: f in fs ==> f.name != k
    ensures EscapeFields(fs, vals)[k] == vals[k]
  {
    SaveKeepsNonStrings(fs, vals, k);
  }

  /** `max_length` is checked before escaping, so a string that passes it
      with a special character is stored longer than `max_length`. */
  lemma EscapedMayExceedMaxLength(s: string, i: nat)
    requires |s| == MaxLength && i < |s| && IsSpecial(s[i])
    ensures Accepts(CharField, Str(s))
    ensures |Escape(s)| > MaxLength
  {
    EscapeIsSinglePass(s);
    EscapeEachCharGrows(s, i);
  }

  /** Every attribute at its default, field by field (a later field of the
      same name overrides an earlier one). */
  function Defaults(fs: seq<FieldDef>): (r: map<string, Value>)
    ensures HasAll(fs, r)
    decreases |fs|
  {
    if fs == [] then map[]
    else
      var last := fs[|fs| - 1];
      assert forall f :: f in fs[..|fs| - 1] ==> f in fs;
      assert forall f :: f in fs ==> f in fs[..|fs| - 1] || f == last;
      Defaults(fs[..|fs| - 1])[last.name := DefaultValue(last.kind)]
  }

  type Row = (string, map<string, Value>)

  /** A stored row of model `name` with the instance's integer primary key:
      the row an `UPDATE` on that key hits. */
  predicate SameRow(row: Row, name: string, vals: map<string, Value>) {
    row.0 == name && "id" in vals && vals["id"].Int? && "id" in row.1 && row.1["id"] == vals["id"]
  }

  /** The write of `super().save()`: when a stored row of the model has the
      instance's primary key it is updated, otherwise the row is inserted. */
  function StoreRow(saved: seq<Row>, name: string, vals: map<string, Value>): seq<Row> {
    if exists i :: 0 <= i < |saved| && SameRow(saved[i], name, vals) then
      seq(|saved|, i requires 0 <= i < |saved| => if SameRow(saved[i], name, vals) then (name, vals) else saved[i])
    else saved + [(name, vals)]
  }

  /** A stored row of model `name` with an integer `id`. */
  predicate HasIntId(row: Row, name: string) {
    row.0 == name && "id" in row.1 && row.1["id"].Int?
  }

  /** The largest integer `id` stored for model `name`, if any. */
  function MaxId(saved: seq<Row>, name: string): (r: Option<int>)
    ensures forall i :: 0 <= i < |saved| && HasIntId(saved[i], name) ==> r.Some? && saved[i].1["id"].n <= r.value
    ensures r.Some? ==> exists i :: 0 <= i < |saved| && HasIntId(saved[i], name) && saved[i].1["id"].n == r.value
    decreases |saved|
  {
    if saved == [] then None
    else
      var p := MaxId(saved[..|saved| - 1], name);
      var last := saved[|saved| - 1];
      assert forall i :: 0 <= i < |saved| - 1 ==> saved[i] == saved[..|saved| - 1][i];
      if HasIntId(last, name) then
        (if p.Some? && p.value >= last.1["id"].n then p else Some(last.1["id"].n))
      else p
  }

  /** The key the database gives a new row of model `name`: one more than
      the largest stored, or 1 for the first row. */
  function NextId(saved: seq<Row>, name: string): (r: int)
    ensures forall i :: 0 <= i < |saved| && HasIntId(saved[i], name) ==> saved[i].1["id"].n < r
  {
    if MaxId(saved, name).None? then 1 else MaxId(saved, name).value + 1
  }

  /** The attributes after the insert has set the primary key of an
      instance that had none. */
  function WithId(vals: map<string, Value>, saved: seq<Row>, name: string): map<string, Value> {
    if "id" in vals && vals["id"].Null? then vals["id" := Int(NextId(saved, name))] else vals
  }

  /** No two stored rows of one model share an integer primary key. */
  predicate UniqueIds(saved: seq<Row>) {
    forall i, j :: 0 <= i < j < |saved| && HasIntId(saved[i], saved[j].0) && "id" in saved[j].1 ==>
      saved[i].1["id"] != saved[j].1["id"]
  }

  /** A save writes its row, updates in place the row with the same key and
      leaves every other row where it was; the table grows only on insert. */
  lemma StoreRowSpec(saved: seq<Row>, name: string, vals: map<string, Value>)
    ensures (name, vals) in StoreRow(saved, name, vals)
    ensures |StoreRow(saved, name, vals)| ==
      if exists i :: 0 <= i < |saved| && SameRow(saved[i], name, vals) then |saved| else |saved| + 1
    ensures forall i :: 0 <= i < |saved| && !SameRow(saved[i], name, vals) ==> StoreRow(saved, name, vals)[i] == saved[i]
  {
    if exists i :: 0 <= i < |saved| && SameRow(saved[i], name, vals) {
      var i :| 0 <= i < |saved| && SameRow(saved[i], name, vals);
      assert StoreRow(saved, name, vals)[i] == (name, vals);
    } else {
      assert StoreRow(saved, name, vals)[|saved|] == (name, vals);
    }
  }

  /** Saving keeps primary keys unique within each model. */
  lemma StoreRowKeepsUniqueIds(saved: seq<Row>, name: string, vals: map<string, Value>)
    requires UniqueIds(saved)
    ensures UniqueIds(StoreRow(saved, name, vals))
  {
    var r := StoreRow(saved, name, vals);
    if exists i :: 0 <= i < |saved| && SameRow(saved[i], name, vals) {
      forall i, j | 0 <= i < j < |r| && HasIntId(r[i], r[j].0) && "id" in r[j].1
        ensures r[i].1["id"] != r[j].1["id"]
      {
        if SameRow(saved[i], name, vals) && !SameRow(saved[j], name, vals) {
          assert r[j] == saved[j];
        } else if !SameRow(saved[i], name, vals) && SameRow(saved[j], name, vals) {
          assert r[i] == saved[i];
        } else if !SameRow(saved[i], name, vals) {
          assert r[i] == saved[i] && r[j] == saved[j];
        }
      }
    } else {
      forall i, j | 0 <= i < j < |r| && HasIntId(r[i], r[j].0) && "id" in r[j].1
        ensures r[i].1["id"] != r[j].1["id"]
      {
        if j == |saved| {
          assert !SameRow(saved[i], name, vals);
        }
      }
    }
  }

  /** An instance without a primary key gets a fresh one, so its save is an
      insert: the table grows by exactly its row. */
  lemma NewInstanceInserts(saved: seq<Row>, name: string, vals: map<string, Value>)
    requires "id" in vals && vals["id"].Null?
    ensures WithId(vals, saved, name)["id"] == Int(NextId(saved, name))
    ensures StoreRow(saved, name, WithId(vals, saved, name)) == saved + [(name, WithId(vals, saved, name))]
  {
    var v := WithId(vals, saved, name);
    forall i | 0 <= i < |saved| ensures !SameRow(saved[i], name, v) {
      if HasIntId(saved[i], name) {
        assert saved[i].1["id"].n < NextId(saved, name);
      }
    }
  }

  /** A stored row of model `name` has the integer primary key of `vals`. */
  predicate PkTaken(saved: seq<Row>, name: string, vals: map<string, Value>) {
    exists i :: 0 <= i < |saved| && SameRow(saved[i], name, vals)
  }

  /** `full_clean`: the field checks, then the primary-key check of
      `validate_unique`. That check runs only for an instance that has not
      been saved yet (`_state.adding`); an instance loaded from the
      database is not checked against its own row. */
  function FullClean(model: ModelDef, vals: map<string, Value>, adding: bool, saved: seq<Row>): (r: set<string>)
    requires HasAll(model.fields, vals)
    ensures Errors(model.fields, vals) <= r <= Errors(model.fields, vals) + {"id"}
    ensures "id" in r <==> "id" in Errors(model.fields, vals) || (adding && PkTaken(saved, model.name, vals))
    ensures r == {} <==>
      (forall f :: f in model.fields ==> Accepts(f.kind, vals[f.name])) && !(adding && PkTaken(saved, model.name, vals))
    ensures !adding ==> r == Errors(model.fields, vals)
  {
    Errors(model.fields, vals) + (if adding && PkTaken(saved, model.name, vals) then {"id"} else {})
  }

  /** The escaping loop keeps a string a string. */
  lemma {:induction false} EscapeFieldsKeepsStrings(fs: seq<FieldDef>, vals: map<string, Value>, k: string)
    requires HasAll(fs, vals) && k in vals && vals[k].Str?
    ensures EscapeFields(fs, vals)[k].Str?
    decreases |fs|
  {
    if fs != [] {
      var p := fs[..|fs| - 1];
      assert forall f :: f in p ==> f in fs;
      EscapeFieldsKeepsStrings(p, vals, k);
    }
  }

  /** An instance whose key is not stored yet is saved by an insert: once
      escaped and given a key, its row is appended and no row is replaced. */
  lemma FreeKeyAppends(saved: seq<Row>, name: string, fs: seq<FieldDef>, vals: map<string, Value>)
    requires HasAll(fs, vals) && !PkTaken(saved, name, vals)
    ensures var v := WithId(EscapeFields(fs, vals), saved, name);
      StoreRow(saved, name, v) == saved + [(name, v)]
  {
    var e := EscapeFields(fs, vals);
    if "id" in vals {
      if vals["id"].Str? {
        EscapeFieldsKeepsStrings(fs, vals, "id");
      } else {
        SaveKeepsNonStrings(fs, vals, "id");
        if vals["id"].Null? {
          NewInstanceInserts(saved, name, e);
        } else {
          forall i | 0 <= i < |saved| ensures !SameRow(saved[i], name, e) {
            assert !SameRow(saved[i], name, vals);
          }
        }
      }
    }
  }

  /** The rows `super().save()` has written, each with its model's name. */
  class Store {
    var saved: seq<Row>

    /** The database's primary-key constraint. */
    predicate Valid()
      reads this
    {
      UniqueIds(saved)
    }

    constructor ()
      ensures saved == [] && Valid()
    {
      saved := [];
    }
  }

  /** An instance of a synthesised model. */
  class Instance {
    const model: ModelDef
    var values: map<string, Value>
    /** Django's `_state.adding`: the instance has not been saved or loaded. */
    var adding: bool

    /** Every field has an attribute. */
    predicate Valid()
      reads this
    {
      HasAll(model.fields, values)
    }

    /** `Model(**given)`: the given attributes over the defaults. */
    constructor (model: ModelDef, given: map<string, Value>)
      requires forall k :: k in given ==> exists f :: f in model.fields && f.name == k
      ensures this.model == model
      ensures Valid() && adding
      ensures values == Defaults(model.fields) + given
    {
      this.model := model;
      values := Defaults(model.fields) + given;
      adding := true;
    }

    /** An instance loaded from a stored row, as `get_object` returns it. */
    constructor Fetched(model: ModelDef, row: map<string, Value>)
      requires HasAll(model.fields, row)
      ensures this.model == model
      ensures Valid() && !adding
      ensures values == row
    {
      this.model := model;
      values := row;
      adding := false;
    }

    /** `model_save`: `full_clean` first; on errors nothing changes and the
        error fields are returned; otherwise every `str` attribute is
        escaped in place and the row is stored, by an insert for a new
        instance. */
    method Save(store: Store) returns (errors: set<string>)
      requires Valid() && store.Valid()
      modifies this, store
      ensures Valid() && store.Valid()
      ensures errors == FullClean(model, old(values), old(adding), old(store.saved))
      ensures errors != {} ==> values == old(values) && adding == old(adding) && store.saved == old(store.saved)
      ensures errors == {} ==> !adding
      ensures errors == {} ==> values == WithId(EscapeFields(model.fields, old(values)), old(store.saved), model.name)
      ensures errors == {} ==> store.saved == StoreRow(old(store.saved), model.name, values)
      ensures errors == {} && old(adding) ==> store.saved == old(store.saved) + [(model.name, values)]
    {
      errors := FullClean(model, values, adding, store.saved);
      if errors != {} {
        return;
      }
      EscapeAttributes();
      if adding {
        FreeKeyAppends(store.saved, model.name, model.fields, old(values));
      }
      if "id" in values && values["id"].Null? {
        values := values["id" := Int(NextId(store.saved, model.name))];
      }
      StoreRowKeepsUniqueIds(store.saved, model.name, values);
      store.saved := StoreRow(store.saved, model.name, values);
      adding := false;
    }

    /** The loop of `model_save`: every field's `str` attribute is escaped
        in place, in field order. */
    method EscapeAttributes()
      requires Valid()
      modifies this
      ensures values == EscapeFields(model.fields, old(values))
      ensures adding == old(adding)
    {
      var fields := model.fields;
      var i := 0;
      while i < |fields|
        invariant 0 <= i <= |fields|
        invariant HasAll(fields[..i], old(values))
        invariant values == EscapeFields(fields[..i], old(values))
        invariant adding == old(adding)
      {
        assert fields[..i + 1][..i] == fields[..i];
        var name := fields[i].name;
        var val := values[name];
        if val.Str? {
          val := Str(Escape(val.s));
        }
        values := values[name := val];
        i := i + 1;
      }
      assert fields[..i] == fields;
    }
  }

  /** `__name__` of the module that builds the classes, which
      `attr_dict.update` stores as every class's `__module__`. */
  const ModuleName: string := "myapp.models"

  /** `str(obj)` through the `__str__` that reads `cap_field`: the text of
      that attribute; `None` when it is not a string (`str` then raises). A
      model with no `cap_field` keeps Django's `<Name> object`. */
  function DisplayText(model: ModelDef, vals: map<string, Value>): (r: Option<string>)
    ensures model.capField.None? ==> r == Some(model.name + " object")
    ensures r.Some? ==>
      r.value == model.name + " object" || r.value == ModuleName || exists k :: k in vals && vals[k] == Str(r.value)
    ensures r.None? ==> DisplayOf(model) != DefaultStr
  {
    match DisplayOf(model)
    case DefaultStr => Some(model.name + " object")
    case CapAttr(n) => StrAttr(vals, n)
    case CapFieldValue =>
      if "cap_field" in vals && vals["cap_field"].Str? then StrAttr(vals, vals["cap_field"].s) else None
  }

  /** `getattr(obj, n)` when `str` must return it: the text of a string
      attribute of the instance, or the class's `__module__`; `None` when
      there is no such attribute or it is not a string (`getattr` or `str`
      then raises). */
  function StrAttr(vals: map<string, Value>, n: string): (r: Option<string>)
    ensures r.Some? <==> (n in vals && vals[n].Str?) || (n !in vals && n == "__module__")
    ensures n in vals && r.Some? ==> vals[n] == Str(r.value)
    ensures n !in vals && r.Some? ==> r.value == ModuleName
  {
    if n in vals then (if vals[n].Str? then Some(vals[n].s) else None)
    else if n == "__module__" then Some(ModuleName)
    else None
  }

  /** An entity whose first named field is `__module__` keeps that name as
      `cap_field`, while `attr_dict.update` replaces the field by the
      module's name; unless a field is named `__str__` or `cap_field`,
      `str` of an instance then gives the module's name. */
  lemma DisplayModuleName(name: string, attrs: Json, m: ModelDef, vals: map<string, Value>)
    requires ModelFor(name, attrs) == Ok(Some(m)) && m.capField == Some("__module__")
    requires forall k :: k in vals ==> k in Names(m.fields)
    ensures "__str__" !in Names(m.fields) && "cap_field" !in Names(m.fields) ==>
      DisplayText(m, vals) == Some(ModuleName)
  {
    ModelWellFormed(name, attrs, m);
    assert "__module__" in ReservedAttrs;
    assert "__module__" !in vals by {
      forall k | k in vals ensures k != "__module__" {
        var i :| 0 <= i < |m.fields| && m.fields[i].name == k;
        if i > 0 { assert m.fields[i] in m.fields[1..]; }
      }
    }
  }
}
