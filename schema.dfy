/** What `ModelsLoader.load` makes of a parsed schema document: for every
    entity, either nothing (skipped), a model definition, or the Python
    exception that stops the loop. Everything here is a pure function of the
    parsed document; the loader class applies it to the registry. */
module Schema {
  import opened Wrappers
  import opened Identifiers
  import opened PyDict
  import opened JsonValue

  /** The exceptions `load` raises on a document that parses but has the
      wrong shape: `.keys()`/`.items()` on a non-object (AttributeError),
      iterating or hashing or indexing the wrong kind of value, or `clean`
      on a non-string (TypeError). */
  datatype PyError = AttributeError | TypeError

  /** The Django field classes a model can hold. */
  datatype FieldKind = AutoField | CharField | IntegerField | DateField

  /** A field: its attribute name, its verbose name (whatever the `title`
      member held) and its class. */
  datatype FieldDef = FieldDef(name: string, verboseName: Json, kind: FieldKind)

  /** A synthesised model class: its name, `Meta.verbose_name_plural`, its
      fields in Django's order, and `cap_field` (absent when no field was
      accepted, so the class keeps Django's default `__str__`). */
  datatype ModelDef = ModelDef(name: string, pluralTitle: Json, fields: seq<FieldDef>, capField: Option<string>)

  /** `max_length` of every char field. */
  const MaxLength: int := 200
  /** The bounds of the validators attached to every integer field. */
  const MinInt32: int := -2147483648
  const MaxInt32: int := 2147483647

  const RequiredModelKeys: seq<string> := ["title", "fields"]
  const RequiredAttrKeys: seq<string> := ["id", "title", "type"]

  /** The primary key Django adds to every model that declares none. */
  const IdField: FieldDef := FieldDef("id", JStr("ID"), AutoField)

  /** Attribute names that `attr_dict.update` overwrites after the field loop. */
  const ReservedAttrs: set<string> := {"Meta", "save", "__module__"}

  /** `field_map`: the cleaned type names a field may have. */
  function FieldMap(): map<string, FieldKind> {
    map["char" := CharField, "integer" := IntegerField, "date" := DateField]
  }

  /** What `json.loads` guarantees of a document: an object has each key
      once (a repeated key keeps only its last value). */
  predicate DistinctTopKeys(j: Json) {
    j.JObj? ==> DistinctKeys(j.members)
  }

  /** `_get_content`: the parsed document, or `{}` when `json.loads` raises
      ValueError (modelled as `None`). */
  function GetContent(parsed: Option<Json>): (r: Json)
    ensures parsed.None? ==> r.JObj? && Keys(r.members) == {}
    ensures parsed.Some? ==> r == parsed.value
    ensures (parsed.Some? ==> DistinctTopKeys(parsed.value)) ==> DistinctTopKeys(r)
  {
    match parsed
    case None => JObj([])
    case Some(j) => j
  }

  // ----- _clean_keys -----

  /** `_clean_keys(d)`: a new dict built from `(clean(k), d[k])` in key
      order, so two keys that clean to the same string keep the later value
      at the earlier one's position. */
  function CleanKeys(d: Dict<Json>): (r: Dict<Json>)
    ensures DistinctKeys(r) && |r| <= |d|
    ensures forall k :: k in Keys(r) ==> IsIdentifier(k)
    decreases |d|
  {
    if d == [] then []
    else
      SetShape(CleanKeys(d[..|d| - 1]), Clean(d[|d| - 1].0), d[|d| - 1].1);
      Set(CleanKeys(d[..|d| - 1]), Clean(d[|d| - 1].0), d[|d| - 1].1)
  }

  /** The members with their keys cleaned and nothing merged. */
  function Renamed(d: Dict<Json>): (r: Dict<Json>)
    ensures |r| == |d|
  {
    seq(|d|, i requires 0 <= i < |d| => (Clean(d[i].0), d[i].1))
  }

  /** After `_clean_keys`, the keys are distinct and are the cleaned keys
      of `d`, and each maps to the value of the last key of `d` that cleans
      to it. */
  lemma {:induction false} CleanKeysSpec(d: Dict<Json>, k: string)
    ensures Lookup(CleanKeys(d), k) == Lookup(Renamed(d), k)
    ensures Keys(CleanKeys(d)) == Keys(Renamed(d))
    ensures DistinctKeys(CleanKeys(d))
    decreases |d|
  {
    if d != [] {
      var p := d[..|d| - 1];
      var last := d[|d| - 1];
      CleanKeysSpec(p, k);
      assert Renamed(d)[..|d| - 1] == Renamed(p);
      KeysSnoc(Renamed(d));
      SetLookup(CleanKeys(p), Clean(last.0), last.1, k);
      SetShape(CleanKeys(p), Clean(last.0), last.1);
    }
  }

  /** On a dict whose keys are distinct identifiers `_clean_keys` changes
      nothing. */
  lemma {:induction false} CleanKeysIdentity(d: Dict<Json>)
    requires DistinctKeys(d) && forall k :: k in Keys(d) ==> IsIdentifier(k)
    ensures CleanKeys(d) == d
    decreases |d|
  {
    if d != [] {
      var p := d[..|d| - 1];
      var last := d[|d| - 1];
      KeysSnoc(d);
      assert DistinctKeys(p) by {
        forall i, j | 0 <= i < j < |p| ensures p[i].0 != p[j].0 { assert p[i] == d[i] && p[j] == d[j]; }
      }
      CleanKeysIdentity(p);
      CleanFixesExactlyIdentifiers(last.0);
      assert last.0 !in Keys(p) by {
        forall i | 0 <= i < |p| ensures p[i].0 != last.0 { assert p[i] == d[i]; }
      }
      assert p + [last] == d;
    }
  }

  /** A key survives `_clean_keys` exactly when it is the cleaned form of
      some original key. */
  lemma CleanKeysKeys(d: Dict<Json>, k: string)
    ensures k in Keys(CleanKeys(d)) <==> exists i :: 0 <= i < |d| && Clean(d[i].0) == k
  {
    CleanKeysSpec(d, k);
    if k in Keys(Renamed(d)) {
      var i :| 0 <= i < |d| && Renamed(d)[i].0 == k;
    }
    if exists i :: 0 <= i < |d| && Clean(d[i].0) == k {
      var i :| 0 <= i < |d| && Clean(d[i].0) == k;
      assert Renamed(d)[i].0 == k;
    }
  }

  // ----- _check_keys and iteration -----

  /** `_check_keys(dct, req)`, i.e. `set(req).issubset(set(dct))`: `set`
      of a dict is its keys, of a string its characters, of a list its
      items (TypeError if one is a list or a dict, which cannot be hashed);
      any other value is not iterable. */
  function CheckKeys(dct: Json, req: seq<string>): (r: Result<bool, PyError>)
    ensures r.Err? <==>
      !(dct.JObj? || dct.JStr? || (dct.JArr? && forall x :: x in dct.items ==> !x.JArr? && !x.JObj?))
    ensures r.Err? ==> r.error == TypeError
  {
    match dct
    case JObj(m) => Ok(forall k :: k in req ==> k in Keys(m))
    case JStr(s) => Ok(forall k :: k in req ==> |k| == 1 && k[0] in s)
    case JArr(items) =>
      if exists x :: x in items && (x.JArr? || x.JObj?) then Err(TypeError)
      else Ok(forall k :: k in req ==> JStr(k) in items)
    case _ => Err(TypeError)
  }

  /** On dicts `_check_keys` is the subset test on the keys: it holds exactly
      when every required key is present, whatever else the dict holds. */
  lemma CheckKeysOnDict(m: Dict<Json>, req: seq<string>, extra: Dict<Json>)
    ensures CheckKeys(JObj(m), req) == Ok((set k | k in req) <= Keys(m))
    ensures CheckKeys(JObj(m), req) == Ok(true) ==> CheckKeys(JObj(Update(m, extra)), req) == Ok(true)
  {
    UpdateShape(m, extra);
  }

  /** `for x in v`: a list yields its items, a dict its keys, a string its
      characters; anything else raises TypeError. */
  function Iterate(v: Json): Result<seq<Json>, PyError> {
    match v
    case JArr(items) => Ok(items)
    case JObj(m) => Ok(seq(|m|, i requires 0 <= i < |m| => JStr(m[i].0)))
    case JStr(s) => Ok(seq(|s|, i requires 0 <= i < |s| => JStr([s[i]])))
    case _ => Err(TypeError)
  }

  // ----- one iteration of the field loop -----

  /** The verdict on one entry of `fields`: `Ok(None)` is `continue`,
      `Ok(Some(f))` adds field `f`, `Err` is the exception the iteration
      raises. The entry's own keys are not cleaned. */
  function FieldOf(field: Json): (r: Result<Option<FieldDef>, PyError>)
    ensures r.Err? ==> r.error == TypeError
    ensures r.Ok? && r.value.Some? ==>
      field.JObj? && IsIdentifier(r.value.value.name) && r.value.value.kind != AutoField
  {
    match CheckKeys(field, RequiredAttrKeys)
    case Err(e) => Err(e)
    case Ok(present) =>
      if !present then Ok(None)
      else if !field.JObj? then Err(TypeError)     // a list cannot be indexed by "type"
      else FieldOfDict(field.members)
  }

  function FieldOfDict(m: Dict<Json>): (r: Result<Option<FieldDef>, PyError>)
    requires "id" in Keys(m) && "title" in Keys(m) && "type" in Keys(m)
    ensures r.Err? ==> r.error == TypeError
    ensures r.Ok? && r.value.Some? ==>
      IsIdentifier(r.value.value.name) && r.value.value.kind != AutoField
      && r.value.value.verboseName == Lookup(m, "title").value
  {
    var t := Lookup(m, "type").value;
    if !t.JStr? then Err(TypeError)
    else if Clean(t.s) !in FieldMap() then Ok(None)
    else
      var id := Lookup(m, "id").value;
      if !id.JStr? then Err(TypeError)
      else Ok(Some(FieldDef(Clean(id.s), Lookup(m, "title").value, FieldMap()[Clean(t.s)])))
  }

  /** A field is added exactly for an object that has the raw keys `id`,
      `title` and `type`, whose cleaned `type` is `char`, `integer` or
      `date` and whose `id` is a string: the field is named by the cleaned
      `id`, titled by `title` and of the class `type` selects. */
  lemma FieldOfAccepts(field: Json, f: FieldDef)
    ensures FieldOf(field) == Ok(Some(f)) <==>
      field.JObj? && "id" in Keys(field.members) && "title" in Keys(field.members) && "type" in Keys(field.members)
      && Lookup(field.members, "type").value.JStr?
      && Clean(Lookup(field.members, "type").value.s) in FieldMap()
      && Lookup(field.members, "id").value.JStr?
      && f == FieldDef(Clean(Lookup(field.members, "id").value.s), Lookup(field.members, "title").value,
                       FieldMap()[Clean(Lookup(field.members, "type").value.s)])
  {
    assert "id" in RequiredAttrKeys && "title" in RequiredAttrKeys && "type" in RequiredAttrKeys;
  }

  /** An object lacking one of the raw keys, or whose cleaned string `type`
      is not in `field_map`, is skipped without looking at its `id`. */
  lemma FieldOfSkips(m: Dict<Json>)
    requires !("id" in Keys(m) && "title" in Keys(m) && "type" in Keys(m))
          || (Lookup(m, "type").Some? && Lookup(m, "type").value.JStr?
              && Clean(Lookup(m, "type").value.s) !in FieldMap())
    ensures FieldOf(JObj(m)) == Ok(None)
  {
    assert "id" in RequiredAttrKeys && "title" in RequiredAttrKeys && "type" in RequiredAttrKeys;
  }

  /** Entries that are not objects: a scalar raises, a string is skipped (its
      characters never include the three keys), a list is skipped unless it
      holds the three key strings, and raises when it holds a list or dict. */
  lemma FieldOfNonObject(field: Json)
    requires !field.JObj?
    ensures field.JNull? || field.JBool? || field.JNum? ==> FieldOf(field) == Err(TypeError)
    ensures field.JStr? ==> FieldOf(field) == Ok(None)
    ensures field.JArr? ==> (FieldOf(field) != Ok(None) <==> FieldOf(field) == Err(TypeError))
    ensures FieldOf(field).Ok? ==> FieldOf(field) == Ok(None)
  {
    if field.JStr? {
      assert "id" in RequiredAttrKeys;
    }
  }

  // ----- the field loop -----

  /** The loop state: the fields in Django's order and `first_fld_name`. */
  datatype FieldLoop = FieldLoop(fields: seq<FieldDef>, firstName: Option<string>)

  function Without(fs: seq<FieldDef>, name: string): seq<FieldDef> {
    if fs == [] then [] else (if fs[0].name == name then [] else [fs[0]]) + Without(fs[1..], name)
  }

  lemma {:induction false} WithoutSpec(fs: seq<FieldDef>, name: string)
    ensures forall g :: g in Without(fs, name) ==> g in fs && g.name != name
  {
    if fs != [] {
      WithoutSpec(fs[1..], name);
    }
  }

  /** Adding field `f`: `attr_dict[fld_name]` keeps only the newest Field
      object under that name, and Django orders fields by creation, so `f`
      goes last and an older field of that name disappears. `first_fld_name`
      and `cap_field` are (re)set while `first_fld_name` is falsy (`None`
      or the empty string). */
  function AddField(st: FieldLoop, f: FieldDef): (r: FieldLoop)
    ensures |r.fields| >= 1 && r.fields[|r.fields| - 1] == f
    ensures forall g :: g in r.fields[..|r.fields| - 1] ==> g in st.fields && g.name != f.name
    ensures r.firstName.Some? && (st.firstName.Some? && st.firstName != Some("") ==> r.firstName == st.firstName)
  {
    WithoutSpec(st.fields, f.name);
    assert (Without(st.fields, f.name) + [f])[..|Without(st.fields, f.name)|] == Without(st.fields, f.name);
    FieldLoop(Without(st.fields, f.name) + [f],
              if st.firstName == None || st.firstName == Some("") then Some(f.name) else st.firstName)
  }

  function RunFieldLoop(st: FieldLoop, items: seq<Json>): (r: Result<FieldLoop, PyError>)
    ensures r.Err? <==> exists i :: 0 <= i < |items| && FieldOf(items[i]).Err?
    ensures r.Err? ==> r.error == TypeError
    decreases |items|
  {
    if items == [] then Ok(st)
    else
      assert forall i :: 0 < i < |items| ==> items[i] == items[1..][i - 1];
      match FieldOf(items[0])
      case Err(e) => Err(e)
      case Ok(None) => RunFieldLoop(st, items[1..])
      case Ok(Some(f)) => RunFieldLoop(AddField(st, f), items[1..])
  }

  // ----- a reference description of the field loop -----

  /** The fields accepted in order, or the first exception. */
  function AcceptedFields(items: seq<Json>): Result<seq<FieldDef>, PyError>
    decreases |items|
  {
    if items == [] then Ok([])
    else
      match FieldOf(items[0])
      case Err(e) => Err(e)
      case Ok(None) => AcceptedFields(items[1..])
      case Ok(Some(f)) =>
        match AcceptedFields(items[1..])
        case Err(e) => Err(e)
        case Ok(fs) => Ok([f] + fs)
  }

  function Names(fs: seq<FieldDef>): set<string> {
    set i | 0 <= i < |fs| :: fs[i].name
  }

  /** Each field whose name is not taken by a later one, in order. */
  function LastWins(fs: seq<FieldDef>): seq<FieldDef> {
    if fs == [] then [] else (if fs[0].name in Names(fs[1..]) then [] else [fs[0]]) + LastWins(fs[1..])
  }

  /** `cap_field`: the first non-empty name; the empty name if every
      accepted field has one; nothing if no field was accepted. */
  function CapFieldOf(fs: seq<FieldDef>): Option<string> {
    if fs == [] then None
    else if fs[0].name != "" then Some(fs[0].name)
    else if CapFieldOf(fs[1..]) == None then Some("")
    else CapFieldOf(fs[1..])
  }

  lemma NamesSplit(fs: seq<FieldDef>)
    requires fs != []
    ensures Names(fs) == {fs[0].name} + Names(fs[1..])
  {
    forall x | x in Names(fs) ensures x in {fs[0].name} + Names(fs[1..]) {
      var i :| 0 <= i < |fs| && fs[i].name == x;
      if i > 0 { assert fs[1..][i - 1] == fs[i]; }
    }
    forall x | x in Names(fs[1..]) ensures x in Names(fs) {
      var i :| 0 <= i < |fs[1..]| && fs[1..][i].name == x;
      assert fs[i + 1] == fs[1..][i];
    }
  }

  lemma {:induction false} WithoutConcat(a: seq<FieldDef>, b: seq<FieldDef>, name: string)
    ensures Without(a + b, name) == Without(a, name) + Without(b, name)
  {
    if a == [] {
      assert a + b == b;
    } else {
      assert (a + b)[0] == a[0];
      assert (a + b)[1..] == a[1..] + b;
      WithoutConcat(a[1..], b, name);
    }
  }

  lemma LastWinsCons(g: FieldDef, s: seq<FieldDef>)
    ensures LastWins([g] + s) == (if g.name in Names(s) then [] else [g]) + LastWins(s)
  {
    assert ([g] + s)[1..] == s;
  }

  lemma NamesSnoc(s: seq<FieldDef>, f: FieldDef)
    ensures Names(s + [f]) == Names(s) + {f.name}
  {
    forall x | x in Names(s + [f]) ensures x in Names(s) + {f.name} {
      var i :| 0 <= i < |s + [f]| && (s + [f])[i].name == x;
      if i < |s| { assert (s + [f])[i] == s[i]; }
    }
    forall x | x in Names(s) + {f.name} ensures x in Names(s + [f]) {
      if x in Names(s) {
        var i :| 0 <= i < |s| && s[i].name == x;
        assert (s + [f])[i] == s[i];
      } else {
        assert (s + [f])[|s|] == f;
      }
    }
  }

  /** Adding a field to the loop state is appending it to the reference list. */
  lemma {:induction false} AddFieldLastWins(fs: seq<FieldDef>, f: FieldDef)
    ensures Without(LastWins(fs), f.name) + [f] == LastWins(fs + [f])
  {
    var empty: seq<FieldDef> := [];
    if fs == [] {
      assert Names(empty) == {};
      LastWinsCons(f, empty);
      assert fs + [f] == [f] + empty;
    } else {
      var g := fs[0];
      var rest := fs[1..];
      assert fs == [g] + rest;
      assert fs + [f] == [g] + (rest + [f]);
      AddFieldLastWins(rest, f);
      NamesSnoc(rest, f);
      LastWinsCons(g, rest);
      LastWinsCons(g, rest + [f]);
      var head := if g.name in Names(rest) then [] else [g];
      WithoutConcat(head, LastWins(rest), f.name);
      assert Without(head, f.name) == if g.name in Names(rest + [f]) then [] else [g];
    }
  }

  lemma {:induction false} AddFieldCapField(fs: seq<FieldDef>, f: FieldDef)
    ensures AddField(FieldLoop([], CapFieldOf(fs)), f).firstName == CapFieldOf(fs + [f])
  {
    if fs == [] {
      assert fs + [f] == [f];
      assert ([f])[1..] == [];
    } else {
      assert (fs + [f])[0] == fs[0];
      assert (fs + [f])[1..] == fs[1..] + [f];
      AddFieldCapField(fs[1..], f);
    }
  }

  /** The loop state the reference description gives after the accepted
      fields `pre` and then the outcome `rest` of the remaining entries. */
  function Continued(pre: seq<FieldDef>, rest: Result<seq<FieldDef>, PyError>): Result<FieldLoop, PyError> {
    match rest
    case Err(e) => Err(e)
    case Ok(fs) => Ok(FieldLoop(LastWins(pre + fs), CapFieldOf(pre + fs)))
  }

  lemma ContinuedAdd(pre: seq<FieldDef>, f: FieldDef, rest: Result<seq<FieldDef>, PyError>)
    ensures Continued(pre + [f], rest) ==
      Continued(pre, match rest case Err(e) => Err(e) case Ok(fs) => Ok([f] + fs))
  {
    if rest.Ok? {
      assert (pre + [f]) + rest.value == pre + ([f] + rest.value);
    }
  }

  /** The field loop from any state reached on a list `pre` of accepted
      fields continues as the reference description of `pre` followed by
      the entries still to come. */
  lemma {:induction false} RunFieldLoopFrom(pre: seq<FieldDef>, items: seq<Json>)
    ensures RunFieldLoop(FieldLoop(LastWins(pre), CapFieldOf(pre)), items) == Continued(pre, AcceptedFields(items))
    decreases |items|
  {
    var st := FieldLoop(LastWins(pre), CapFieldOf(pre));
    if items == [] {
      assert pre + [] == pre;
    } else {
      var v := FieldOf(items[0]);
      if v.Ok? && v.value.None? {
        RunFieldLoopFrom(pre, items[1..]);
      } else if v.Ok? {
        var f := v.value.value;
        AddFieldLastWins(pre, f);
        AddFieldCapField(pre, f);
        assert AddField(st, f) == FieldLoop(LastWins(pre + [f]), CapFieldOf(pre + [f]));
        RunFieldLoopFrom(pre + [f], items[1..]);
        ContinuedAdd(pre, f, AcceptedFields(items[1..]));
      }
    }
  }

  /** The whole field loop: it raises the first exception an entry raises;
      otherwise it yields the accepted fields, each kept only if no later
      accepted field has the same name, and `cap_field` as `CapFieldOf`
      describes. */
  lemma FieldLoopSpec(items: seq<Json>)
    ensures RunFieldLoop(FieldLoop([], None), items) ==
      match AcceptedFields(items)
      case Err(e) => Err(e)
      case Ok(fs) => Ok(FieldLoop(LastWins(fs), CapFieldOf(fs)))
  {
    RunFieldLoopFrom([], items);
    if AcceptedFields(items).Ok? {
      assert [] + AcceptedFields(items).value == AcceptedFields(items).value;
    }
  }

  /** Every accepted field comes from an entry of the list, in order, and
      is a char, integer or date field with an identifier name. */
  lemma {:induction false} AcceptedFieldsSound(items: seq<Json>)
    requires AcceptedFields(items).Ok?
    ensures |AcceptedFields(items).value| <= |items|
    ensures forall f :: f in AcceptedFields(items).value ==>
      f.kind != AutoField && IsIdentifier(f.name) && exists i :: 0 <= i < |items| && FieldOf(items[i]) == Ok(Some(f))
    decreases |items|
  {
    if items != [] {
      AcceptedFieldsSound(items[1..]);
      forall f | f in AcceptedFields(items[1..]).value
        ensures exists i :: 0 <= i < |items| && FieldOf(items[i]) == Ok(Some(f))
      {
        var i :| 0 <= i < |items[1..]| && FieldOf(items[1..][i]) == Ok(Some(f));
        assert items[i + 1] == items[1..][i];
      }
      if FieldOf(items[0]).Ok? && FieldOf(items[0]).value.Some? {
        FieldOfAccepts(items[0], FieldOf(items[0]).value.value);
      }
    }
  }

  predicate DistinctNames(fs: seq<FieldDef>) {
    forall i, j :: 0 <= i < j < |fs| ==> fs[i].name != fs[j].name
  }

  /** With distinct names no field is overwritten. */
  lemma {:induction false} LastWinsDistinct(fs: seq<FieldDef>)
    requires DistinctNames(fs)
    ensures LastWins(fs) == fs
  {
    if fs != [] {
      assert DistinctNames(fs[1..]) by {
        forall i, j | 0 <= i < j < |fs[1..]| ensures fs[1..][i].name != fs[1..][j].name {
          assert fs[1..][i] == fs[i + 1] && fs[1..][j] == fs[j + 1];
        }
      }
      LastWinsDistinct(fs[1..]);
      assert fs[0].name !in Names(fs[1..]) by {
        forall i | 0 <= i < |fs[1..]| ensures fs[1..][i].name != fs[0].name { assert fs[1..][i] == fs[i + 1]; }
      }
      assert [fs[0]] + fs[1..] == fs;
    }
  }

  /** The reference list keeps one field per name, and that field is the
      last one of its name. */
  lemma {:induction false} LastWinsSpec(fs: seq<FieldDef>)
    ensures Names(LastWins(fs)) == Names(fs)
    ensures DistinctNames(LastWins(fs))
    ensures forall f :: f in LastWins(fs) ==> f in fs
    ensures forall i :: 0 <= i < |fs| && fs[i].name !in Names(fs[i + 1..]) ==> fs[i] in LastWins(fs)
  {
    if fs != [] {
      LastWinsSpec(fs[1..]);
      NamesSplit(fs);
      var head := if fs[0].name in Names(fs[1..]) then [] else [fs[0]];
      var r := LastWins(fs);
      assert r == head + LastWins(fs[1..]);
      if head != [] {
        NamesSplit(r);
        assert r[1..] == LastWins(fs[1..]);
        forall j | 0 < j < |r| ensures r[0].name != r[j].name {
          assert r[j] == r[1..][j - 1];
          assert r[j].name in Names(r[1..]);
        }
        forall i, j | 0 <= i < j < |r| ensures r[i].name != r[j].name {
          if i > 0 { assert r[i] == r[1..][i - 1] && r[j] == r[1..][j - 1]; }
        }
      } else {
        assert r == LastWins(fs[1..]);
      }
      forall i | 0 <= i < |fs| && fs[i].name !in Names(fs[i + 1..]) ensures fs[i] in r {
        if i == 0 {
          assert fs[1..] == fs[i + 1..];
        } else {
          assert fs[1..][i - 1] == fs[i];
          assert fs[1..][i - 1 + 1..] == fs[i + 1..];
        }
      }
    }
  }

  /** `cap_field` is the first non-empty accepted name. */
  lemma {:induction false} CapFieldIsFirstNamed(fs: seq<FieldDef>, i: int)
    requires 0 <= i < |fs| && fs[i].name != ""
    requires forall j :: 0 <= j < i ==> fs[j].name == ""
    ensures CapFieldOf(fs) == Some(fs[i].name)
  {
    if i > 0 {
      assert fs[1..][i - 1] == fs[i];
      CapFieldIsFirstNamed(fs[1..], i - 1);
    }
  }

  /** When every accepted name is empty, `cap_field` is the empty name, or
      absent if nothing was accepted. */
  lemma {:induction false} CapFieldWhenUnnamed(fs: seq<FieldDef>)
    requires forall j :: 0 <= j < |fs| ==> fs[j].name == ""
    ensures CapFieldOf(fs) == if fs == [] then None else Some("")
  {
    if fs != [] {
      CapFieldWhenUnnamed(fs[1..]);
    }
  }

  // ----- `cap_field` and `__str__` in `attr_dict` -----

  /** What `attr_dict` holds under `cap_field` or `__str__`: nothing yet, the
      first field name, the `__str__` lambda, or a Field object of a field
      that carries that very name. */
  datatype AttrSlot = Unset | NameText(text: string) | StrLambda | FieldObject

  /** `first_fld_name` and the two `attr_dict` entries `__str__` depends on. */
  datatype StrSlots = StrSlots(first: Option<string>, capField: AttrSlot, str: AttrSlot)

  /** One accepted field, statement by statement: while `first_fld_name` is
      falsy, `cap_field` and `__str__` are (re)assigned; then
      `attr_dict[fld_name]` takes the Field object, overwriting either entry
      when the field carries its name. */
  function StrStep(st: StrSlots, f: FieldDef): StrSlots {
    var st1 := if st.first == None || st.first == Some("") then StrSlots(Some(f.name), NameText(f.name), StrLambda) else st;
    StrStep2(st1, f)
  }

  function StrStep2(st: StrSlots, f: FieldDef): StrSlots {
    StrSlots(st.first, if f.name == "cap_field" then FieldObject else st.capField,
             if f.name == "__str__" then FieldObject else st.str)
  }

  /** The two entries after the accepted fields `fs`, in order. */
  function SlotsAfter(fs: seq<FieldDef>): StrSlots
    decreases |fs|
  {
    if fs == [] then StrSlots(None, Unset, Unset) else StrStep(SlotsAfter(fs[..|fs| - 1]), fs[|fs| - 1])
  }

  /** How `str()` of an instance is computed: Django's `<Name> object`, the
      attribute named by the class attribute `cap_field`, or, when a field
      is itself named `cap_field`, the attribute named by that field's
      value. */
  datatype Display = DefaultStr | CapAttr(attr: string) | CapFieldValue

  /** `str()` of the class built from the two entries: the lambda only
      survives when no field is named `__str__` (a Field object is not kept
      as a class attribute, so Django's default applies). */
  function SlotsDisplay(st: StrSlots): Display {
    if st.str != StrLambda then DefaultStr
    else if st.capField.NameText? then CapAttr(st.capField.text)
    else CapFieldValue
  }

  /** The same, read off a synthesised model. */
  function DisplayOf(m: ModelDef): Display {
    if m.capField.None? || "__str__" in Names(m.fields) then DefaultStr
    else if "cap_field" in Names(m.fields) then CapFieldValue
    else CapAttr(m.capField.value)
  }

  lemma {:induction false} CapFieldFalsyNames(fs: seq<FieldDef>)
    requires CapFieldOf(fs) == None || CapFieldOf(fs) == Some("")
    ensures forall i :: 0 <= i < |fs| ==> fs[i].name == ""
  {
    if fs != [] {
      CapFieldFalsyNames(fs[1..]);
      forall i | 1 <= i < |fs| ensures fs[i].name == "" { assert fs[i] == fs[1..][i - 1]; }
    }
  }

  /** The closed form of the two entries after the accepted fields `fs`. */
  predicate SlotsClosed(fs: seq<FieldDef>, st: StrSlots) {
    st.first == CapFieldOf(fs)
    && st.capField == (if fs == [] then Unset else if "cap_field" in Names(fs) then FieldObject else NameText(CapFieldOf(fs).value))
    && st.str == (if fs == [] then Unset else if "__str__" in Names(fs) then FieldObject else StrLambda)
  }

  /** One more field keeps the closed form. */
  lemma SlotsStep(p: seq<FieldDef>, f: FieldDef)
    requires SlotsClosed(p, SlotsAfter(p))
    ensures SlotsClosed(p + [f], StrStep(SlotsAfter(p), f))
  {
    AddFieldCapField(p, f);
    NamesSnoc(p, f);
    if CapFieldOf(p) == None || CapFieldOf(p) == Some("") {
      CapFieldFalsyNames(p);
      assert "cap_field" !in Names(p) && "__str__" !in Names(p);
    }
  }

  /** After the accepted fields `fs`, `first_fld_name` is `CapFieldOf(fs)`;
      `cap_field` holds a Field object exactly when some field is named
      `cap_field`, and otherwise that first name; `__str__` holds a Field
      object exactly when some field is named `__str__`, and otherwise the
      lambda. */
  lemma {:induction false} SlotsAfterSpec(fs: seq<FieldDef>)
    ensures SlotsAfter(fs).first == CapFieldOf(fs)
    ensures SlotsAfter(fs).capField ==
      if fs == [] then Unset else if "cap_field" in Names(fs) then FieldObject else NameText(CapFieldOf(fs).value)
    ensures SlotsAfter(fs).str ==
      if fs == [] then Unset else if "__str__" in Names(fs) then FieldObject else StrLambda
    decreases |fs|
  {
    if fs != [] {
      var p := fs[..|fs| - 1];
      var f := fs[|fs| - 1];
      assert fs == p + [f];
      SlotsAfterSpec(p);
      SlotsStep(p, f);
    }
  }

  /** A reserved-free name is among the names exactly when it was before
      the reserved ones were dropped. */
  lemma {:induction false} WithoutReservedNames(fs: seq<FieldDef>, x: string)
    requires x !in ReservedAttrs
    ensures x in Names(WithoutReserved(fs)) <==> x in Names(fs)
  {
    if fs != [] {
      WithoutReservedNames(fs[1..], x);
      NamesSplit(fs);
      var w := WithoutReserved(fs);
      if fs[0].name in ReservedAttrs {
        assert w == WithoutReserved(fs[1..]);
      } else {
        assert w == [fs[0]] + WithoutReserved(fs[1..]);
        assert w[0] == fs[0] && w[1..] == WithoutReserved(fs[1..]);
        NamesSplit(w);
      }
    }
  }

  /** What `str()` a model built from the accepted fields `fs` computes is
      what the two `attr_dict` entries say after the field loop. */
  lemma ModelDisplay(fs: seq<FieldDef>, m: ModelDef)
    requires m.fields == [IdField] + WithoutReserved(LastWins(fs)) && m.capField == CapFieldOf(fs)
    ensures DisplayOf(m) == SlotsDisplay(SlotsAfter(fs))
  {
    SlotsAfterSpec(fs);
    var w := WithoutReserved(LastWins(fs));
    assert Names(LastWins(fs)) == Names(fs) by { LastWinsSpec(fs); }
    WithoutReservedNames(LastWins(fs), "cap_field");
    WithoutReservedNames(LastWins(fs), "__str__");
    assert Names(m.fields) == {"id"} + Names(w) by {
      NamesSplit(m.fields);
      assert m.fields[1..] == w;
    }
    assert "cap_field" in Names(m.fields) <==> "cap_field" in Names(fs);
    assert "__str__" in Names(m.fields) <==> "__str__" in Names(fs);
  }

  // ----- one entity -----

  function WithoutReserved(fs: seq<FieldDef>): seq<FieldDef> {
    if fs == [] then [] else (if fs[0].name in ReservedAttrs then [] else [fs[0]]) + WithoutReserved(fs[1..])
  }

  /** With no reserved name among the fields nothing is dropped. */
  lemma {:induction false} WithoutReservedNone(fs: seq<FieldDef>)
    requires forall i :: 0 <= i < |fs| ==> fs[i].name !in ReservedAttrs
    ensures WithoutReserved(fs) == fs
  {
    if fs != [] {
      assert forall i :: 0 <= i < |fs[1..]| ==> fs[1..][i] == fs[i + 1];
      WithoutReservedNone(fs[1..]);
      assert [fs[0]] + fs[1..] == fs;
    }
  }

  /** One iteration of the entity loop for `model_name: model_attrs`. */
  function ModelFor(name: string, attrs: Json): (r: Result<Option<ModelDef>, PyError>)
    ensures r == Err(AttributeError) <==> !attrs.JObj?
    ensures r.Err? ==> r.error == AttributeError || r.error == TypeError
    ensures r.Ok? && r.value.Some? ==>
      r.value.value.name == Capitalize(Clean(name)) && |r.value.value.fields| >= 1 && r.value.value.fields[0] == IdField
  {
    if !attrs.JObj? then Err(AttributeError)
    else
      var cleaned := CleanKeys(attrs.members);
      if CheckKeys(JObj(cleaned), RequiredModelKeys) != Ok(true) then Ok(None)
      else
        assert "title" in RequiredModelKeys && "fields" in RequiredModelKeys;
        match Iterate(Lookup(cleaned, "fields").value)
        case Err(e) => Err(e)
        case Ok(items) =>
          match RunFieldLoop(FieldLoop([], None), items)
          case Err(e) => Err(e)
          case Ok(st) =>
            Ok(Some(ModelDef(Capitalize(Clean(name)), PluralTitle(Capitalize(Clean(name)), Lookup(cleaned, "title").value),
                             [IdField] + WithoutReserved(st.fields), st.firstName)))
  }

  /** `Meta.verbose_name_plural` as Django 1.6's `Options` keeps it: a `None`
      title is replaced by the class's verbose name followed by `s`. Django
      derives that verbose name by putting a space before inner capitals and
      lower-casing; a capitalised class name has no inner capital, so it is
      the lower-cased name. */
  function PluralTitle(className: string, title: Json): (r: Json)
    ensures r != JNull
    ensures title != JNull ==> r == title
  {
    if title == JNull then JStr(Lower(className) + "s") else title
  }

  /** An entity is skipped exactly when, after cleaning its keys, it lacks
      `title` or `fields`; an entity that is not an object raises. */
  lemma ModelSkippedIff(name: string, attrs: Json)
    ensures !attrs.JObj? ==> ModelFor(name, attrs) == Err(AttributeError)
    ensures attrs.JObj? ==>
      (ModelFor(name, attrs) == Ok(None) <==>
        !("title" in Keys(CleanKeys(attrs.members)) && "fields" in Keys(CleanKeys(attrs.members))))
  {
    assert "title" in RequiredModelKeys && "fields" in RequiredModelKeys;
  }

  /** A synthesised model: its name is the capitalised cleaned entity name,
      its plural title is the (cleaned-key) `title`, or the lower-cased name
      followed by `s` when that title is null, its fields are the
      primary key followed by the accepted fields, last one per name, minus
      the names `attr_dict.update` overwrites, and its `cap_field` is the
      first non-empty accepted name. */
  lemma ModelShape(name: string, attrs: Json, m: ModelDef)
    requires ModelFor(name, attrs) == Ok(Some(m))
    ensures attrs.JObj?
    ensures var cleaned := CleanKeys(attrs.members);
      "title" in Keys(cleaned) && "fields" in Keys(cleaned)
      && (Lookup(cleaned, "title").value != JNull ==> m.pluralTitle == Lookup(cleaned, "title").value)
      && (Lookup(cleaned, "title").value == JNull ==> m.pluralTitle == JStr(Lower(m.name) + "s"))
      && Iterate(Lookup(cleaned, "fields").value).Ok?
      && var items := Iterate(Lookup(cleaned, "fields").value).value;
         AcceptedFields(items).Ok?
         && m.fields == [IdField] + WithoutReserved(LastWins(AcceptedFields(items).value))
         && m.capField == CapFieldOf(AcceptedFields(items).value)
         && DisplayOf(m) == SlotsDisplay(SlotsAfter(AcceptedFields(items).value))
    ensures m.name == Capitalize(Clean(name))
  {
    ModelSkippedIff(name, attrs);
    var cleaned := CleanKeys(attrs.members);
    var items := Iterate(Lookup(cleaned, "fields").value).value;
    FieldLoopSpec(items);
    ModelDisplay(AcceptedFields(items).value, m);
  }

  /** The model's name is an identifier whose lower-case form, the registry
      key, is the lower-case of the cleaned entity name; its user fields have
      distinct identifier names of char, integer or date class, none of them
      a reserved attribute name. */
  lemma ModelWellFormed(name: string, attrs: Json, m: ModelDef)
    requires ModelFor(name, attrs) == Ok(Some(m))
    ensures IsIdentifier(m.name) && Lower(m.name) == Lower(Clean(name))
    ensures |m.fields| >= 1 && m.fields[0] == IdField
    ensures forall f :: f in m.fields[1..] ==>
      IsIdentifier(f.name) && f.kind != AutoField && f.name !in ReservedAttrs
    ensures DistinctNames(m.fields[1..])
    ensures m.capField.Some? ==> IsIdentifier(m.capField.value)
  {
    ModelShape(name, attrs, m);
    CapitalizeKeepsIdentifier(Clean(name));
    LowerOfCapitalize(Clean(name));
    var cleaned := CleanKeys(attrs.members);
    var items := Iterate(Lookup(cleaned, "fields").value).value;
    var fs := AcceptedFields(items).value;
    AcceptedFieldsSound(items);
    UserFieldsWellFormed(fs);
    assert m.fields[1..] == WithoutReserved(LastWins(fs));
    CapFieldIdentifier(fs);
  }

  /** The user fields of a model built from accepted fields `fs`. */
  lemma UserFieldsWellFormed(fs: seq<FieldDef>)
    requires forall f :: f in fs ==> f.kind != AutoField && IsIdentifier(f.name)
    ensures forall f :: f in WithoutReserved(LastWins(fs)) ==>
      IsIdentifier(f.name) && f.kind != AutoField && f.name !in ReservedAttrs
    ensures DistinctNames(WithoutReserved(LastWins(fs)))
  {
    LastWinsSpec(fs);
    WithoutReservedSpec(LastWins(fs));
  }

  lemma {:induction false} CapFieldIdentifier(fs: seq<FieldDef>)
    requires forall f :: f in fs ==> IsIdentifier(f.name)
    ensures CapFieldOf(fs).Some? ==> IsIdentifier(CapFieldOf(fs).value)
  {
    if fs != [] {
      assert fs[0] in fs;
      CapFieldIdentifier(fs[1..]);
    }
  }

  /** Dropping the reserved names keeps a subsequence with no reserved name,
      and keeps names distinct. */
  lemma {:induction false} WithoutReservedSpec(fs: seq<FieldDef>)
    ensures forall f :: f in WithoutReserved(fs) ==> f in fs && f.name !in ReservedAttrs
    ensures DistinctNames(fs) ==> DistinctNames(WithoutReserved(fs))
  {
    if fs != [] {
      WithoutReservedSpec(fs[1..]);
      var r := WithoutReserved(fs);
      var tail := WithoutReserved(fs[1..]);
      if DistinctNames(fs) {
        assert DistinctNames(fs[1..]) by {
          forall i, j | 0 <= i < j < |fs[1..]| ensures fs[1..][i].name != fs[1..][j].name {
            assert fs[1..][i] == fs[i + 1] && fs[1..][j] == fs[j + 1];
          }
        }
        if fs[0].name !in ReservedAttrs {
          assert r == [fs[0]] + tail;
          forall i, j | 0 <= i < j < |r| ensures r[i].name != r[j].name {
            if i == 0 {
              assert r[j] == tail[j - 1] && tail[j - 1] in fs[1..];
              var k :| 0 <= k < |fs[1..]| && fs[1..][k] == r[j];
              assert fs[k + 1] == r[j];
            } else {
              assert r[i] == tail[i - 1] && r[j] == tail[j - 1];
            }
          }
        } else {
          assert r == tail;
        }
      }
    }
  }

  // ----- the entity loop -----

  /** What one iteration of the entity loop does: skip, synthesise, raise. */
  type Verdict = Result<Option<ModelDef>, PyError>

  function Verdicts(entries: Dict<Json>): seq<Verdict> {
    seq(|entries|, i requires 0 <= i < |entries| => ModelFor(entries[i].0, entries[i].1))
  }

  /** What `load` leaves behind: the models it synthesised in order, and the
      exception that stopped it, if any. */
  datatype Outcome = Outcome(models: seq<ModelDef>, raised: Option<PyError>)

  /** The entity loop, one verdict after the other, from the models `done`. */
  function RunVerdicts(done: seq<ModelDef>, vs: seq<Verdict>): (r: Outcome)
    ensures |done| <= |r.models| <= |done| + |vs|
    decreases |vs|
  {
    if vs == [] then Outcome(done, None)
    else
      match vs[0]
      case Err(e) => Outcome(done, Some(e))
      case Ok(None) => RunVerdicts(done, vs[1..])
      case Ok(Some(m)) => RunVerdicts(done + [m], vs[1..])
  }

  /** `load` on the loader's content: `.items()` on anything but an object
      raises AttributeError before any entity is looked at. */
  function Synthesize(content: Json): (r: Outcome)
    ensures |r.models| <= if content.JObj? then |content.members| else 0
    ensures r.raised.None? ==> content.JObj?
  {
    if content.JObj? then RunVerdicts([], Verdicts(content.members)) else Outcome([], Some(AttributeError))
  }

  /** The models of the entities that are not skipped, in order. */
  function Accepted(vs: seq<Verdict>): seq<ModelDef>
    decreases |vs|
  {
    if vs == [] then []
    else (if vs[0].Ok? && vs[0].value.Some? then [vs[0].value.value] else []) + Accepted(vs[1..])
  }

  function AcceptedModels(entries: Dict<Json>): seq<ModelDef> {
    Accepted(Verdicts(entries))
  }

  predicate NoneRaised(vs: seq<Verdict>) {
    forall i :: 0 <= i < |vs| ==> vs[i].Ok?
  }

  lemma {:induction false} RunAllOk(done: seq<ModelDef>, vs: seq<Verdict>)
    requires NoneRaised(vs)
    ensures RunVerdicts(done, vs) == Outcome(done + Accepted(vs), None)
    decreases |vs|
  {
    if vs == [] {
      assert done + [] == done;
    } else {
      var head := if vs[0].value.Some? then [vs[0].value.value] else [];
      var next := if vs[0].value.Some? then done + [vs[0].value.value] else done;
      assert NoneRaised(vs[1..]) by {
        forall i | 0 <= i < |vs[1..]| ensures vs[1..][i].Ok? { assert vs[1..][i] == vs[i + 1]; }
      }
      assert Accepted(vs) == head + Accepted(vs[1..]);
      RunAllOk(next, vs[1..]);
      assert next + Accepted(vs[1..]) == done + (head + Accepted(vs[1..]));
    }
  }

  lemma {:induction false} RunStops(done: seq<ModelDef>, vs: seq<Verdict>, k: int)
    requires 0 <= k < |vs| && vs[k].Err? && NoneRaised(vs[..k])
    ensures RunVerdicts(done, vs) == Outcome(done + Accepted(vs[..k]), Some(vs[k].error))
    decreases k
  {
    if k == 0 {
      assert vs[..0] == [];
      assert done + [] == done;
    } else {
      assert vs[0] == vs[..k][0];
      var head := if vs[0].value.Some? then [vs[0].value.value] else [];
      var next := if vs[0].value.Some? then done + [vs[0].value.value] else done;
      var rest := vs[1..];
      assert rest[k - 1] == vs[k];
      assert rest[..k - 1] == vs[..k][1..];
      assert NoneRaised(rest[..k - 1]) by {
        forall i | 0 <= i < k - 1 ensures vs[..k][1..][i].Ok? { assert vs[..k][1..][i] == vs[..k][i + 1]; }
      }
      assert Accepted(vs[..k]) == head + Accepted(vs[..k][1..]);
      RunStops(next, rest, k - 1);
      assert next + Accepted(rest[..k - 1]) == done + (head + Accepted(rest[..k - 1]));
    }
  }

  /** When no entity raises, `load` synthesises exactly the models of the
      entities it does not skip, in document order. */
  lemma SynthesizeCompletes(entries: Dict<Json>)
    requires forall i :: 0 <= i < |entries| ==> ModelFor(entries[i].0, entries[i].1).Ok?
    ensures Synthesize(JObj(entries)) == Outcome(AcceptedModels(entries), None)
  {
    var vs := Verdicts(entries);
    assert NoneRaised(vs);
    RunAllOk([], vs);
    assert [] + Accepted(vs) == Accepted(vs);
  }

  /** When entity `k` is the first to raise, the models of the entities before
      it have been synthesised and the exception propagates. */
  lemma SynthesizeStops(entries: Dict<Json>, k: int)
    requires 0 <= k < |entries| && ModelFor(entries[k].0, entries[k].1).Err?
    requires forall i :: 0 <= i < k ==> ModelFor(entries[i].0, entries[i].1).Ok?
    ensures Synthesize(JObj(entries)) ==
      Outcome(AcceptedModels(entries[..k]), Some(ModelFor(entries[k].0, entries[k].1).error))
  {
    var vs := Verdicts(entries);
    assert Verdicts(entries[..k]) == vs[..k];
    assert NoneRaised(vs[..k]) by {
      forall i | 0 <= i < k ensures vs[..k][i].Ok? { assert vs[..k][i] == vs[i]; }
    }
    RunStops([], vs, k);
    assert [] + Accepted(vs[..k]) == Accepted(vs[..k]);
  }

  /** A document that does not parse loads nothing and raises nothing. */
  lemma UnparsableLoadsNothing()
    ensures Synthesize(GetContent(None)) == Outcome([], None)
  {
  }

  lemma {:induction false} AcceptedConcat(a: seq<Verdict>, b: seq<Verdict>)
    ensures Accepted(a + b) == Accepted(a) + Accepted(b)
  {
    if a == [] {
      assert a + b == b;
    } else {
      assert (a + b)[0] == a[0];
      assert (a + b)[1..] == a[1..] + b;
      AcceptedConcat(a[1..], b);
    }
  }

  lemma VerdictsConcat(a: Dict<Json>, b: Dict<Json>)
    ensures Verdicts(a + b) == Verdicts(a) + Verdicts(b)
  {
    var l, r := Verdicts(a + b), Verdicts(a) + Verdicts(b);
    forall i | 0 <= i < |l| ensures l[i] == r[i] {
      if i < |a| { assert (a + b)[i] == a[i]; } else { assert (a + b)[i] == b[i - |a|]; }
    }
  }

  lemma AcceptedSkip(a: seq<Verdict>, b: seq<Verdict>)
    ensures Accepted(a + [Ok(None)] + b) == Accepted(a + b)
  {
    var skip: seq<Verdict> := [Ok(None)];
    AcceptedConcat(a + skip, b);
    AcceptedConcat(a, skip);
    AcceptedConcat(a, b);
    assert Accepted(skip) == [];
  }

  /** A skipped entity has no effect on what the rest of the load synthesises. */
  lemma SkippedEntityIsInvisible(pre: Dict<Json>, e: (string, Json), post: Dict<Json>)
    requires ModelFor(e.0, e.1) == Ok(None)
    ensures AcceptedModels(pre + [e] + post) == AcceptedModels(pre + post)
  {
    VerdictsConcat(pre + [e], post);
    VerdictsConcat(pre, [e]);
    VerdictsConcat(pre, post);
    assert Verdicts([e]) == [Ok(None)];
    AcceptedSkip(Verdicts(pre), Verdicts(post));
  }
}
