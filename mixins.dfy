/** The view mixins of myapp/mixins.py: the registry lookup behind every
    entity view, the serialiser of a model and its rows, the list response
    with its two URLs, and the response to an invalid form. */
module Mixins {
  import opened Wrappers
  import opened Identifiers
  import opened PyDict
  import opened JsonValue
  import opened Schema
  import opened Records
  import opened Loader

  // ----- serialize -----

  /** `field.__class__.__name__`. */
  function ClassName(k: FieldKind): string {
    match k
    case AutoField => "AutoField"
    case CharField => "CharField"
    case IntegerField => "IntegerField"
    case DateField => "DateField"
  }

  /** `field.__class__.__name__[:-5]`: the class name without its last five
      characters, which are always `Field`. */
  function KindTag(k: FieldKind): (tag: string)
    ensures tag + "Field" == ClassName(k)
  {
    var n := ClassName(k);
    n[..|n| - 5]
  }

  /** Different field classes get different tags. */
  lemma KindTagInjective(a: FieldKind, b: FieldKind)
    requires KindTag(a) == KindTag(b)
    ensures a == b
  {
    assert ClassName(a) == KindTag(a) + "Field" == KindTag(b) + "Field" == ClassName(b);
  }

  function Spaced(s: string): string {
    seq(|s|, i requires 0 <= i < |s| => if s[i] == '_' then ' ' else s[i])
  }

  /** `verbose_name` of a field: the title it was created with, or, when that
      was null, its name with underscores turned into spaces. */
  function VerboseName(f: FieldDef): (r: Json)
    ensures !f.verboseName.JNull? ==> r == f.verboseName
    ensures f.verboseName.JNull? && f.name != "" ==>
      r.JStr? && |r.s| == |f.name| && '_' !in r.s
      && forall i :: 0 <= i < |f.name| ==> r.s[i] == (if f.name[i] == '_' then ' ' else f.name[i])
  {
    if f.verboseName.JNull? && f.name != "" then JStr(Spaced(f.name)) else f.verboseName
  }

  /** `[name, verbose_name, kind]` for one field. */
  function FieldTriple(f: FieldDef): Json {
    JArr([JStr(f.name), VerboseName(f), JStr(KindTag(f.kind))])
  }

  /** `fields_map`. */
  function FieldTriples(fields: seq<FieldDef>): seq<Json> {
    seq(|fields|, i requires 0 <= i < |fields| => FieldTriple(fields[i]))
  }

  /** `fields_map` has one `[name, verbose_name, kind]` triple per field, in
      field order, whose kind followed by `Field` is the field's class name. */
  lemma FieldTriplesSpec(fields: seq<FieldDef>)
    ensures |FieldTriples(fields)| == |fields|
    ensures forall i :: 0 <= i < |fields| ==>
      var t := FieldTriples(fields)[i];
      t.JArr? && |t.items| == 3 && t.items[0] == JStr(fields[i].name) && t.items[1] == VerboseName(fields[i])
      && t.items[2].JStr? && t.items[2].s + "Field" == ClassName(fields[i].kind)
  {
  }

  /** `str(getattr(obj, name, ""))`. */
  function AttrText(rec: map<string, Value>, name: string): string {
    if name in rec then ValueText(rec[name]) else ""
  }

  /** `obj_data` once the inner loop has visited `fs`. */
  function ObjData(fs: seq<FieldDef>, rec: map<string, Value>): (r: Dict<Json>)
    ensures DistinctKeys(r) && |r| <= |fs|
    decreases |fs|
  {
    if fs == [] then []
    else
      var f := fs[|fs| - 1];
      SetShape(ObjData(fs[..|fs| - 1], rec), f.name, JStr(AttrText(rec, f.name)));
      Set(ObjData(fs[..|fs| - 1], rec), f.name, JStr(AttrText(rec, f.name)))
  }

  /** The `data` list: one `obj_data` per row. */
  function DataRows(fields: seq<FieldDef>, queryset: seq<map<string, Value>>): seq<Json> {
    seq(|queryset|, j requires 0 <= j < |queryset| => JObj(ObjData(fields, queryset[j])))
  }

  /** The dict `serialize` passes to `json.dumps`. */
  function Serialized(fields: seq<FieldDef>, queryset: seq<map<string, Value>>, extra: Dict<Json>): (r: Dict<Json>)
    ensures |r| >= 2 && r[0].0 == "fields" && r[1].0 == "data" && DistinctKeys(r)
  {
    UpdateShape([("fields", JArr(FieldTriples(fields))), ("data", JArr(DataRows(fields, queryset)))], extra);
    Update([("fields", JArr(FieldTriples(fields))), ("data", JArr(DataRows(fields, queryset)))], extra)
  }

  /** An `obj_data` entry has exactly one key per field name, each mapped to
      the string form of the attribute (the empty string when it is absent). */
  lemma {:induction false} ObjDataSpec(fs: seq<FieldDef>, rec: map<string, Value>, k: string)
    ensures Keys(ObjData(fs, rec)) == Names(fs)
    ensures DistinctKeys(ObjData(fs, rec))
    ensures k in Names(fs) ==> Lookup(ObjData(fs, rec), k) == Some(JStr(AttrText(rec, k)))
    decreases |fs|
  {
    if fs != [] {
      var p := fs[..|fs| - 1];
      var f := fs[|fs| - 1];
      ObjDataSpec(p, rec, k);
      assert fs == p + [f];
      NamesSnoc(p, f);
      SetShape(ObjData(p, rec), f.name, JStr(AttrText(rec, f.name)));
      SetLookup(ObjData(p, rec), f.name, JStr(AttrText(rec, f.name)), k);
    }
  }

  /** With distinct field names, the keys of an `obj_data` entry come in
      field order. */
  lemma {:induction false} ObjDataOrder(fs: seq<FieldDef>, rec: map<string, Value>)
    requires DistinctNames(fs)
    ensures |ObjData(fs, rec)| == |fs|
    ensures forall i :: 0 <= i < |fs| ==> ObjData(fs, rec)[i] == (fs[i].name, JStr(AttrText(rec, fs[i].name)))
    decreases |fs|
  {
    if fs != [] {
      var p := fs[..|fs| - 1];
      var f := fs[|fs| - 1];
      assert DistinctNames(p) by {
        forall a, b | 0 <= a < b < |p| ensures p[a].name != p[b].name { assert p[a] == fs[a] && p[b] == fs[b]; }
      }
      ObjDataOrder(p, rec);
      ObjDataSpec(p, rec, f.name);
      forall i | 0 <= i < |p| ensures p[i].name != f.name {
        assert p[i] == fs[i];
      }
    }
  }

  /** Row `j` of `data` describes `queryset[j]`: one key per field name,
      each holding the string form of that attribute. */
  lemma DataRowSpec(fields: seq<FieldDef>, queryset: seq<map<string, Value>>, j: int, k: string)
    requires 0 <= j < |queryset|
    ensures DataRows(fields, queryset)[j].JObj?
    ensures Keys(DataRows(fields, queryset)[j].members) == Names(fields)
    ensures k in Names(fields) ==>
      Lookup(DataRows(fields, queryset)[j].members, k) == Some(JStr(AttrText(queryset[j], k)))
  {
    ObjDataSpec(fields, queryset[j], k);
  }

  /** The serialised result: `fields` and `data` come first; its keys are
      those two and the extra keyword arguments; an extra argument overrides
      `fields` or `data` of the same name; otherwise `fields` holds one
      triple per field in field order and `data` one entry per row in
      queryset order. */
  lemma SerializedShape(fields: seq<FieldDef>, queryset: seq<map<string, Value>>, extra: Dict<Json>, k: string)
    ensures var res := Serialized(fields, queryset, extra);
      Keys(res) == {"fields", "data"} + Keys(extra)
      && DistinctKeys(res)
      && |res| >= 2 && res[0].0 == "fields" && res[1].0 == "data"
      && (k in Keys(extra) ==> Lookup(res, k) == Lookup(extra, k))
    ensures "fields" !in Keys(extra) ==>
      Lookup(Serialized(fields, queryset, extra), "fields") == Some(JArr(FieldTriples(fields)))
    ensures "data" !in Keys(extra) ==>
      Lookup(Serialized(fields, queryset, extra), "data") == Some(JArr(DataRows(fields, queryset)))
    ensures |FieldTriples(fields)| == |fields| && |DataRows(fields, queryset)| == |queryset|
  {
    var base := [("fields", JArr(FieldTriples(fields))), ("data", JArr(DataRows(fields, queryset)))];
    assert Keys(base) == {"fields", "data"} by {
      assert base[0].0 == "fields" && base[1].0 == "data";
    }
    UpdateShape(base, extra);
    UpdateLookup(base, extra, k);
    UpdateLookup(base, extra, "fields");
    UpdateLookup(base, extra, "data");
    assert base[..1] == [base[0]];
  }

  /** `ActionMixin.serialize`, before `json.dumps`: the field triples, then
      the rows built field by field, then the extra keyword arguments. */
  method Serialize(model: ModelDef, queryset: seq<map<string, Value>>, extra: Dict<Json>) returns (res: Dict<Json>)
    ensures res == Serialized(model.fields, queryset, extra)
  {
    var fieldsMap := FieldTriples(model.fields);
    var data: seq<Json> := [];
    var j := 0;
    while j < |queryset|
      invariant 0 <= j <= |queryset|
      invariant data == DataRows(model.fields, queryset[..j])
    {
      var obj := queryset[j];
      var objData: Dict<Json> := [];
      var i := 0;
      while i < |model.fields|
        invariant 0 <= i <= |model.fields|
        invariant objData == ObjData(model.fields[..i], obj)
      {
        assert model.fields[..i + 1][..i] == model.fields[..i];
        var name := model.fields[i].name;
        objData := Set(objData, name, JStr(AttrText(obj, name)));
        i := i + 1;
      }
      assert model.fields[..i] == model.fields;
      assert queryset[..j + 1][..j] == queryset[..j];
      data := data + [JObj(objData)];
      j := j + 1;
    }
    assert queryset[..j] == queryset;
    res := [("fields", JArr(fieldsMap)), ("data", JArr(data))];
    res := Update(res, extra);
  }

  // ----- the views' state and responses -----

  /** A URL keyword argument, as the resolver captured it or the view set it. */
  datatype UrlArg = Text(s: string) | Number(n: int)

  datatype Http404 = Http404

  datatype Response = Response(status: int, contentType: string, headers: map<string, string>, body: Json)

  /** `self.kwargs["entity"]` as a registry key; `None` when it is missing
      or not a string (either way the lookup raises KeyError). */
  function EntityKey(kwargs: map<string, UrlArg>): Option<string> {
    if "entity" in kwargs && kwargs["entity"].Text? then Some(kwargs["entity"].s) else None
  }

  /** `MODELS_MAP[self.kwargs["entity"]]`, with KeyError turned into 404. */
  function FindModel(modelsMap: map<string, ModelDef>, kwargs: map<string, UrlArg>): (r: Result<ModelDef, Http404>)
    ensures r.Ok? <==> "entity" in kwargs && kwargs["entity"].Text? && kwargs["entity"].s in modelsMap
    ensures r.Ok? ==> r.value in modelsMap.Values
  {
    match EntityKey(kwargs)
    case None => Err(Http404)
    case Some(k) => if k in modelsMap then Ok(modelsMap[k]) else Err(Http404)
  }

  /** The stored rows of model `name`, in the order they were first written. */
  function Written(saved: seq<(string, map<string, Value>)>, name: string): (r: seq<map<string, Value>>)
    ensures |r| <= |saved|
    ensures forall x :: x in r <==> (name, x) in saved
    decreases |saved|
  {
    if saved == [] then []
    else (if saved[0].0 == name then [saved[0].1] else []) + Written(saved[1..], name)
  }

  /** The value `ordering = ("id",)` sorts a row by. */
  function IdKey(rec: map<string, Value>): int {
    if "id" in rec && rec["id"].Int? then rec["id"].n else 0
  }

  predicate SortedById(rows: seq<map<string, Value>>) {
    forall i, j :: 0 <= i < j < |rows| ==> IdKey(rows[i]) <= IdKey(rows[j])
  }

  /** `rec` placed before the first row with a larger `id`. */
  function InsertById(rec: map<string, Value>, rows: seq<map<string, Value>>): seq<map<string, Value>>
    decreases |rows|
  {
    if rows == [] then [rec]
    else if IdKey(rec) <= IdKey(rows[0]) then [rec] + rows
    else [rows[0]] + InsertById(rec, rows[1..])
  }

  lemma SortedTail(rows: seq<map<string, Value>>)
    requires SortedById(rows) && rows != []
    ensures SortedById(rows[1..])
    ensures forall y :: y in rows[1..] ==> IdKey(rows[0]) <= IdKey(y)
  {
    forall a, b | 0 <= a < b < |rows[1..]| ensures IdKey(rows[1..][a]) <= IdKey(rows[1..][b]) {
      assert rows[1..][a] == rows[a + 1] && rows[1..][b] == rows[b + 1];
    }
    forall y | y in rows[1..] ensures IdKey(rows[0]) <= IdKey(y) {
      var k :| 0 <= k < |rows[1..]| && rows[1..][k] == y;
      assert rows[k + 1] == y;
    }
  }

  lemma SortedCons(x: map<string, Value>, t: seq<map<string, Value>>)
    requires SortedById(t) && forall y :: y in t ==> IdKey(x) <= IdKey(y)
    ensures SortedById([x] + t)
  {
    var r := [x] + t;
    forall a, b | 0 <= a < b < |r| ensures IdKey(r[a]) <= IdKey(r[b]) {
      assert r[b] == t[b - 1] && t[b - 1] in t;
      if a > 0 { assert r[a] == t[a - 1]; }
    }
  }

  /** Inserting into sorted rows keeps them sorted and adds exactly `rec`. */
  lemma {:induction false} InsertByIdSpec(rec: map<string, Value>, rows: seq<map<string, Value>>)
    requires SortedById(rows)
    ensures SortedById(InsertById(rec, rows))
    ensures multiset(InsertById(rec, rows)) == multiset(rows) + multiset{rec}
    decreases |rows|
  {
    if rows == [] {
    } else if IdKey(rec) <= IdKey(rows[0]) {
      SortedCons(rec, rows);
    } else {
      SortedTail(rows);
      InsertByIdSpec(rec, rows[1..]);
      var t := InsertById(rec, rows[1..]);
      assert rows == [rows[0]] + rows[1..];
      forall y | y in t ensures IdKey(rows[0]) <= IdKey(y) {
        assert y in multiset(t);
      }
      SortedCons(rows[0], t);
    }
  }

  /** Insertion sort by `id`. */
  function SortById(rows: seq<map<string, Value>>): seq<map<string, Value>>
    decreases |rows|
  {
    if rows == [] then [] else InsertById(rows[0], SortById(rows[1..]))
  }

  /** Sorting yields rows sorted by `id`, the same rows as before. */
  lemma {:induction false} SortByIdSpec(rows: seq<map<string, Value>>)
    ensures SortedById(SortById(rows))
    ensures multiset(SortById(rows)) == multiset(rows)
    decreases |rows|
  {
    if rows != [] {
      SortByIdSpec(rows[1..]);
      InsertByIdSpec(rows[0], SortById(rows[1..]));
      assert rows == [rows[0]] + rows[1..];
    }
  }

  /** `model.objects.all()` under `ordering = ("id",)`: the stored rows of
      that model, by ascending primary key. */
  function ObjectsOf(saved: seq<(string, map<string, Value>)>, name: string): (r: seq<map<string, Value>>)
    ensures SortedById(r)
    ensures multiset(r) == multiset(Written(saved, name))
    ensures |r| <= |saved|
    ensures forall x :: x in r <==> (name, x) in saved
  {
    var w := Written(saved, name);
    SortByIdSpec(w);
    var r := SortById(w);
    assert |r| == |multiset(r)| == |w|;
    assert forall x :: x in r <==> x in multiset(w);
    r
  }

  /** `render_to_json(context, status=...)`. */
  function RenderToJson(context: Json, status: int): (r: Response)
    ensures r.status == status && r.body == context
    ensures r.contentType == "application/json" && r.headers == map[]
  {
    Response(status, "application/json", map[], context)
  }

  /** The body `form_invalid` sends: each field with its error messages. */
  function ErrorsBody(errors: Dict<seq<string>>): (r: Dict<Json>)
    ensures |r| == |errors|
    ensures forall i :: 0 <= i < |errors| ==>
      r[i].0 == errors[i].0 && r[i].1.JArr? && |r[i].1.items| == |errors[i].1|
      && forall j :: 0 <= j < |errors[i].1| ==> r[i].1.items[j] == JStr(errors[i].1[j])
  {
    seq(|errors|, i requires 0 <= i < |errors| => (errors[i].0, JArr(seq(|errors[i].1|, j requires 0 <= j < |errors[i].1| => JStr(errors[i].1[j])))))
  }

  /** `ValidationMixin.form_invalid`: a JSON response with status 400 whose
      body maps exactly the fields in error to their messages. */
  function FormInvalid(errors: Dict<seq<string>>): (r: Response)
    ensures r.status == 400 && r.contentType == "application/json" && r.body.JObj?
    ensures Keys(r.body.members) == Keys(errors)
    ensures forall k :: k in Keys(errors) ==>
      Lookup(r.body.members, k) == Some(JArr(seq(|Lookup(errors, k).value|, j requires 0 <= j < |Lookup(errors, k).value| => JStr(Lookup(errors, k).value[j]))))
  {
    ErrorsBodySpec(errors);
    RenderToJson(JObj(ErrorsBody(errors)), 400)
  }

  lemma {:induction false} ErrorsBodySpec(errors: Dict<seq<string>>)
    ensures Keys(ErrorsBody(errors)) == Keys(errors)
    ensures forall k :: k in Keys(errors) ==>
      Lookup(ErrorsBody(errors), k) == Some(JArr(seq(|Lookup(errors, k).value|, j requires 0 <= j < |Lookup(errors, k).value| => JStr(Lookup(errors, k).value[j]))))
    decreases |errors|
  {
    if errors != [] {
      var p := errors[..|errors| - 1];
      ErrorsBodySpec(p);
      assert ErrorsBody(errors)[..|errors| - 1] == ErrorsBody(p);
      KeysSnoc(errors);
      KeysSnoc(ErrorsBody(errors));
    }
  }

  /** An entity view: the URL keyword arguments and the model
      `get_queryset` selected. */
  class EntityView {
    var kwargs: map<string, UrlArg>
    var model: Option<ModelDef>

    constructor (kwargs: map<string, UrlArg>)
      ensures this.kwargs == kwargs && model == None
    {
      this.kwargs := kwargs;
      model := None;
    }

    /** `QuerysetMixin.get_queryset`: selects the registered model and
        returns its rows, or raises 404 without touching `self.model`. */
    method GetQueryset(reg: Registry, store: Store) returns (r: Result<seq<map<string, Value>>, Http404>)
      modifies this
      ensures kwargs == old(kwargs)
      ensures r.Err? <==> FindModel(reg.modelsMap, kwargs).Err?
      ensures r.Err? ==> model == old(model)
      ensures r.Ok? ==> model == Some(FindModel(reg.modelsMap, kwargs).value)
                        && r.value == ObjectsOf(store.saved, model.value.name)
    {
      var found := FindModel(reg.modelsMap, kwargs);
      if found.Err? {
        return Err(Http404);
      }
      model := Some(found.value);
      return Ok(ObjectsOf(store.saved, found.value.name));
    }

    /** `ActionMixin.render_to_response`: the rows of the selected model,
        serialised with `post_url` and `update_url`, the latter reversed
        from the view's own keyword arguments with `pk` set to 0; status 200
        and the CORS header. `reverse` is the URL resolver. */
    method RenderToResponse(reg: Registry, store: Store, reverse: (string, map<string, UrlArg>) -> string)
      returns (r: Result<Response, Http404>)
      modifies this
      ensures r.Err? <==> FindModel(reg.modelsMap, old(kwargs)).Err?
      ensures r.Err? ==> kwargs == old(kwargs) && model == old(model)
      ensures r.Ok? ==>
        var m := FindModel(reg.modelsMap, old(kwargs)).value;
        var postUrl := reverse("myapp:new_entity", map["entity" := old(kwargs)["entity"]]);
        var updateUrl := reverse("myapp:update_entity", old(kwargs)["pk" := Number(0)]);
        kwargs == old(kwargs)["pk" := Number(0)]
        && model == Some(m)
        && r.value == Response(200, "application/json", map["Access-Control-Allow-Origin" := "*"],
             JObj(Serialized(m.fields, ObjectsOf(store.saved, m.name),
                             [("post_url", JStr(postUrl)), ("update_url", JStr(updateUrl))])))
    {
      var queryset := GetQueryset(reg, store);
      if queryset.Err? {
        return Err(Http404);
      }
      var postUrl := reverse("myapp:new_entity", map["entity" := kwargs["entity"]]);
      kwargs := kwargs["pk" := Number(0)];
      var updateUrl := reverse("myapp:update_entity", kwargs);
      var data := Serialize(model.value, queryset.value, [("post_url", JStr(postUrl)), ("update_url", JStr(updateUrl))]);
      var response := Response(200, "application/json", map[], JObj(data));
      response := response.(headers := response.headers["Access-Control-Allow-Origin" := "*"]);
      return Ok(response);
    }
  }

  /** A list response always carries `post_url` and an `update_url`
      reversed with `pk` 0, next to the field triples and one data entry per
      row. */
  lemma ListResponseCarriesUrls(m: ModelDef, rows: seq<map<string, Value>>, postUrl: string, updateUrl: string)
    ensures var res := Serialized(m.fields, rows, [("post_url", JStr(postUrl)), ("update_url", JStr(updateUrl))]);
      Keys(res) == {"fields", "data", "post_url", "update_url"}
      && Lookup(res, "post_url") == Some(JStr(postUrl))
      && Lookup(res, "update_url") == Some(JStr(updateUrl))
      && Lookup(res, "fields") == Some(JArr(FieldTriples(m.fields)))
      && Lookup(res, "data") == Some(JArr(DataRows(m.fields, rows)))
  {
    assert |"fields"| == 6 && |"data"| == 4 && |"post_url"| == 8 && |"update_url"| == 10;
    UpdateTwo("fields", "data", "post_url", "update_url",
              JArr(FieldTriples(m.fields)), JArr(DataRows(m.fields, rows)), JStr(postUrl), JStr(updateUrl));
  }

  /** Updating a two-key dict with two new keys appends them in order. */
  lemma UpdateTwo(k1: string, k2: string, k3: string, k4: string, a: Json, b: Json, p: Json, q: Json)
    requires k1 != k2 && k3 != k4 && k3 != k1 && k3 != k2 && k4 != k1 && k4 != k2
    ensures var res := Update([(k1, a), (k2, b)], [(k3, p), (k4, q)]);
      Keys(res) == {k1, k2, k3, k4}
      && Lookup(res, k3) == Some(p) && Lookup(res, k4) == Some(q)
      && Lookup(res, k1) == Some(a) && Lookup(res, k2) == Some(b)
  {
    var base := [(k1, a), (k2, b)];
    var extra := [(k3, p), (k4, q)];
    assert Keys(base) == {k1, k2} by {
      assert base[0].0 == k1 && base[1].0 == k2;
    }
    assert Keys(extra) == {k3, k4} by {
      assert extra[0].0 == k3 && extra[1].0 == k4;
    }
    UpdateFresh(base, extra);
    var res := base + extra;
    var r3 := res[..3];
    assert r3 == [(k1, a), (k2, b), (k3, p)];
    assert r3[..2] == base && base[..1] == [(k1, a)];
    assert Lookup(res, k1) == Lookup(r3, k1) == Lookup(base, k1) == Lookup([(k1, a)], k1);
    assert Lookup(res, k2) == Lookup(r3, k2) == Lookup(base, k2);
    assert Keys(res) == {k1, k2, k3, k4} by {
      assert res[0].0 == k1 && res[1].0 == k2 && res[2].0 == k3 && res[3].0 == k4;
    }
  }

  // ----- the registry as the views see it -----

  /** Every key `load` puts in `MODELS_MAP` is lower case, so an entity
      name with an upper-case letter always gets 404. */
  lemma {:induction false} RegistryKeysAreLowerCase(ms: seq<ModelDef>, k: string)
    requires k in Register(map[], map[], ms)
    ensures Lower(k) == k
    decreases |ms|
  {
    var p := ms[..|ms| - 1];
    if k == Lower(ms[|ms| - 1].name) {
      LowerIdempotent(ms[|ms| - 1].name);
    } else {
      RegistryKeysAreLowerCase(p, k);
    }
  }

  /** An entity name that is not all lower case is never found. */
  lemma UpperCaseEntityNotFound(ms: seq<ModelDef>, kwargs: map<string, UrlArg>)
    requires EntityKey(kwargs).Some? && Lower(EntityKey(kwargs).value) != EntityKey(kwargs).value
    ensures FindModel(Register(map[], map[], ms), kwargs) == Err(Http404)
  {
    if EntityKey(kwargs).value in Register(map[], map[], ms) {
      RegistryKeysAreLowerCase(ms, EntityKey(kwargs).value);
    }
  }

  /** After a load that raises nothing, the view for the lower-case cleaned
      name of any entity `load` did not skip finds a model. */
  lemma LoadedEntityIsServed(entries: Dict<Json>, i: int, m: ModelDef, kwargs: map<string, UrlArg>)
    requires forall j :: 0 <= j < |entries| ==> ModelFor(entries[j].0, entries[j].1).Ok?
    requires 0 <= i < |entries| && ModelFor(entries[i].0, entries[i].1) == Ok(Some(m))
    requires "entity" in kwargs && kwargs["entity"] == Text(Lower(Clean(entries[i].0)))
    ensures FindModel(Register(map[], map[], Synthesize(JObj(entries)).models), kwargs).Ok?
  {
    LoadedEntityIsRegistered(map[], map[], map[], entries, i, m);
  }
}
