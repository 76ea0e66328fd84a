/** `ModelsLoader` and the module-level state it writes: the registry
    `MODELS_MAP` (lower-case name to model), the module namespace
    (`globals()`, of which only the model classes are modelled) and the
    app cache where Django registers each model class. */
module Loader {
  import opened Wrappers
  import opened Identifiers
  import opened PyDict
  import opened JsonValue
  import opened Schema

  /** `MODELS_MAP`, the model classes bound in the module namespace, and
      Django's app cache for this application: the class registered under
      each lower-case class name, which `unload` does not touch. */
  class Registry {
    var modelsMap: map<string, ModelDef>
    var namespace: map<string, ModelDef>
    var appCache: map<string, ModelDef>

    /** The state at import time, before any schema is loaded. */
    constructor ()
      ensures modelsMap == map[] && namespace == map[] && appCache == map[]
    {
      modelsMap := map[];
      namespace := map[];
      appCache := map[];
    }
  }

  /** The app cache after `type(model_name, (models.Model,), attr_dict)` has
      run for each model in turn: Django 1.6's `ModelBase` registers a new
      class only when no class of that lower-case name is registered yet. */
  function AppCache(cache: map<string, ModelDef>, ms: seq<ModelDef>): (r: map<string, ModelDef>)
    ensures cache.Keys <= r.Keys
    ensures forall k :: k in cache ==> r[k] == cache[k]
    ensures forall m :: m in r.Values ==> m in cache.Values || m in ms
    decreases |ms|
  {
    if ms == [] then cache
    else
      var c := AppCache(cache, ms[..|ms| - 1]);
      var m := ms[|ms| - 1];
      if Lower(m.name) in c then c else c[Lower(m.name) := m]
  }

  /** The class `type(...)` returns for `m`: the one the app cache already
      holds under its lower-case name, or else `m` itself. */
  function Created(cache: map<string, ModelDef>, m: ModelDef): ModelDef {
    if Lower(m.name) in cache then cache[Lower(m.name)] else m
  }

  /** `MODELS_MAP[model_name.lower()] = ...` for each model in turn, with
      the class `type(...)` returned for it. */
  function Register(reg: map<string, ModelDef>, cache: map<string, ModelDef>, ms: seq<ModelDef>): (r: map<string, ModelDef>)
    ensures reg.Keys <= r.Keys
    ensures forall m :: m in r.Values ==> m in reg.Values || m in cache.Values || m in ms
    decreases |ms|
  {
    if ms == [] then reg
    else
      var p := ms[..|ms| - 1];
      Register(reg, cache, p)[Lower(ms[|ms| - 1].name) := Created(AppCache(cache, p), ms[|ms| - 1])]
  }

  /** `globals().update({model_name: ...})` for each model in turn, with the
      class `type(...)` returned for it. */
  function Bind(ns: map<string, ModelDef>, cache: map<string, ModelDef>, ms: seq<ModelDef>): (r: map<string, ModelDef>)
    ensures ns.Keys <= r.Keys
    ensures forall m :: m in r.Values ==> m in ns.Values || m in cache.Values || m in ms
    decreases |ms|
  {
    if ms == [] then ns
    else
      var p := ms[..|ms| - 1];
      Bind(ns, cache, p)[ms[|ms| - 1].name := Created(AppCache(cache, p), ms[|ms| - 1])]
  }

  /** Creating, binding and registering one more model `m`. */
  lemma LoadStep(reg: map<string, ModelDef>, ns: map<string, ModelDef>, cache: map<string, ModelDef>, done: seq<ModelDef>, m: ModelDef)
    ensures var c := AppCache(cache, done);
      && AppCache(cache, done + [m]) == (if Lower(m.name) in c then c else c[Lower(m.name) := m])
      && Register(reg, cache, done + [m]) == Register(reg, cache, done)[Lower(m.name) := Created(c, m)]
      && Bind(ns, cache, done + [m]) == Bind(ns, cache, done)[m.name := Created(c, m)]
  {
    assert (done + [m])[..|done|] == done;
  }

  /** `ms[i]` is the first of `ms` whose lower-case name is `k`. */
  predicate FirstKeyed(ms: seq<ModelDef>, i: int, k: string)
    requires 0 <= i < |ms|
  {
    Lower(ms[i].name) == k && forall j :: 0 <= j < i ==> Lower(ms[j].name) != k
  }

  /** A lower-case name occurs in `ms` exactly when it occurs in all but the
      last model or is the last model's. */
  lemma NamedSnoc(ms: seq<ModelDef>, p: seq<ModelDef>, k: string)
    requires ms != [] && p == ms[..|ms| - 1]
    ensures (exists i :: 0 <= i < |ms| && Lower(ms[i].name) == k) <==>
            (exists i :: 0 <= i < |p| && Lower(p[i].name) == k) || Lower(ms[|ms| - 1].name) == k
  {
    if exists i :: 0 <= i < |ms| && Lower(ms[i].name) == k {
      var i :| 0 <= i < |ms| && Lower(ms[i].name) == k;
      if i < |p| { assert p[i] == ms[i]; }
    }
    if exists i :: 0 <= i < |p| && Lower(p[i].name) == k {
      var i :| 0 <= i < |p| && Lower(p[i].name) == k;
      assert p[i] == ms[i];
    }
  }

  /** The app cache holds a name exactly when it held it before or one of
      the models has that lower-case name. */
  lemma {:induction false} AppCacheKeys(cache: map<string, ModelDef>, ms: seq<ModelDef>, k: string)
    ensures k in AppCache(cache, ms) <==> k in cache || exists i :: 0 <= i < |ms| && Lower(ms[i].name) == k
    decreases |ms|
  {
    if ms != [] {
      var p := ms[..|ms| - 1];
      AppCacheKeys(cache, p, k);
      NamedSnoc(ms, p, k);
    }
  }

  /** The app cache keeps a class registered earlier, and otherwise holds the
      first model of that lower-case name. */
  lemma {:induction false} AppCacheFirst(cache: map<string, ModelDef>, ms: seq<ModelDef>, i: int, k: string)
    requires 0 <= i < |ms| && FirstKeyed(ms, i, k)
    ensures k in AppCache(cache, ms)
    ensures AppCache(cache, ms)[k] == if k in cache then cache[k] else ms[i]
    decreases |ms|
  {
    var p := ms[..|ms| - 1];
    if i < |ms| - 1 {
      assert p[i] == ms[i];
      assert FirstKeyed(p, i, k) by {
        forall j | 0 <= j < i ensures Lower(p[j].name) != k { assert p[j] == ms[j]; }
      }
      AppCacheFirst(cache, p, i, k);
    } else if k !in cache {
      AppCacheKeys(cache, p, k);
      forall j | 0 <= j < |p| ensures Lower(p[j].name) != k { assert p[j] == ms[j]; }
    }
  }

  /** After registering `ms`, a key is present exactly when it was before or
      is the lower-case name of one of the models. */
  lemma {:induction false} RegisterKeys(reg: map<string, ModelDef>, cache: map<string, ModelDef>, ms: seq<ModelDef>, k: string)
    ensures k in Register(reg, cache, ms) <==> k in reg || exists i :: 0 <= i < |ms| && Lower(ms[i].name) == k
    decreases |ms|
  {
    if ms != [] {
      var p := ms[..|ms| - 1];
      RegisterKeys(reg, cache, p, k);
      NamedSnoc(ms, p, k);
    }
  }

  /** A key a model names maps to the class the app cache holds for it. */
  lemma {:induction false} RegisterFromCache(reg: map<string, ModelDef>, cache: map<string, ModelDef>, ms: seq<ModelDef>, i: int, k: string)
    requires 0 <= i < |ms| && Lower(ms[i].name) == k
    ensures k in Register(reg, cache, ms) && k in AppCache(cache, ms)
    ensures Register(reg, cache, ms)[k] == AppCache(cache, ms)[k]
    decreases |ms|
  {
    var p := ms[..|ms| - 1];
    if Lower(ms[|ms| - 1].name) != k {
      assert p[i] == ms[i];
      RegisterFromCache(reg, cache, p, i, k);
    }
  }

  /** A key a model names maps to the class first registered under it: the
      one an earlier load registered, or else the first such model. */
  lemma RegisterFirst(reg: map<string, ModelDef>, cache: map<string, ModelDef>, ms: seq<ModelDef>, i: int, k: string)
    requires 0 <= i < |ms| && FirstKeyed(ms, i, k)
    ensures k in Register(reg, cache, ms)
    ensures Register(reg, cache, ms)[k] == if k in cache then cache[k] else ms[i]
  {
    RegisterFromCache(reg, cache, ms, i, k);
    AppCacheFirst(cache, ms, i, k);
  }

  /** Keys no model names keep their old value. */
  lemma {:induction false} RegisterElsewhere(reg: map<string, ModelDef>, cache: map<string, ModelDef>, ms: seq<ModelDef>, k: string)
    requires k in reg && forall i :: 0 <= i < |ms| ==> Lower(ms[i].name) != k
    ensures k in Register(reg, cache, ms) && Register(reg, cache, ms)[k] == reg[k]
    decreases |ms|
  {
    if ms != [] {
      var p := ms[..|ms| - 1];
      forall i | 0 <= i < |p| ensures Lower(p[i].name) != k { assert p[i] == ms[i]; }
      RegisterElsewhere(reg, cache, p, k);
    }
  }

  /** After binding `ms`, a name is bound exactly when it was before or is the
      name of one of the models. */
  lemma {:induction false} BindKeys(ns: map<string, ModelDef>, cache: map<string, ModelDef>, ms: seq<ModelDef>, k: string)
    ensures k in Bind(ns, cache, ms) <==> k in ns || exists i :: 0 <= i < |ms| && ms[i].name == k
    decreases |ms|
  {
    if ms != [] {
      var p := ms[..|ms| - 1];
      BindKeys(ns, cache, p, k);
      if exists i :: 0 <= i < |ms| && ms[i].name == k {
        var i :| 0 <= i < |ms| && ms[i].name == k;
        if i < |p| { assert p[i] == ms[i]; }
      }
      if exists i :: 0 <= i < |p| && p[i].name == k {
        var i :| 0 <= i < |p| && p[i].name == k;
        assert p[i] == ms[i];
      }
    }
  }

  /** A name a model has is bound to the class the app cache holds under
      its lower-case form. */
  lemma {:induction false} BindFromCache(ns: map<string, ModelDef>, cache: map<string, ModelDef>, ms: seq<ModelDef>, i: int, n: string)
    requires 0 <= i < |ms| && ms[i].name == n
    ensures n in Bind(ns, cache, ms) && Lower(n) in AppCache(cache, ms)
    ensures Bind(ns, cache, ms)[n] == AppCache(cache, ms)[Lower(n)]
    decreases |ms|
  {
    var p := ms[..|ms| - 1];
    if ms[|ms| - 1].name != n {
      assert p[i] == ms[i];
      BindFromCache(ns, cache, p, i, n);
    }
  }

  /** `MODELS_MAP[model_name.lower()]` is the class bound to `model_name`:
      after a load, the registry and the namespace agree on every loaded
      name. */
  lemma NamespaceAgreesWithRegistry(reg: map<string, ModelDef>, ns: map<string, ModelDef>, cache: map<string, ModelDef>, ms: seq<ModelDef>, i: int)
    requires 0 <= i < |ms|
    ensures ms[i].name in Bind(ns, cache, ms) && Lower(ms[i].name) in Register(reg, cache, ms)
    ensures Bind(ns, cache, ms)[ms[i].name] == Register(reg, cache, ms)[Lower(ms[i].name)]
  {
    BindFromCache(ns, cache, ms, i, ms[i].name);
    RegisterFromCache(reg, cache, ms, i, Lower(ms[i].name));
  }

  /** A later load, with whatever models, leaves every key an earlier load
      registered mapped to the earlier load's class. */
  lemma ReloadKeepsFirstClass(reg: map<string, ModelDef>, cache: map<string, ModelDef>, ms1: seq<ModelDef>, ms2: seq<ModelDef>, i: int)
    requires 0 <= i < |ms1|
    ensures var k := Lower(ms1[i].name); var r1 := Register(reg, cache, ms1);
      k in r1 && k in Register(r1, AppCache(cache, ms1), ms2)
      && Register(r1, AppCache(cache, ms1), ms2)[k] == r1[k]
  {
    var k := Lower(ms1[i].name);
    var c1 := AppCache(cache, ms1);
    var r1 := Register(reg, cache, ms1);
    RegisterFromCache(reg, cache, ms1, i, k);
    if j :| 0 <= j < |ms2| && Lower(ms2[j].name) == k {
      RegisterFromCache(r1, c1, ms2, j, k);
    } else {
      RegisterElsewhere(r1, c1, ms2, k);
    }
  }

  class ModelsLoader {
    /** `_content`: what `_get_content` made of the schema text. */
    const content: Json

    /** `ModelsLoader(json_str)`, given the outcome of `json.loads(json_str)`
        (`None` when it raised ValueError), whose entities have distinct
        names. */
    constructor (parsed: Option<Json>)
      requires parsed.Some? ==> DistinctTopKeys(parsed.value)
      ensures content == GetContent(parsed)
      ensures DistinctTopKeys(content)
    {
      content := GetContent(parsed);
    }

    /** `load()`: creates the class of each entity in document order, binds
        and registers the class `type(...)` returned for it, and returns the
        exception that stopped it, if any; the registrations made before the
        exception stay. */
    method Load(reg: Registry) returns (raised: Option<PyError>)
      modifies reg
      ensures raised == Synthesize(content).raised
      ensures reg.appCache == AppCache(old(reg.appCache), Synthesize(content).models)
      ensures reg.modelsMap == Register(old(reg.modelsMap), old(reg.appCache), Synthesize(content).models)
      ensures reg.namespace == Bind(old(reg.namespace), old(reg.appCache), Synthesize(content).models)
    {
      if !content.JObj? {
        return Some(AttributeError);
      }
      var entries := content.members;
      ghost var vs := Verdicts(entries);
      ghost var done: seq<ModelDef> := [];
      var i := 0;
      while i < |entries|
        invariant 0 <= i <= |entries|
        invariant RunVerdicts(done, vs[i..]) == Synthesize(content)
        invariant reg.appCache == AppCache(old(reg.appCache), done)
        invariant reg.modelsMap == Register(old(reg.modelsMap), old(reg.appCache), done)
        invariant reg.namespace == Bind(old(reg.namespace), old(reg.appCache), done)
      {
        var v := LoadEntity(entries[i].0, entries[i].1);
        assert vs[i..][0] == v && vs[i..][1..] == vs[i + 1..];
        match v {
          case Err(e) =>
            return Some(e);
          case Ok(None) =>
          case Ok(Some(m)) =>
            LoadStep(old(reg.modelsMap), old(reg.namespace), old(reg.appCache), done, m);
            var cls := m;
            if Lower(m.name) in reg.appCache {
              cls := reg.appCache[Lower(m.name)];
            } else {
              reg.appCache := reg.appCache[Lower(m.name) := m];
            }
            reg.namespace := reg.namespace[m.name := cls];
            reg.modelsMap := reg.modelsMap[Lower(m.name) := reg.namespace[m.name]];
            assert (done + [m])[..|done|] == done;
            done := done + [m];
        }
        i := i + 1;
      }
      assert vs[i..] == [];
      return None;
    }

    /** `unload(name)`: drops `name` from the module namespace. `MODELS_MAP`
        and Django's app cache are left as they are. */
    method Unload(reg: Registry, name: string)
      modifies reg
      ensures reg.namespace == old(reg.namespace) - {name}
      ensures reg.modelsMap == old(reg.modelsMap) && reg.appCache == old(reg.appCache)
    {
      if name in reg.namespace {
        reg.namespace := reg.namespace - {name};
      }
    }
  }

  /** One iteration of the entity loop of `load`: key cleaning, the skip
      test, the field loop, then the class with `Meta` and `save`. */
  method LoadEntity(name: string, attrs: Json) returns (r: Verdict)
    ensures r == ModelFor(name, attrs)
  {
    if !attrs.JObj? {
      return Err(AttributeError);
    }
    var modelAttrs := CleanKeys(attrs.members);
    if CheckKeys(JObj(modelAttrs), RequiredModelKeys) != Ok(true) {
      return Ok(None);
    }
    assert "title" in RequiredModelKeys && "fields" in RequiredModelKeys;
    var it := Iterate(Lookup(modelAttrs, "fields").value);
    if it.Err? {
      return Err(it.error);
    }
    var loop := LoadFields(it.value);
    match loop
    case Err(e) =>
      return Err(e);
    case Ok(st) =>
      var modelName := Capitalize(Clean(name));
      return Ok(Some(ModelDef(modelName, PluralTitle(modelName, Lookup(modelAttrs, "title").value),
                              [IdField] + WithoutReserved(st.fields), st.firstName)));
  }

  /** The field loop of `load`, updating the fields of `attr_dict` and
      `first_fld_name` entry by entry. */
  method LoadFields(items: seq<Json>) returns (r: Result<FieldLoop, PyError>)
    ensures r == RunFieldLoop(FieldLoop([], None), items)
  {
    var fields: seq<FieldDef> := [];
    var firstName: Option<string> := None;
    var i := 0;
    while i < |items|
      invariant 0 <= i <= |items|
      invariant RunFieldLoop(FieldLoop(fields, firstName), items[i..]) == RunFieldLoop(FieldLoop([], None), items)
    {
      assert items[i..][0] == items[i] && items[i..][1..] == items[i + 1..];
      var verdict := FieldOf(items[i]);
      match verdict {
        case Err(e) =>
          return Err(e);
        case Ok(None) =>
        case Ok(Some(f)) =>
          if firstName == None || firstName == Some("") {
            firstName := Some(f.name);
          }
          fields := Without(fields, f.name) + [f];
      }
      i := i + 1;
    }
    assert items[i..] == [];
    return Ok(FieldLoop(fields, firstName));
  }

  /** The import-time load: when the schema file exists (its parse outcome is
      given), a loader is built from it and `load` runs on the registry. */
  method LoadAtImport(reg: Registry, schemaFile: Option<Option<Json>>) returns (raised: Option<PyError>)
    requires schemaFile.Some? && schemaFile.value.Some? ==> DistinctTopKeys(schemaFile.value.value)
    modifies reg
    ensures schemaFile.None? ==>
      raised.None? && reg.modelsMap == old(reg.modelsMap)
      && reg.namespace == old(reg.namespace) && reg.appCache == old(reg.appCache)
    ensures schemaFile.Some? ==>
      var out := Synthesize(GetContent(schemaFile.value));
      raised == out.raised && reg.appCache == AppCache(old(reg.appCache), out.models)
      && reg.modelsMap == Register(old(reg.modelsMap), old(reg.appCache), out.models)
      && reg.namespace == Bind(old(reg.namespace), old(reg.appCache), out.models)
  {
    raised := None;
    if schemaFile.Some? {
      var loader := new ModelsLoader(schemaFile.value);
      raised := loader.Load(reg);
    }
  }

  lemma {:induction false} AcceptedHas(vs: seq<Verdict>, i: int, m: ModelDef)
    requires 0 <= i < |vs| && vs[i] == Ok(Some(m))
    ensures m in Accepted(vs)
    decreases i
  {
    if i > 0 {
      assert vs[1..][i - 1] == vs[i];
      AcceptedHas(vs[1..], i - 1, m);
    }
  }

  /** When `load` completes, every entity it does not skip is reachable in
      `MODELS_MAP` under the lower-case of its cleaned name, and its class is
      bound in the namespace under the capitalised cleaned name. */
  lemma LoadedEntityIsRegistered(reg: map<string, ModelDef>, ns: map<string, ModelDef>, cache: map<string, ModelDef>,
                                  entries: Dict<Json>, i: int, m: ModelDef)
    requires forall j :: 0 <= j < |entries| ==> ModelFor(entries[j].0, entries[j].1).Ok?
    requires 0 <= i < |entries| && ModelFor(entries[i].0, entries[i].1) == Ok(Some(m))
    ensures Lower(Clean(entries[i].0)) in Register(reg, cache, Synthesize(JObj(entries)).models)
    ensures Capitalize(Clean(entries[i].0)) in Bind(ns, cache, Synthesize(JObj(entries)).models)
  {
    SynthesizeCompletes(entries);
    var ms := AcceptedModels(entries);
    AcceptedHas(Verdicts(entries), i, m);
    var j :| 0 <= j < |ms| && ms[j] == m;
    ModelWellFormed(entries[i].0, entries[i].1, m);
    ModelShape(entries[i].0, entries[i].1, m);
    RegisterKeys(reg, cache, ms, Lower(Clean(entries[i].0)));
    BindKeys(ns, cache, ms, m.name);
  }

  /** `unload` after `load` takes the class out of the namespace but not
      out of `MODELS_MAP`, so the views still find every loaded model by
      its lower-case name. */
  method UnloadAfterLoad(loader: ModelsLoader, reg: Registry, name: string) returns (raised: Option<PyError>)
    modifies reg
    ensures raised == Synthesize(loader.content).raised
    ensures name !in reg.namespace
    ensures forall m :: m in Synthesize(loader.content).models ==> Lower(m.name) in reg.modelsMap
    ensures reg.modelsMap == Register(old(reg.modelsMap), old(reg.appCache), Synthesize(loader.content).models)
    ensures reg.appCache == AppCache(old(reg.appCache), Synthesize(loader.content).models)
  {
    raised := loader.Load(reg);
    loader.Unload(reg, name);
    var ms := Synthesize(loader.content).models;
    forall m | m in ms ensures Lower(m.name) in reg.modelsMap {
      var i :| 0 <= i < |ms| && ms[i] == m;
      RegisterKeys(old(reg.modelsMap), old(reg.appCache), ms, Lower(m.name));
    }
  }
}
