# Schema-driven Django models, modelled in Dafny

`myapp` builds its Django models at run time from a JSON schema document.
Each top-level entry of the document is an entity: its cleaned name becomes
a model class, its `title` the plural verbose name, and each entry of its
`fields` list a char, integer or date field. The loader skips entities and
fields that lack required keys or name an unknown type. It creates each
model class with `type()`, registers the class in `MODELS_MAP` under its
lower-case name and binds it in the module namespace. Every model saves through `model_save`: `full_clean`, then HTML
escaping of every string attribute, then the database write. The view
mixins look an entity up in `MODELS_MAP` (404 when it is absent). They
serialise the model's field descriptions and rows into one JSON object, add
a `post_url` and an `update_url`, and answer an invalid form with its
errors and status 400.

The project models that core:

- `identifiers.dfy`: `clean` (drop every character outside `[a-zA-Z0-9_]`,
  then strip) and the ASCII `lower`/`capitalize` used on names.
- `escaping.dfy`: `escape`, the five chained replacements.
- `pydict.dfy`: Python dicts as insertion-ordered binding lists (`Set` is
  `d[k] = v`, `Update` is `d.update(e)`); `json.dfy` the parsed JSON values.
- `schema.dfy`: what `load` makes of a parsed document, as pure functions:
  `_get_content`, `_clean_keys`, `_check_keys` (Python `set()` on dicts,
  strings and lists), the field loop, one entity, the entity loop with the
  exceptions that stop it.
- `loader.dfy`: the `ModelsLoader` class, with `load`, `unload`, the
  registry (`MODELS_MAP`, the namespace and Django's app cache) as a class,
  and the import-time load.
- `text.dfy` and `records.dfy`: attribute values, `str()` of them,
  `full_clean`'s verdict, `model_save` as a method of an instance, and
  `__str__` through `cap_field`.
- `mixins.dfy`: `serialize` (a method with the source's two loops, proved
  equal to the function `Serialized`), `get_queryset` and
  `render_to_response` on a view class, `form_invalid`.
- `scenarios.dfy`: the concrete outcomes the repository's tests expect.

Three behaviours of the code are worth noting:

- A schema that parses to something other than an object (a list, say) is
  not treated as empty. `_get_content` returns it, and `load` raises
  AttributeError on `.items()`. `Schema.Synthesize` models this.
- Extra keyword arguments of `serialize` may collide with `fields` or
  `data`; `res.update(kwargs)` then overrides them
  (`Mixins.SerializedShape`).
- Under Django 1.6, `type(model_name, (models.Model,), attr_dict)` returns
  the class already registered in the app cache under
  `model_name.lower()`, if there is one. `unload` does not clear that
  cache. So two entities whose names clean to the same lower-case name, or
  an entity loaded again after `unload` with other fields, keep the class
  created first, in `MODELS_MAP` and in the namespace
  (`Loader.RegisterFirst`, `Loader.ReloadKeepsFirstClass`).

## Model

| member | source | states |
|---|---|---|
| Identifiers.Clean | myapp/models.py:15-17 | the result holds only ASCII letters, digits and `_`, and is no longer than the input |
| Identifiers.CleanIsFilter | myapp/models.py:15-17 | the final `strip` never removes anything: `clean` is exactly deletion of the characters outside the class |
| Identifiers.CleanConcat | myapp/models.py:15-17 | cleaning distributes over concatenation |
| Identifiers.CleanFixesExactlyIdentifiers | myapp/models.py:15-17 | `clean(s) == s` holds exactly when every character of `s` is a letter, digit or `_` |
| Identifiers.CleanIdempotent | myapp/models.py:15-17 | cleaning twice is cleaning once |
| Identifiers.CleanCounts | myapp/models.py:15-17 | every class character keeps its number of occurrences; every other character disappears |
| Identifiers.Lower | myapp/models.py:110 | `lower` keeps the length and lower-cases each character |
| Identifiers.Capitalize | myapp/models.py:74 | `capitalize` keeps the length, upper-cases the first character and lower-cases the rest |
| Identifiers.LowerIdempotent | myapp/models.py:110 | lower-casing a registry key again leaves it unchanged |
| Identifiers.LowerOfCapitalize | myapp/models.py:74-110 | the registry key `model_name.lower()` equals the lower-case of the cleaned entity name, whatever `capitalize` did |
| Identifiers.CapitalizeKeepsIdentifier | myapp/models.py:74 | the class name stays inside `[a-zA-Z0-9_]`, and only its first character can be upper case |
| Escaping.Escape | myapp/models.py:19-21 | escaping never shortens the text |
| Escaping.EscapeConcat | myapp/models.py:19-21 | escaping distributes over concatenation |
| Escaping.EscapeIsSinglePass | myapp/models.py:19-21 | the five chained replacements equal one left-to-right pass replacing each special character by its entity; `&` first means no entity is escaped twice |
| Escaping.EscapeHasNoMarkup | myapp/models.py:19-21 | escaped text contains no `<`, `>`, `'` or `"` |
| Escaping.EscapeIdentity | myapp/models.py:19-21 | escaping leaves a string unchanged exactly when it has none of the five special characters |
| Escaping.EscapeEachCharGrows | myapp/models.py:19-21 | a string with a special character becomes strictly longer |
| Escaping.EscapeRoundTrip | myapp/models.py:19-21 | unescaping the escaped text gives back the original string |
| PyDict.Lookup | myapp/models.py:62 | a key has a value exactly when it is one of the dict's keys |
| PyDict.LookupLastBinding | myapp/models.py:62 | the value found is that of the last binding of the key: no later binding names it |
| PyDict.LookupDistinct | myapp/models.py:62 | in a dict with distinct keys every binding is the one a lookup finds |
| PyDict.SetLookup | myapp/models.py:60-62 | after `d[k] = v`, `k` maps to `v` and every other key keeps its value |
| PyDict.SetShape | myapp/models.py:60-62 | `d[k] = v` adds `k` to the keys, keeps existing keys at their positions, grows the dict only for a new key, and keeps keys distinct |
| PyDict.UpdateLookup | myapp/models.py:99-106 | after `d.update(e)` a key of `e` maps to its value in `e`, any other key keeps its value in `d` |
| PyDict.UpdateShape | myapp/models.py:99-106 | `d.update(e)` has the union of the keys, keeps `d`'s keys first in their order, and keeps keys distinct |
| PyDict.UpdateFresh | myapp/models.py:99-106 | `d.update(e)` with distinct keys that `d` lacks appends `e` to `d` |
| Schema.GetContent | myapp/models.py:54-58 | a failed parse gives the empty object; otherwise the parsed value, whatever its kind; entity names stay distinct |
| Schema.CleanKeys | myapp/models.py:60-62 | the cleaned dict has distinct identifier keys and is no longer than the original |
| Schema.CleanKeysIdentity | myapp/models.py:60-62 | a dict whose keys are distinct identifiers is left unchanged |
| Schema.CleanKeysSpec | myapp/models.py:60-62 | after `_clean_keys` the keys are the cleaned original keys, distinct, each mapped to the value of the last original key that cleans to it |
| Schema.CleanKeysKeys | myapp/models.py:60-62 | a key is present after `_clean_keys` exactly when it is the cleaned form of some original key |
| Schema.CheckKeys | myapp/models.py:64-65 | `_check_keys` raises TypeError exactly when `set()` of the value fails: a value that is not an object, a string or a list of scalars |
| Schema.CheckKeysOnDict | myapp/models.py:64-65 | on a dict, `_check_keys` is the subset test of the required keys against the keys, and stays true when keys are added |
| Schema.FieldOf | myapp/models.py:82-97 | one entry of `fields` raises only TypeError, and a field it adds comes from an object, has an identifier name and is not the primary-key class |
| Schema.FieldOfDict | myapp/models.py:83-97 | for an object with `id`, `title` and `type`, a non-string `type` or `id` raises TypeError; an added field is titled by `title`, has an identifier name and is not the primary-key class |
| Schema.AddField | myapp/models.py:89-97 | the added field goes last, every other surviving field was there before and has another name, and `first_fld_name` keeps a non-empty value once set |
| Schema.RunFieldLoop | myapp/models.py:81-97 | the field loop raises exactly when some entry raises, and then TypeError |
| Schema.FieldOfAccepts | myapp/models.py:82-97 | a field is added exactly for an object with raw keys `id`, `title` and `type`, a string `type` that cleans to `char`, `integer` or `date`, and a string `id`; the field is named by the cleaned `id`, titled by `title`, of the selected class |
| Schema.FieldOfSkips | myapp/models.py:83-86 | an entry lacking a required key, or whose cleaned type is not in `field_map`, is skipped |
| Schema.FieldOfNonObject | myapp/models.py:83-86 | a scalar entry raises TypeError; a string entry is skipped; a list entry is skipped or raises |
| Schema.FieldLoopSpec | myapp/models.py:81-97 | the field loop raises the first exception an entry raises; otherwise it yields the accepted fields, last one per name, and `cap_field` set from the first non-empty accepted name |
| Schema.AcceptedFieldsSound | myapp/models.py:82-97 | every accepted field comes from an entry of the list, has an identifier name and is not an AutoField |
| Schema.LastWinsSpec | myapp/models.py:97 | one field per name survives, and it is the last field of that name |
| Schema.LastWinsDistinct | myapp/models.py:97 | with distinct names no field is overwritten |
| Schema.CapFieldIsFirstNamed | myapp/models.py:89-92 | `cap_field` is the first non-empty accepted field name |
| Schema.CapFieldWhenUnnamed | myapp/models.py:89-92 | with only empty names, `cap_field` is the empty name; with no field, there is none |
| Schema.SlotsAfterSpec | myapp/models.py:89-97 | after the field loop, `first_fld_name` is the first non-empty accepted name; the class entry `cap_field` holds a Field object exactly when a field is named `cap_field`, else that first name; `__str__` holds a Field object exactly when a field is named `__str__`, else the lambda |
| Schema.ModelDisplay | myapp/models.py:89-106 | how `str()` of an instance is computed, read off the synthesised model, is what those two class entries say after the field loop |
| Schema.ModelFor | myapp/models.py:73-106 | an entity raises AttributeError exactly when it is not an object, otherwise at most TypeError; a model it synthesises is named by the capitalised cleaned name and starts with the primary key |
| Schema.ModelSkippedIff | myapp/models.py:73-80 | an entity is skipped exactly when its cleaned keys lack `title` or `fields`; a non-object entity raises AttributeError |
| Schema.PluralTitle | myapp/models.py:100-104 | `verbose_name_plural` as Django keeps it is never null, and a non-null `title` is kept as given |
| Schema.ModelShape | myapp/models.py:74-110 | a synthesised model is named by the capitalised cleaned entity name; its plural title is `title`, or the lower-cased class name followed by `s` when `title` is null; its fields are the primary key then the surviving accepted fields; its `cap_field` comes from the field loop; its `str()` is Django's default when a field is named `__str__`, reads the attribute named by a field's value when a field is named `cap_field`, and otherwise the first named attribute |
| Schema.ModelWellFormed | myapp/models.py:74-110 | a synthesised model has an identifier name whose lower case is the lower-cased cleaned entity name, `id` as first field, distinct identifier-named user fields none of which is `Meta`, `save` or `__module__`, and an identifier `cap_field` |
| Schema.WithoutReservedSpec | myapp/models.py:99-106 | overwriting `Meta`, `save` and `__module__` removes exactly those names and keeps the rest distinct |
| Schema.WithoutReservedNames | myapp/models.py:99-106 | every other name, `cap_field` and `__str__` included, survives that overwrite exactly when it was there |
| Schema.WithoutReservedNone | myapp/models.py:99-106 | with no reserved name among the fields nothing is dropped |
| Schema.Synthesize | myapp/models.py:71-110 | `load` synthesises at most one model per entity, and when nothing raises the content was an object |
| Schema.SynthesizeCompletes | myapp/models.py:73-110 | when no entity raises, `load` synthesises exactly the models of the entities it does not skip, in document order |
| Schema.SynthesizeStops | myapp/models.py:73-110 | when entity `k` is the first to raise, the models before it are synthesised and the exception propagates |
| Schema.UnparsableLoadsNothing | myapp/models.py:54-58 | a document that does not parse loads nothing and raises nothing |
| Schema.SkippedEntityIsInvisible | myapp/models.py:77-80 | a skipped entity has no effect on what the rest of the load synthesises |
| Loader.AppCache | myapp/models.py:108-109 | creating the classes keeps every class registered in the app cache before, and adds only models of this load |
| Loader.AppCacheKeys | myapp/models.py:108-109 | the app cache holds a name exactly when it did before or a loaded model has that lower-case name |
| Loader.AppCacheFirst | myapp/models.py:108-109 | the app cache holds, under a lower-case name, the class registered earlier, or else the first loaded model with that name |
| Loader.Register | myapp/models.py:110 | registering keeps every old key and stores only models that were registered before, held in the app cache, or loaded |
| Loader.Bind | myapp/models.py:108-109 | binding keeps every old name and binds only models that were bound before, held in the app cache, or loaded |
| Loader.RegisterKeys | myapp/models.py:110 | after registering, a key is present exactly when it was before or is the lower-case name of a loaded model |
| Loader.RegisterFromCache | myapp/models.py:108-110 | a key a loaded model names maps to the class the app cache holds under it |
| Loader.RegisterFirst | myapp/models.py:108-110 | a key a loaded model names maps to the class registered by an earlier load, or else to the first loaded model with that lower-case name |
| Loader.RegisterElsewhere | myapp/models.py:110 | keys no loaded model names keep their old model |
| Loader.BindKeys | myapp/models.py:108-109 | after loading, a name is bound exactly when it was before or is the name of a loaded model |
| Loader.BindFromCache | myapp/models.py:108-109 | a loaded model's name is bound to the class the app cache holds under its lower-case form |
| Loader.NamespaceAgreesWithRegistry | myapp/models.py:108-110 | for every loaded model, `MODELS_MAP[model_name.lower()]` is the class bound to `model_name` |
| Loader.ReloadKeepsFirstClass | myapp/models.py:67-110 | a later load, whatever its models, leaves every key an earlier load registered mapped to the earlier class |
| Loader.ModelsLoader.constructor | myapp/models.py:51-58 | the loader holds the parsed document, or `{}` when parsing failed; given a `json.loads` outcome, its entity names are distinct |
| Loader.ModelsLoader.Load | myapp/models.py:71-110 | `load` raises what the entity loop raises; in document order it creates each synthesised model's class in the app cache, then binds and registers the class `type()` returns for it |
| Loader.ModelsLoader.Unload | myapp/models.py:67-69 | `unload` removes the name from the namespace if present and leaves `MODELS_MAP` and the app cache alone |
| Loader.LoadEntity | myapp/models.py:74-109 | one iteration of the entity loop returns exactly the specified verdict: skip, model or exception |
| Loader.LoadFields | myapp/models.py:81-97 | the field loop, run entry by entry, returns exactly the specified fields and `cap_field`, or the first exception |
| Loader.LoadAtImport | myapp/models.py:112-114 | without a schema file nothing changes; with one, the registry is what `load` on its parse outcome leaves |
| Loader.LoadedEntityIsRegistered | myapp/models.py:108-110 | after a complete load, every entity not skipped is in `MODELS_MAP` under the lower-cased cleaned name and bound under the capitalised cleaned name |
| Loader.UnloadAfterLoad | myapp/models.py:67-110 | `unload` after `load` removes the name from the namespace while every loaded model stays in `MODELS_MAP` under its lower-case name |
| Text.NatToDecimal | myapp/mixins.py:21 | `str` of a natural number is a non-empty digit string without leading zeros |
| Text.IntToDecimalRoundTrip | myapp/mixins.py:21 | reading back `str(n)` gives `n` |
| Text.IntToDecimalInjective | myapp/mixins.py:21 | distinct integers have distinct string forms |
| Text.IsoDate | myapp/mixins.py:21 | `str` of a date is at least ten characters, and for a year up to 9999 its first four read back as the year, followed by `-` |
| Text.IsoDateShape | myapp/mixins.py:21 | `str` of a date with year, month and day in range is `YYYY-MM-DD`: ten characters, dashes at 4 and 7, and the three digit groups read back as the year, the month and the day |
| Records.Accepts | myapp/models.py:26-46 | a value `full_clean` accepts is non-null except for the primary key, and a string is accepted only by a char field, and only when non-empty |
| Records.Errors | myapp/models.py:26 | the field checks of `full_clean` name only fields of the model, and none exactly when every field accepts its value |
| Records.FullClean | myapp/models.py:26 | `full_clean` adds to the field checks only `id`, which it names exactly when the field check does or a new instance's key is already stored for the model; it passes exactly when every field accepts and that key is free; an instance loaded from the database gets the field checks alone |
| Records.IntegerBounds | myapp/models.py:40-44 | `full_clean` rejects an integer field exactly when its value lies outside [-2147483648, 2147483647] |
| Records.EscapeValue | myapp/models.py:31-32 | a string attribute stays a string and loses all markup; any other value is unchanged |
| Records.EscapeFields | myapp/models.py:29-33 | the escaping loop keeps the set of attributes |
| Records.SavedStringsHaveNoMarkup | myapp/models.py:29-33 | after saving, every string attribute of a field holds text without `<`, `>`, `'` or `"` |
| Records.SaveKeepsNonStrings | myapp/models.py:29-33 | saving leaves values that are not strings, and attributes of no field, unchanged |
| Records.SaveEscapesOnce | myapp/models.py:29-33 | with distinct field names each string attribute is escaped exactly once |
| Records.EscapedMayExceedMaxLength | myapp/models.py:25-39 | `max_length` is checked before escaping, so an accepted 200-character string with a special character has an escaped attribute longer than `max_length` when it reaches the database |
| Records.MaxId | myapp/models.py:34 | the largest stored integer key of a model bounds every such key and is one of them |
| Records.NextId | myapp/models.py:34 | a new key exceeds every stored key of the model |
| Records.StoreRowSpec | myapp/models.py:34 | a save writes its row, replaces the row with the same model and key in place, leaves every other row, and grows the table only on insert |
| Records.StoreRowKeepsUniqueIds | myapp/models.py:34 | saving keeps primary keys unique within each model |
| Records.NewInstanceInserts | myapp/models.py:34 | an instance without a key gets the next one, and its save appends exactly its row |
| Records.FreeKeyAppends | myapp/models.py:29-34 | an instance whose key is not stored, once escaped and given a key, is saved by appending its row |
| Records.Instance.constructor | myapp/models.py:25-26 | a new instance holds the given attributes over the defaults and is marked as not yet saved |
| Records.Instance.Fetched | myapp/mixins.py:52-57 | an instance the update view loads from a row of `get_queryset` holds that row and is marked as saved |
| Records.Instance.EscapeAttributes | myapp/models.py:29-33 | the loop escapes every field's string attribute in place, in field order |
| Records.Instance.Save | myapp/models.py:25-34 | `model_save` reports `full_clean`'s error fields, the stored-key check included, and changes nothing on error; otherwise it escapes every string attribute in place, gives a keyless instance the next key, keeps keys unique, stores the row by update or insert (always insert for a new instance), and marks the instance saved |
| Records.DisplayText | myapp/models.py:89-105 | `str(obj)`: `<Name> object` without a `cap_field`; otherwise the text of a string attribute, the module name, or the default; no text only when the class's own `__str__` is in force |
| Records.DisplayModuleName | myapp/models.py:89-105 | when the first named field is `__module__`, that field is replaced by the module name, and `str` of an instance gives `myapp.models` unless a field named `__str__` or `cap_field` takes over |
| Records.StrAttr | myapp/models.py:93-105 | `getattr` read by `str` gives text exactly when the instance has a string attribute of that name, its value, or, for `__module__`, the class's module name |
| Mixins.KindTag | myapp/mixins.py:13 | the kind tag followed by `Field` is the field's class name |
| Mixins.KindTagInjective | myapp/mixins.py:13 | different field classes get different tags |
| Mixins.VerboseName | myapp/mixins.py:12 | a field's verbose name is its title; a null title becomes the name with underscores turned into spaces, other characters kept |
| Mixins.FieldTriplesSpec | myapp/mixins.py:10-14 | `fields_map` has one `[name, verbose_name, kind]` triple per field in field order, whose kind followed by `Field` is the field's class name |
| Mixins.ObjData | myapp/mixins.py:19-21 | a data entry has distinct keys and at most one per field |
| Mixins.Serialized | myapp/mixins.py:16-23 | the result starts with `fields` then `data`, and its keys are distinct |
| Mixins.ObjDataSpec | myapp/mixins.py:19-21 | a data entry has exactly one key per field name, each holding the string form of the attribute, or `""` when it is missing |
| Mixins.ObjDataOrder | myapp/mixins.py:19-21 | with distinct field names a data entry lists the fields in field order |
| Mixins.DataRowSpec | myapp/mixins.py:18-22 | data entry `j` describes row `j` of the queryset |
| Mixins.SerializedShape | myapp/mixins.py:10-23 | the result has the keys `fields`, `data` and the extra keys, distinct, with `fields` and `data` first; an extra key overrides; otherwise `fields` has one triple per field and `data` one entry per row |
| Mixins.Serialize | myapp/mixins.py:9-23 | the two loops of `serialize` build exactly the specified structure |
| Mixins.FindModel | myapp/mixins.py:54 | the lookup succeeds exactly when the `entity` argument is text and a key of `MODELS_MAP`, and returns a registered model |
| Mixins.Written | myapp/mixins.py:55 | the rows written for a model are exactly the stored rows under its name |
| Mixins.InsertByIdSpec | myapp/models.py:103 | inserting into rows sorted by `id` keeps them sorted and adds exactly the new row |
| Mixins.SortByIdSpec | myapp/models.py:103 | sorting yields rows in ascending `id` order, a permutation of the input |
| Mixins.ObjectsOf | myapp/mixins.py:55 | `objects.all()` under `ordering = ("id",)`: ascending `id` order, a permutation of the model's stored rows, exactly the rows stored under its name |
| Mixins.RenderToJson | myapp/mixins.py:26-29 | the response carries the given status, JSON content and the context as its body |
| Mixins.ErrorsBody | myapp/mixins.py:66 | one entry per error field, in order, each with its messages as JSON strings |
| Mixins.ErrorsBodySpec | myapp/mixins.py:66 | the body's keys are the error fields, and each maps to its messages |
| Mixins.FormInvalid | myapp/mixins.py:64-66 | an invalid form yields status 400, JSON content, and a body mapping exactly the fields in error to their messages |
| Mixins.EntityView.GetQueryset | myapp/mixins.py:52-57 | a missing entity name raises 404 and leaves `self.model`; a registered one selects its model and returns its stored rows |
| Mixins.EntityView.RenderToResponse | myapp/mixins.py:31-42 | the response carries status 200, JSON content, the CORS header and the serialised rows with `post_url` and an `update_url` reversed with `pk` set to 0; `self.kwargs["pk"]` is 0 afterwards |
| Mixins.ListResponseCarriesUrls | myapp/mixins.py:33-39 | a list response has exactly the keys `fields`, `data`, `post_url` and `update_url`, with the given URLs |
| Mixins.RegistryKeysAreLowerCase | myapp/models.py:110 | every key `load` puts in `MODELS_MAP` is lower case |
| Mixins.UpperCaseEntityNotFound | myapp/mixins.py:52-57 | an entity name with an upper-case letter is never found |
| Mixins.LoadedEntityIsServed | myapp/mixins.py:52-57 | after a complete load, the view for the lower-cased cleaned name of any loaded entity finds a model |
| Scenarios.TestStringsEscaped | myapp/tests.py:369-373 | saving `<>&'"` stores `&lt;&gt;&amp;&#39;&quot;`, and `<>'"&` is listed as `&lt;&gt;&#39;&quot;&amp;` |
| Scenarios.CheckKeysCases | myapp/tests.py:85-95 | `_check_keys` holds with the required keys and extra ones, and fails with one missing |
| Scenarios.IntegerFieldLimits | myapp/tests.py:375-406 | the extreme 32-bit values pass `full_clean` and one past either end fails |
| Scenarios.AnymodelLoads | myapp/tests.py:16-26 | the tests' `anymodel` entity loads to the model `Anymodel`: three fields `department`, `spots`, `any_date` of char, integer and date class with their titles after the primary key, plural title `Rooms title`, `cap_field` `department`, and `str()` reading `department` |
| Scenarios.NullTitlePluralised | myapp/models.py:100-104 | an `anymodel` entity with a null `title` and no fields loads to `Anymodel` with the plural title `anymodels` |
| Scenarios.AnymodelClassName | myapp/tests.py:16-26 | the entity name `anymodel` becomes the class name `Anymodel` |
| Scenarios.ModelFromAccepted | myapp/models.py:73-106 | an entity object whose `title` and `fields` are its only keys, with distinct accepted fields and none reserved, loads to exactly the model of those fields with `cap_field` the first |
| Scenarios.AttributeTexts | myapp/tests.py:516-529 | the attributes of the stored row print as `1`, `2`, `d` and `2011-11-11` |
| Scenarios.ListViewRow | myapp/tests.py:516-529 | for the loaded `Anymodel`, the list view's row for that record maps `id`, `department`, `spots`, `any_date` to `1`, `d`, `2`, `2011-11-11` |
| Scenarios.ListViewFields | myapp/tests.py:502-514 | the field triples of the loaded `Anymodel` carry the tags `Auto`, `Char`, `Integer` and `Date` |
| Scenarios.DisplayedByDepartment | myapp/tests.py:362-367 | `str` of a row of the loaded `Anymodel` is its department |
| Scenarios.BadIntAnswersOnlyThatField | myapp/tests.py:663-685 | `full_clean` on a record whose `spots` is the text `3c` names `spots` alone, and the view answers 400 with only that key |
| Scenarios.BadDateAnswersOnlyThatField | myapp/tests.py:687-709 | `full_clean` on a record whose `any_date` is the text `2010-10-10z` names `any_date` alone, and the view answers 400 with only that key |
| Scenarios.ListedByKey | myapp/tests.py:354-360 | records created with keys 2 and then 1 are listed with key 1 first |
| Scenarios.StoredKeyRejectsNewInstance | myapp/tests.py:596-622 | a new instance whose key is stored fails `full_clean` on `id` alone, while the same values loaded from the database pass |
| Scenarios.InsertThenUpdate | myapp/tests.py:596-622 | the added record gets key 1; saving the update with that key replaces it, so the list holds the updated record only |

## Left out

- `json.loads` and `json.dumps`: the loader takes the parse outcome (a JSON value, or none when parsing fails), and `serialize` returns the structure before it becomes text.
- Reading the schema file at import time: `Loader.LoadAtImport` takes whether the file exists and what it parsed to.
- The Django ORM: class creation through `type()` beyond the app-cache lookup (a class is its model descriptor), `syncdb`, the database, `objects.create`/`get`. Rows are written in order; a save whose key is already stored for the model replaces that row (only an instance loaded from the database gets that far, since `full_clean` rejects a new instance with a stored key). Querysets are sorted by `id`, as `ordering` asks.
- The database backend, which `dj_database_url` picks at run time: the model assumes one that behaves like SQLite. It writes the escaped text even when it is longer than `max_length`, where PostgreSQL's `varchar(200)` would raise. A new row gets one more than the largest stored key, where a PostgreSQL sequence does not advance past keys given explicitly; neither backend's reuse or skipping of keys freed by deletions is modelled.
- Schema.PluralTitle: Django's general `verbose_name` rule (a space before each inner capital, then lower case) is not modelled; for a capitalised cleaned class name, which has no inner capital, it gives the lower-cased name used here.
- `to_python` conversion in `full_clean`: attribute values are already typed (string, integer, date or null). The text a form posts is not parsed.
- Django errors other than the modelled AttributeError and TypeError, for example a user field named `id` clashing with the primary key, or a field with an empty name.
- The `TypeError` that `str()` raises when `cap_field` names a non-string attribute: `Records.DisplayText` returns no text in that case.
- Only model classes are kept in the namespace. Entity names that overwrite other module globals, and `unload` of non-model globals, are out of scope.
- `reverse` URL resolution is a parameter of `RenderToResponse`. The `myapp:` routes and the project URL prefix are not modelled.
- HTTP dispatch, the CSRF decorator, `get_success_url`, `form_valid` (a save followed by `render_to_response`), `render_to_json` headers beyond status and content type, `views.py`, `admin.py`, settings and the browser code.
- Identifiers.Lower: lower-cases ASCII letters only. `str.lower()` and `str.capitalize()` also change non-ASCII letters, but `clean` has already removed those from every name they are applied to.
- Schema.CheckKeys: Python `set()` on numbers, booleans and null raises TypeError; on a list of scalars only string items can match a required key. Integer-keyed dicts do not occur, since JSON object keys are strings.
- The tests' other loading fixtures (`dirty_json`, `json_with_skips`) are not restated as concrete lemmas; the general lemmas on cleaning, skipping and the field loop cover them. `models_json` is (`Scenarios.AnymodelLoads`).
- Floating-point JSON numbers: `Json` numbers are integers.
