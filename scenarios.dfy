/** The concrete cases the repository's own tests check, stated over the
    model: each lemma fixes the inputs a test uses and proves the outcome
    the test expects. */
module Scenarios {
  import opened Wrappers
  import opened Identifiers
  import opened Escaping
  import opened PyDict
  import opened JsonValue
  import opened Schema
  import opened Text
  import opened Records
  import opened Mixins

  /** Escaping five characters is escaping each of them. */
  lemma EscapeFive(a: char, b: char, c: char, d: char, e: char)
    ensures Escape([a, b, c, d, e]) == EscapeChar(a) + EscapeChar(b) + EscapeChar(c) + EscapeChar(d) + EscapeChar(e)
  {
    assert [a, b, c, d, e] == [a] + [b] + [c] + [d] + [e];
    EscapeConcat([a] + [b] + [c] + [d], [e]);
    EscapeConcat([a] + [b] + [c], [d]);
    EscapeConcat([a] + [b], [c]);
    EscapeConcat([a], [b]);
    EscapeOneChar(a);
    EscapeOneChar(b);
    EscapeOneChar(c);
    EscapeOneChar(d);
    EscapeOneChar(e);
  }

  /** Saving `<>&'"` stores `&lt;&gt;&amp;&#39;&quot;`, and a listed row
      shows `<>'"&` as `&lt;&gt;&#39;&quot;&amp;`: each ampersand of the
      input is escaped once, none of the ones escaping introduced. */
  lemma TestStringsEscaped(saved: string, listed: string)
    requires saved == "<>&'\"" && listed == "<>'\"&"
    ensures Escape(saved) == "&lt;&gt;&amp;&#39;&quot;"
    ensures Escape(listed) == "&lt;&gt;&#39;&quot;&amp;"
  {
    assert saved == [saved[0], saved[1], saved[2], saved[3], saved[4]];
    EscapeFive('<', '>', '&', '\'', '"');
    assert listed == [listed[0], listed[1], listed[2], listed[3], listed[4]];
    EscapeFive('<', '>', '\'', '"', '&');
  }

  /** `_check_keys` on dicts: extra keys do not matter, a missing one does. */
  lemma CheckKeysCases()
    ensures CheckKeys(JObj([("key1", JNum(1)), ("key2", JNum(2))]), ["key1", "key2"]) == Ok(true)
    ensures CheckKeys(JObj([("key1", JNum(1)), ("key2", JNum(2)), ("key3", JNum(3))]), ["key1", "key2"]) == Ok(true)
    ensures CheckKeys(JObj([("key1", JNum(1))]), ["key1", "key2"]) == Ok(false)
  {
    var two: Dict<Json> := [("key1", JNum(1)), ("key2", JNum(2))];
    var three: Dict<Json> := [("key1", JNum(1)), ("key2", JNum(2)), ("key3", JNum(3))];
    var one: Dict<Json> := [("key1", JNum(1))];
    assert two[0].0 == "key1" && two[1].0 == "key2";
    assert three[0].0 == "key1" && three[1].0 == "key2" && three[2].0 == "key3";
    assert "key1" in Keys(three) && "key2" in Keys(three);
    assert Keys(one) == {"key1"} by {
      assert one[0].0 == "key1";
    }
    assert "key2" !in Keys(one);
  }

  /** `full_clean` accepts the extreme 32-bit values of an integer field
      and rejects one past either end. */
  lemma IntegerFieldLimits(fields: seq<FieldDef>, vals: map<string, Value>, i: int)
    requires HasAll(fields, vals) && DistinctNames(fields)
    requires 0 <= i < |fields| && fields[i].kind == IntegerField
    ensures vals[fields[i].name] == Int(2147483647) ==> fields[i].name !in Errors(fields, vals)
    ensures vals[fields[i].name] == Int(-2147483648) ==> fields[i].name !in Errors(fields, vals)
    ensures vals[fields[i].name] == Int(2147483648) ==> fields[i].name in Errors(fields, vals)
    ensures vals[fields[i].name] == Int(-2147483649) ==> fields[i].name in Errors(fields, vals)
  {
    if vals[fields[i].name].Int? {
      IntegerBounds(fields, vals, i, vals[fields[i].name].n);
    }
  }

  /** `str` of the stored attributes as the list view shows them. */
  lemma AttributeTexts()
    ensures ValueText(Int(1)) == "1"
    ensures ValueText(Int(2)) == "2"
    ensures ValueText(Str("d")) == "d"
    ensures ValueText(Day(Date(2011, 11, 11))) == "2011-11-11"
  {
    DateText(2011, 11, 11, "2011", "11", "11", "2011-11-11");
  }

  /** The ISO text of a date whose year has four digits and whose month and
      day have two. */
  lemma DateText(y: nat, m: nat, d: nat, ys: string, ms: string, ds: string, r: string)
    requires NatToDecimal(y) == ys && NatToDecimal(m) == ms && NatToDecimal(d) == ds
    requires |ys| == 4 && |ms| == 2 && |ds| == 2 && r == ys + "-" + ms + "-" + ds
    ensures ValueText(Day(Date(y, m, d))) == r
  {
  }

  /** The model the repository's tests load: `anymodel` with a char, an
      integer and a date field (`AnymodelLoads` derives it from the schema
      document). */
  const Anymodel: ModelDef := ModelDef("Anymodel", JStr("Rooms title"),
    [IdField, FieldDef("department", JStr("Dept title"), CharField),
     FieldDef("spots", JStr("Spots title"), IntegerField),
     FieldDef("any_date", JStr("Any date title"), DateField)],
    Some("department"))

  /** One entry of a `fields` list: `{"id": .., "title": .., "type": ..}`. */
  function FieldEntry(id: string, title: string, kind: string): Json {
    JObj([("id", JStr(id)), ("title", JStr(title)), ("type", JStr(kind))])
  }

  /** An entry whose `id` and `type` are already clean and whose `type` is in
      `field_map` becomes a field of that name, title and class. */
  lemma FieldEntryAccepted(e: Json, id: string, title: string, kind: string)
    requires e == FieldEntry(id, title, kind)
    requires IsIdentifier(id) && IsIdentifier(kind) && kind in FieldMap()
    ensures FieldOf(e) == Ok(Some(FieldDef(id, JStr(title), FieldMap()[kind])))
  {
    var m := e.members;
    assert m[0].0 == "id" && m[1].0 == "title" && m[2].0 == "type";
    assert DistinctKeys(m);
    LookupDistinct(m, 0);
    LookupDistinct(m, 1);
    LookupDistinct(m, 2);
    CleanFixesExactlyIdentifiers(id);
    CleanFixesExactlyIdentifiers(kind);
    FieldOfAccepts(e, FieldDef(id, JStr(title), FieldMap()[kind]));
  }

  lemma AcceptedCons(e: Json, rest: seq<Json>, f: FieldDef, fs: seq<FieldDef>)
    requires FieldOf(e) == Ok(Some(f)) && AcceptedFields(rest) == Ok(fs)
    ensures AcceptedFields([e] + rest) == Ok([f] + fs)
  {
    assert ([e] + rest)[0] == e && ([e] + rest)[1..] == rest;
  }

  lemma AcceptedOne(e: Json, f: FieldDef)
    requires FieldOf(e) == Ok(Some(f))
    ensures AcceptedFields([e]) == Ok([f])
  {
    var none: seq<Json> := [];
    var nofs: seq<FieldDef> := [];
    assert AcceptedFields(none) == Ok(nofs);
    AcceptedCons(e, none, f, nofs);
    assert [e] + none == [e] && [f] + nofs == [f];
  }

  lemma AcceptedTwo(e1: Json, e2: Json, f1: FieldDef, f2: FieldDef)
    requires FieldOf(e1) == Ok(Some(f1)) && FieldOf(e2) == Ok(Some(f2))
    ensures AcceptedFields([e1, e2]) == Ok([f1, f2])
  {
    AcceptedOne(e2, f2);
    AcceptedCons(e1, [e2], f1, [f2]);
    assert [e1] + [e2] == [e1, e2] && [f1] + [f2] == [f1, f2];
  }

  /** A list of three accepted entries yields their three fields. */
  lemma AcceptedThree(e1: Json, e2: Json, e3: Json, f1: FieldDef, f2: FieldDef, f3: FieldDef)
    requires FieldOf(e1) == Ok(Some(f1)) && FieldOf(e2) == Ok(Some(f2)) && FieldOf(e3) == Ok(Some(f3))
    ensures AcceptedFields([e1, e2, e3]) == Ok([f1, f2, f3])
  {
    AcceptedTwo(e2, e3, f2, f3);
    AcceptedCons(e1, [e2, e3], f1, [f2, f3]);
    assert [e1] + [e2, e3] == [e1, e2, e3] && [f1] + [f2, f3] == [f1, f2, f3];
  }

  /** Accepted fields with distinct, non-reserved names, the first of them
      non-empty, come out of the field loop unchanged, with `cap_field` the
      first name. */
  lemma DistinctFieldsLoop(items: seq<Json>, fs: seq<FieldDef>)
    requires AcceptedFields(items) == Ok(fs) && DistinctNames(fs)
    requires |fs| >= 1 && fs[0].name != ""
    requires forall i :: 0 <= i < |fs| ==> fs[i].name !in ReservedAttrs
    ensures RunFieldLoop(FieldLoop([], None), items) == Ok(FieldLoop(fs, Some(fs[0].name)))
    ensures WithoutReserved(fs) == fs
  {
    FieldLoopSpec(items);
    LastWinsDistinct(fs);
    WithoutReservedNone(fs);
  }

  /** The model of an entity `{"title": .., "fields": items}` whose items
      are accepted as fields with distinct, non-reserved names, the first of
      them non-empty. */
  lemma AcceptedEntity(name: string, m: Dict<Json>, title: Json, items: seq<Json>, fs: seq<FieldDef>)
    requires |m| == 2 && m[0] == ("title", title) && m[1] == ("fields", JArr(items))
    requires AcceptedFields(items) == Ok(fs) && DistinctNames(fs)
    requires |fs| >= 1 && fs[0].name != ""
    requires forall i :: 0 <= i < |fs| ==> fs[i].name !in ReservedAttrs
    ensures ModelFor(name, JObj(m)) ==
      Ok(Some(ModelDef(Capitalize(Clean(name)), PluralTitle(Capitalize(Clean(name)), title), [IdField] + fs, Some(fs[0].name))))
  {
    DistinctFieldsLoop(items, fs);
    TitledFields(m, title, items);
    EntityWithFields(name, m, items, FieldLoop(fs, Some(fs[0].name)));
  }

  /** An entity whose `title` is null gets Django's default plural title,
      its lower-cased class name followed by `s`. */
  lemma NullTitlePluralised(name: string, attrs: Json)
    requires name == "anymodel" && attrs == JObj([("title", JNull), ("fields", JArr([]))])
    ensures ModelFor(name, attrs) == Ok(Some(ModelDef("Anymodel", JStr("anymodels"), [IdField], None)))
  {
    TitledFields(attrs.members, JNull, []);
    EntityWithFields(name, attrs.members, [], FieldLoop([], None));
    assert [IdField] + WithoutReserved([]) == [IdField];
    AnymodelClassName(name);
    AnymodelPlural();
  }

  lemma AnymodelPlural()
    ensures PluralTitle("Anymodel", JNull) == JStr("anymodels")
  {
    LowerOfLowercase("nymodel");
    assert Lower("Anymodel") == [LowerChar('A')] + Lower("nymodel");
  }

  /** `{"title": title, "fields": items}` has clean keys and both members. */
  lemma TitledFields(m: Dict<Json>, title: Json, items: seq<Json>)
    requires |m| == 2 && m[0] == ("title", title) && m[1] == ("fields", JArr(items))
    ensures CleanKeys(m) == m && "title" in Keys(m)
    ensures Lookup(m, "fields") == Some(JArr(items)) && Lookup(m, "title") == Some(title)
  {
    assert IsIdentifier("title") && IsIdentifier("fields");
    TwoCleanKeys(m);
  }

  /** An entity whose keys are already clean, that has `title` and a list of
      `fields`, and whose field loop ends in state `st`, becomes the model
      built from `st`. */
  lemma EntityWithFields(name: string, m: Dict<Json>, items: seq<Json>, st: FieldLoop)
    requires CleanKeys(m) == m && "title" in Keys(m) && Lookup(m, "fields") == Some(JArr(items))
    requires RunFieldLoop(FieldLoop([], None), items) == Ok(st)
    ensures ModelFor(name, JObj(m)) ==
      Ok(Some(ModelDef(Capitalize(Clean(name)), PluralTitle(Capitalize(Clean(name)), Lookup(m, "title").value),
                       [IdField] + WithoutReserved(st.fields), st.firstName)))
  {
    ModelKeysPresent(m);
    assert Iterate(Lookup(m, "fields").value) == Ok(items);
  }

  lemma ModelKeysPresent(m: Dict<Json>)
    requires "title" in Keys(m) && "fields" in Keys(m)
    ensures CheckKeys(JObj(m), RequiredModelKeys) == Ok(true)
  {
    assert forall k :: k in RequiredModelKeys ==> k in Keys(m);
  }

  /** Loading the `anymodel` entity of the tests' schema document gives the
      model `Anymodel`: the primary key and the department, spots and date
      fields in that order, titled `Rooms title` and shown by its department. */
  lemma AnymodelLoads(name: string, attrs: Json)
    requires name == "anymodel"
    requires attrs == JObj([("title", JStr("Rooms title")),
                            ("fields", JArr([FieldEntry("department", "Dept title", "char"),
                                             FieldEntry("spots", "Spots title", "integer"),
                                             FieldEntry("any_date", "Any date title", "date")]))])
    ensures ModelFor(name, attrs) == Ok(Some(Anymodel))
    ensures DisplayOf(Anymodel) == CapAttr("department")
  {
    var items := attrs.members[1].1.items;
    DepartmentEntry(items[0]);
    SpotsEntry(items[1]);
    AnyDateEntry(items[2]);
    AnymodelClassName(name);
    AnymodelFieldNames(Anymodel.fields[1..]);
    AcceptedThree(items[0], items[1], items[2], Anymodel.fields[1], Anymodel.fields[2], Anymodel.fields[3]);
    assert items == [items[0], items[1], items[2]];
    assert Anymodel.fields[1..] == [Anymodel.fields[1], Anymodel.fields[2], Anymodel.fields[3]];
    ModelFromAccepted(name, attrs.members, JStr("Rooms title"), items, Anymodel);
    AnymodelDisplay();
  }

  lemma DepartmentEntry(e: Json)
    requires e == FieldEntry("department", "Dept title", "char")
    ensures FieldOf(e) == Ok(Some(Anymodel.fields[1]))
  {
    assert IsIdentifier("department") && IsIdentifier("char");
    FieldEntryAccepted(e, "department", "Dept title", "char");
  }

  lemma SpotsEntry(e: Json)
    requires e == FieldEntry("spots", "Spots title", "integer")
    ensures FieldOf(e) == Ok(Some(Anymodel.fields[2]))
  {
    assert IsIdentifier("spots") && IsIdentifier("integer");
    FieldEntryAccepted(e, "spots", "Spots title", "integer");
  }

  lemma AnyDateEntry(e: Json)
    requires e == FieldEntry("any_date", "Any date title", "date")
    ensures FieldOf(e) == Ok(Some(Anymodel.fields[3]))
  {
    assert IsIdentifier("any_date") && IsIdentifier("date");
    FieldEntryAccepted(e, "any_date", "Any date title", "date");
  }

  /** An entity `{"title": .., "fields": items}` whose items are accepted as
      the declared fields of `md`, with distinct, non-reserved names, under a
      name that capitalises to `md`'s, loads as `md` when `md` is shown by
      its first declared field. */
  lemma ModelFromAccepted(name: string, m: Dict<Json>, title: Json, items: seq<Json>, md: ModelDef)
    requires Capitalize(Clean(name)) == md.name && |md.fields| >= 2 && md.fields[0] == IdField
    requires |m| == 2 && m[0] == ("title", title) && m[1] == ("fields", JArr(items))
    requires md.pluralTitle == PluralTitle(md.name, title)
    requires AcceptedFields(items) == Ok(md.fields[1..])
    requires md.fields[1].name != "" && DistinctNames(md.fields[1..])
    requires forall i :: 0 <= i < |md.fields[1..]| ==> md.fields[1..][i].name !in ReservedAttrs
    requires md.capField == Some(md.fields[1].name)
    ensures ModelFor(name, JObj(m)) == Ok(Some(md))
  {
    var fs := md.fields[1..];
    AcceptedEntity(name, m, title, items, fs);
    assert [IdField] + fs == md.fields;
  }

  /** The declared fields of `Anymodel` have distinct, non-reserved names. */
  lemma AnymodelFieldNames(fs: seq<FieldDef>)
    requires fs == Anymodel.fields[1..]
    ensures |fs| >= 1 && fs[0].name != "" && DistinctNames(fs)
    ensures forall i :: 0 <= i < |fs| ==> fs[i].name !in ReservedAttrs
  {
    assert |fs[0].name| == 10 && |fs[1].name| == 5 && |fs[2].name| == 8;
    NotReserved(fs[0].name);
    NotReserved(fs[1].name);
    NotReserved(fs[2].name);
  }

  /** A name that starts with neither `M` nor `_`, and is not a four-letter
      word starting with `s`, is none of the reserved attribute names. */
  lemma NotReserved(x: string)
    requires |x| > 0 && x[0] != 'M' && x[0] != '_' && (x[0] != 's' || |x| != 4)
    ensures x !in ReservedAttrs
  {
    var meta, save, dunder := "Meta", "save", "__module__";
    assert meta[0] == 'M' && save[0] == 's' && |save| == 4 && dunder[0] == '_';
    assert ReservedAttrs == {meta, save, dunder};
  }

  /** A two-member object with distinct clean keys. */
  lemma TwoCleanKeys(m: Dict<Json>)
    requires |m| == 2 && m[0].0 != m[1].0 && IsIdentifier(m[0].0) && IsIdentifier(m[1].0)
    ensures CleanKeys(m) == m
    ensures Keys(m) == {m[0].0, m[1].0}
    ensures Lookup(m, m[0].0) == Some(m[0].1) && Lookup(m, m[1].0) == Some(m[1].1)
  {
    assert DistinctKeys(m);
    assert Keys(m) == {m[0].0, m[1].0} by {
      forall k | k in Keys(m) ensures k == m[0].0 || k == m[1].0 {
        var i :| 0 <= i < 2 && m[i].0 == k;
      }
    }
    CleanKeysIdentity(m);
    LookupDistinct(m, 0);
    LookupDistinct(m, 1);
  }

  lemma AnymodelClassName(name: string)
    requires name == "anymodel"
    ensures Capitalize(Clean(name)) == "Anymodel"
  {
    assert LowerIdentifier(name) by {
      forall i | 0 <= i < |name| ensures 'a' <= name[i] <= 'z' {
        if i < 4 { if i < 2 { } else { } } else { if i < 6 { } else { } }
      }
    }
    CapitalizeLowerIdentifier(name, "Anymodel");
  }

  /** Lower-case letters, digits and underscores. */
  predicate LowerIdentifier(s: string) {
    forall i :: 0 <= i < |s| ==> 'a' <= s[i] <= 'z' || '0' <= s[i] <= '9' || s[i] == '_'
  }

  /** `capitalize(clean(s))` of a lower-case identifier upper-cases its first letter. */
  lemma CapitalizeLowerIdentifier(s: string, cap: string)
    requires LowerIdentifier(s) && s != [] && cap == [UpperChar(s[0])] + s[1..]
    ensures Capitalize(Clean(s)) == cap
  {
    assert IsIdentifier(s) by {
      forall i | 0 <= i < |s| ensures IsIdentChar(s[i]) { }
    }
    CleanFixesExactlyIdentifiers(s);
    LowerOfLowercase(s[1..]);
  }

  lemma LowerOfLowercase(s: string)
    requires forall i :: 0 <= i < |s| ==> !('A' <= s[i] <= 'Z')
    ensures Lower(s) == s
  {
  }

  lemma AnymodelDisplay()
    ensures DisplayOf(Anymodel) == CapAttr("department")
  {
    assert Names(Anymodel.fields) == {"id", "department", "spots", "any_date"} by {
      var a := Anymodel.fields;
      assert a[0].name == "id" && a[1].name == "department" && a[2].name == "spots" && a[3].name == "any_date";
    }
  }

  /** The stored row of the list-view tests. */
  const StoredRow: map<string, Value> :=
    map["id" := Int(1), "department" := Str("d"), "spots" := Int(2), "any_date" := Day(Date(2011, 11, 11))]

  /** The list view shows that row as the strings `1`, `d`, `2` and
      `2011-11-11`. */
  lemma ListViewRow(fs: seq<FieldDef>, rec: map<string, Value>)
    requires fs == Anymodel.fields && rec == StoredRow
    ensures var row := DataRows(fs, [rec])[0].members;
      Keys(row) == {"id", "department", "spots", "any_date"}
      && Lookup(row, "id") == Some(JStr("1"))
      && Lookup(row, "department") == Some(JStr("d"))
      && Lookup(row, "spots") == Some(JStr("2"))
      && Lookup(row, "any_date") == Some(JStr("2011-11-11"))
  {
    assert Names(fs) == {"id", "department", "spots", "any_date"} by {
      assert fs[0].name == "id" && fs[1].name == "department" && fs[2].name == "spots" && fs[3].name == "any_date";
    }
    AttributeTexts();
    DataRowSpec(fs, [rec], 0, "id");
    DataRowSpec(fs, [rec], 0, "department");
    DataRowSpec(fs, [rec], 0, "spots");
    DataRowSpec(fs, [rec], 0, "any_date");
  }

  /** The list view describes the fields of `anymodel` with the kinds
      `Auto`, `Char`, `Integer` and `Date`. */
  lemma ListViewFields(fs: seq<FieldDef>)
    requires fs == Anymodel.fields
    ensures FieldTriples(fs) == [
      JArr([JStr("id"), JStr("ID"), JStr("Auto")]),
      JArr([JStr("department"), JStr("Dept title"), JStr("Char")]),
      JArr([JStr("spots"), JStr("Spots title"), JStr("Integer")]),
      JArr([JStr("any_date"), JStr("Any date title"), JStr("Date")])]
  {
    assert KindTag(AutoField) == "Auto";
    assert KindTag(CharField) == "Char";
    assert KindTag(IntegerField) == "Integer";
    assert KindTag(DateField) == "Date";
  }

  /** `str(obj)` of a saved `anymodel` is its department. */
  lemma DisplayedByDepartment(vals: map<string, Value>)
    requires "department" in vals && vals["department"] == Str("d2")
    ensures DisplayText(Anymodel, vals) == Some("d2")
  {
  }

  /** Every field of `Anymodel` is one of its four. */
  lemma AnymodelFieldCases(f: FieldDef)
    requires f in Anymodel.fields
    ensures f == Anymodel.fields[0] || f == Anymodel.fields[1] || f == Anymodel.fields[2] || f == Anymodel.fields[3]
  {
  }

  /** An update whose date does not parse (`2010-10-10z`) is rejected by
      `full_clean` on `any_date` alone, and the view answers 400 with a JSON
      object whose only key is `any_date`. */
  lemma BadDateAnswersOnlyThatField(vals: map<string, Value>, errors: Dict<seq<string>>)
    requires vals == map["id" := Int(1), "department" := Str("dept"), "spots" := Int(3), "any_date" := Str("2010-10-10z")]
    requires Keys(errors) == Errors(Anymodel.fields, vals)
    ensures Errors(Anymodel.fields, vals) == {"any_date"}
    ensures FormInvalid(errors).status == 400 && Keys(FormInvalid(errors).body.members) == {"any_date"}
  {
    var fs := Anymodel.fields;
    assert !Accepts(fs[3].kind, vals[fs[3].name]);
    assert "any_date" in Errors(fs, vals);
    forall f | f in fs && f.name != "any_date" ensures Accepts(f.kind, vals[f.name]) {
      AnymodelFieldCases(f);
    }
  }

  /** An update whose spots are not a number (`3c`) is rejected on `spots`
      alone. */
  lemma BadIntAnswersOnlyThatField(vals: map<string, Value>, errors: Dict<seq<string>>)
    requires vals == map["id" := Int(1), "department" := Str("dept"), "spots" := Str("3c"), "any_date" := Day(Date(2010, 10, 10))]
    requires Keys(errors) == Errors(Anymodel.fields, vals)
    ensures Errors(Anymodel.fields, vals) == {"spots"}
    ensures FormInvalid(errors).status == 400 && Keys(FormInvalid(errors).body.members) == {"spots"}
  {
    var fs := Anymodel.fields;
    assert Accepts(DateField, Day(Date(2010, 10, 10))) by {
      assert !IsLeap(2010) && DaysInMonth(2010, 10) == 31;
    }
    assert !Accepts(fs[2].kind, vals[fs[2].name]);
    assert "spots" in Errors(fs, vals);
    forall f | f in fs && f.name != "spots" ensures Accepts(f.kind, vals[f.name]) {
      AnymodelFieldCases(f);
    }
  }

  /** Adding a record and then updating `/update/1`: the add inserts the row
      with primary key 1, and the update replaces that row rather than adding
      a second one, so the list shows the updated record only. */
  lemma InsertThenUpdate(added: map<string, Value>, updated: map<string, Value>)
    requires added == map["id" := Null, "department" := Str("dept"), "spots" := Int(2), "any_date" := Day(Date(2010, 10, 10))]
    requires updated == map["id" := Int(1), "department" := Str("dept1"), "spots" := Int(23), "any_date" := Day(Date(2012, 10, 10))]
    ensures WithId(added, [], "Anymodel")["id"] == Int(1)
    ensures StoreRow([], "Anymodel", WithId(added, [], "Anymodel")) == [("Anymodel", WithId(added, [], "Anymodel"))]
    ensures StoreRow([("Anymodel", WithId(added, [], "Anymodel"))], "Anymodel", updated) == [("Anymodel", updated)]
    ensures ObjectsOf(StoreRow([("Anymodel", WithId(added, [], "Anymodel"))], "Anymodel", updated), "Anymodel") == [updated]
  {
    var empty: seq<Row> := [];
    NewInstanceInserts(empty, "Anymodel", added);
    var s1 := [("Anymodel", WithId(added, empty, "Anymodel"))];
    assert SameRow(s1[0], "Anymodel", updated);
    var s2 := StoreRow(s1, "Anymodel", updated);
    assert s2 == [("Anymodel", updated)];
    assert ObjectsOf(s2, "Anymodel") == [updated];
  }

  /** Two records created with keys 2 and then 1 are listed by key: the
      one with key 1 first. */
  lemma ListedByKey(r1: map<string, Value>, r2: map<string, Value>, saved: seq<Row>)
    requires "id" in r1 && r1["id"] == Int(1) && "id" in r2 && r2["id"] == Int(2)
    requires saved == [("Anymodel", r2), ("Anymodel", r1)]
    ensures ObjectsOf(saved, "Anymodel") == [r1, r2]
  {
    WrittenTwo(saved, "Anymodel", r2, r1);
    SortTwo(r2, r1);
  }

  lemma WrittenTwo(saved: seq<Row>, name: string, a: map<string, Value>, b: map<string, Value>)
    requires saved == [(name, a), (name, b)]
    ensures Written(saved, name) == [a, b]
  {
    assert saved[1..] == [(name, b)] && saved[1..][1..] == [];
  }

  lemma SortTwo(a: map<string, Value>, b: map<string, Value>)
    requires IdKey(b) < IdKey(a)
    ensures SortById([a, b]) == [b, a]
  {
    assert [a, b][1..] == [b] && [b][1..] == [];
    assert SortById([b]) == [b];
    assert InsertById(a, [b]) == [b] + InsertById(a, []);
  }

  /** A new instance whose key is already stored fails `full_clean` on `id`
      alone, so nothing is saved; the same values loaded from the database
      pass. */
  lemma StoredKeyRejectsNewInstance(vals: map<string, Value>, saved: seq<Row>)
    requires vals == StoredRow && saved == [("Anymodel", StoredRow)]
    ensures FullClean(Anymodel, vals, true, saved) == {"id"}
    ensures FullClean(Anymodel, vals, false, saved) == {}
  {
    var fs := Anymodel.fields;
    assert Accepts(DateField, Day(Date(2011, 11, 11))) by {
      assert !IsLeap(2011) && DaysInMonth(2011, 11) == 30;
    }
    forall f | f in fs ensures Accepts(f.kind, vals[f.name]) {
      AnymodelFieldCases(f);
    }
    assert SameRow(saved[0], "Anymodel", vals);
  }
}
