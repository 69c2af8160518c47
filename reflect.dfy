/**
  Struct tags and the field table of a target struct: `NewTag` and `createJSONTag` read a
  field's `rsql` or `json` tag into a name and an option map, and `getCodec` lists the
  fields with their names and indexes them by name.

  Reflection is replaced by explicit field declarations: the Go name, the text of the
  `rsql` and `json` tags (`""` when a tag is absent, as `Tag.Get` gives it) and the type.
*/
module Reflect {
  import opened Options
  import opened GoStrings
  import opened Convert

  /** One field of the struct, as reflection shows it. */
  datatype FieldDecl = FieldDecl(goName: string, rsqlTag: string, jsonTag: string, typ: TypeTag)

  /** `StructTag`: the tag's name and its options. */
  class StructTag {
    var name: string
    var values: map<string, string>

    constructor ()
      ensures name == "" && values == map[]
    {
      name := "";
      values := map[];
    }

    /** `Lookup`: the option's value and whether the tag has that option. */
    function Lookup(key: string): (r: (string, bool))
      reads this
      ensures r.1 <==> key in values
      ensures r.1 ==> r.0 == values[key]
      ensures !r.1 ==> r.0 == ""
    {
      if key in values then (values[key], true) else ("", false)
    }
  }

  /** `StructField`: the name the field goes by, its tag and its type. */
  datatype StructField = StructField(name: string, tag: StructTag, typ: TypeTag)

  /** `Struct`: the fields in declaration order, and the fields by name. */
  class Struct {
    var fields: seq<StructField>
    var names: map<string, StructField>

    constructor ()
      ensures fields == [] && names == map[]
    {
      fields := [];
      names := map[];
    }
  }

  // ---------------------------------------------------------------------------
  // The tag rules as functions
  // ---------------------------------------------------------------------------

  /** The key of an option part: the text before its first `=`, or all of it. */
  function OptionKey(part: string): string {
    SplitN2(part, '=')[0]
  }

  /** The value of an option part: the text after its first `=`, or `""` when there is none. */
  function OptionValue(part: string): string {
    var p := SplitN2(part, '=');
    if |p| > 1 then p[1] else ""
  }

  /** The options the parts `k=v` (or `k`) make, read from first to last. */
  function OptionMap(parts: seq<string>): map<string, string>
    decreases |parts|
  {
    if parts == [] then map[]
    else
      var last := parts[|parts| - 1];
      OptionMap(parts[..|parts| - 1])[OptionKey(last) := OptionValue(last)]
  }

  lemma OptionMapStep(parts: seq<string>, i: nat)
    requires 1 <= i < |parts|
    ensures OptionMap(parts[1..i + 1]) == OptionMap(parts[1..i])[OptionKey(parts[i]) := OptionValue(parts[i])]
  {
    assert parts[1..i + 1][..i - 1] == parts[1..i];
  }

  /** Setting the key to `""` and then, when there is one, to the value, as `NewTag` does, adds the option. */
  lemma OptionSet(m: map<string, string>, p: seq<string>, part: string)
    requires p == SplitN2(part, '=')
    ensures (if |p| > 1 then m[p[0] := ""][p[0] := p[1]] else m[p[0] := ""]) == m[OptionKey(part) := OptionValue(part)]
  {
  }

  /** The name a `json` tag gives the field. */
  function JsonName(goName: string, tagVal: string): string {
    if ',' in tagVal then
      (var parts := Split(tagVal, ',');
       if parts[0] != "" then parts[0] else goName)
    else if tagVal == "-" || tagVal == "" then goName
    else tagVal
  }

  /** The options a `json` tag gives the field: filtering, sorting and every operator. */
  function JsonOptions(allowAll: seq<string>): map<string, string> {
    map["filter" := "", "sort" := "", "allow" := Join(allowAll, "|")]
  }

  /** The `json` rules apply: no `rsql` tag, but a `json` tag. */
  predicate UsesJson(d: FieldDecl) {
    d.rsqlTag == "" && d.jsonTag != ""
  }

  function TagName(d: FieldDecl): string {
    if UsesJson(d) then JsonName(d.goName, d.jsonTag) else Split(d.rsqlTag, ',')[0]
  }

  function TagOptions(d: FieldDecl, allowAll: seq<string>): map<string, string> {
    if UsesJson(d) then JsonOptions(allowAll) else OptionMap(Split(d.rsqlTag, ',')[1..])
  }

  /** The name the field goes by in the table: its tag's name, or its Go name when that is empty. */
  function FieldName(d: FieldDecl): string {
    if TagName(d) != "" then TagName(d) else d.goName
  }

  /** The table entry `f` is what `getCodec` makes of the declaration `d`. */
  predicate Describes(f: StructField, d: FieldDecl, allowAll: seq<string>)
    reads f.tag
  {
    f.name == FieldName(d) && f.typ == d.typ
    && f.tag.name == TagName(d) && f.tag.values == TagOptions(d, allowAll)
  }

  /** The fields by name, filled from first to last. */
  function NameIndex(fields: seq<StructField>): map<string, StructField>
    decreases |fields|
  {
    if fields == [] then map[]
    else
      var last := fields[|fields| - 1];
      NameIndex(fields[..|fields| - 1])[last.name := last]
  }

  // ---------------------------------------------------------------------------
  // The Go functions
  // ---------------------------------------------------------------------------

  /** `createJSONTag(fv, tagVal)`; `allowAll` is the list of every operator. */
  method CreateJsonTag(goName: string, tagVal: string, allowAll: seq<string>) returns (t: StructTag)
    ensures fresh(t)
    ensures t.name == JsonName(goName, tagVal) && t.values == JsonOptions(allowAll)
  {
    t := new StructTag();
    if ',' in tagVal {
      var parts := Split(tagVal, ',');
      if parts[0] != "" {
        t.name := parts[0];
      } else {
        t.name := goName;
      }
    } else if tagVal == "-" || tagVal == "" {
      t.name := goName;
    } else {
      t.name := tagVal;
    }
    t.values := t.values["filter" := ""];
    t.values := t.values["sort" := ""];
    t.values := t.values["allow" := Join(allowAll, "|")];
  }

  /** `NewTag(fv)`. */
  method NewTag(d: FieldDecl, allowAll: seq<string>) returns (t: StructTag)
    ensures fresh(t)
    ensures t.name == TagName(d) && t.values == TagOptions(d, allowAll)
  {
    var tagVal := d.rsqlTag;
    if tagVal == "" {
      tagVal := d.jsonTag;
      if tagVal != "" {
        t := CreateJsonTag(d.goName, tagVal, allowAll);
        return;
      }
    }
    var paths := Split(tagVal, ',');
    t := new StructTag();
    t.name := paths[0];
    for i := 1 to |paths|
      invariant t.name == paths[0] && t.values == OptionMap(paths[1..i])
    {
      var p := SplitN2(paths[i], '=');
      OptionSet(t.values, p, paths[i]);
      OptionMapStep(paths, i);
      t.values := t.values[p[0] := ""];
      if |p| > 1 {
        t.values := t.values[p[0] := p[1]];
      }
    }
    assert paths[1..|paths|] == paths[1..];
  }

  /** `getCodec(t)` for the struct whose fields are `decls`. */
  method GetCodec(decls: seq<FieldDecl>, allowAll: seq<string>) returns (codec: Struct)
    ensures fresh(codec)
    ensures |codec.fields| == |decls|
    ensures forall i :: 0 <= i < |decls| ==> fresh(codec.fields[i].tag)
    ensures forall i :: 0 <= i < |decls| ==> Describes(codec.fields[i], decls[i], allowAll)
    ensures codec.names == NameIndex(codec.fields)
  {
    var fields: seq<StructField> := [];
    codec := new Struct();
    for i := 0 to |decls|
      invariant |fields| == i
      invariant forall j :: 0 <= j < i ==> fresh(fields[j].tag)
      invariant forall j :: 0 <= j < i ==> Describes(fields[j], decls[j], allowAll)
    {
      var tag := NewTag(decls[i], allowAll);
      var name := decls[i].goName;
      if tag.name != "" {
        name := tag.name;
      }
      fields := fields + [StructField(name, tag, decls[i].typ)];
    }
    codec.fields := fields;
    codec.names := map[];
    for i := 0 to |fields|
      modifies codec
      invariant codec.fields == fields
      invariant codec.names == NameIndex(fields[..i])
    {
      NameIndexStep(fields, i);
      codec.names := codec.names[fields[i].name := fields[i]];
    }
    assert fields[..|fields|] == fields;
  }

  // ---------------------------------------------------------------------------
  // Properties
  // ---------------------------------------------------------------------------

  lemma NameIndexStep(fields: seq<StructField>, i: nat)
    requires i < |fields|
    ensures NameIndex(fields[..i + 1]) == NameIndex(fields[..i])[fields[i].name := fields[i]]
  {
    assert fields[..i + 1][..i] == fields[..i];
  }

  /** The first of the pieces `Split` makes is the text before the first separator, or all the text. */
  lemma SplitFirst(s: string, sep: char)
    ensures Split(s, sep)[0] == if sep in s then s[..IndexOf(s, sep)] else s
  {
  }

  /** The options hold exactly the keys of the parts. */
  lemma {:induction false} OptionKeys(parts: seq<string>, key: string)
    ensures key in OptionMap(parts) <==> exists i :: 0 <= i < |parts| && OptionKey(parts[i]) == key
    decreases |parts|
  {
    if parts != [] {
      var front := parts[..|parts| - 1];
      OptionKeys(front, key);
      if key in OptionMap(front) {
        var i :| 0 <= i < |front| && OptionKey(front[i]) == key;
        assert parts[i] == front[i];
      }
      if exists i :: 0 <= i < |parts| && OptionKey(parts[i]) == key {
        var i :| 0 <= i < |parts| && OptionKey(parts[i]) == key;
        if i < |front| {
          assert front[i] == parts[i];
        }
      }
    }
  }

  /**
    A key's value comes from the last part with that key: the text after its first `=`,
    or `""` when it has none.
  */
  lemma {:induction false} OptionsLastWins(parts: seq<string>, key: string, i: nat)
    requires i < |parts| && OptionKey(parts[i]) == key
    requires forall j :: i < j < |parts| ==> OptionKey(parts[j]) != key
    ensures key in OptionMap(parts) && OptionMap(parts)[key] == OptionValue(parts[i])
    decreases |parts|
  {
    if i < |parts| - 1 {
      var front := parts[..|parts| - 1];
      assert front[i] == parts[i];
      forall j | i < j < |front| ensures OptionKey(front[j]) != key {
        assert front[j] == parts[j];
      }
      OptionsLastWins(front, key, i);
    }
  }

  /** An option part splits at its first `=`: key, `=`, value; without `=` it is all key. */
  lemma OptionParts(part: string)
    ensures '=' !in OptionKey(part)
    ensures '=' in part ==> part == OptionKey(part) + "=" + OptionValue(part)
    ensures '=' !in part ==> OptionKey(part) == part && OptionValue(part) == ""
  {
  }

  /**
    The tag name: with a `rsql` tag, the text before its first comma; with only a `json`
    tag, the text before its first comma, or the Go name when that is empty or the tag is
    `-`; with neither, `""`.
  */
  lemma TagNameRules(d: FieldDecl)
    ensures d.rsqlTag != "" ==> TagName(d) == if ',' in d.rsqlTag then d.rsqlTag[..IndexOf(d.rsqlTag, ',')] else d.rsqlTag
    ensures UsesJson(d) && ',' in d.jsonTag ==>
      var before := d.jsonTag[..IndexOf(d.jsonTag, ',')];
      TagName(d) == if before != "" then before else d.goName
    ensures UsesJson(d) && ',' !in d.jsonTag ==> TagName(d) == if d.jsonTag == "-" then d.goName else d.jsonTag
    ensures d.rsqlTag == "" && d.jsonTag == "" ==> TagName(d) == "" && FieldName(d) == d.goName
  {
    SplitFirst(d.rsqlTag, ',');
    SplitFirst(d.jsonTag, ',');
  }

  /**
    The tag options: a `json` tag always allows filtering, sorting and every operator; a
    field without tags has no options; the options of a `rsql` tag are its comma parts
    after the first, read as by `OptionKeys` and `OptionsLastWins`.
  */
  lemma TagOptionsRules(d: FieldDecl, allowAll: seq<string>)
    ensures UsesJson(d) ==> TagOptions(d, allowAll) == map["filter" := "", "sort" := "", "allow" := Join(allowAll, "|")]
    ensures d.rsqlTag == "" && d.jsonTag == "" ==> TagOptions(d, allowAll) == map[]
    ensures d.rsqlTag != "" ==> TagOptions(d, allowAll) == OptionMap(Split(d.rsqlTag, ',')[1..])
  {
    if d.rsqlTag == "" && d.jsonTag == "" {
      assert Split("", ',') == [""];
    }
  }

  /** The index holds exactly the names of the fields. */
  lemma {:induction false} NameIndexKeys(fields: seq<StructField>, name: string)
    ensures name in NameIndex(fields) <==> exists i :: 0 <= i < |fields| && fields[i].name == name
    decreases |fields|
  {
    if fields != [] {
      var front := fields[..|fields| - 1];
      NameIndexKeys(front, name);
      if name in NameIndex(front) {
        var i :| 0 <= i < |front| && front[i].name == name;
        assert fields[i] == front[i];
      }
      if exists i :: 0 <= i < |fields| && fields[i].name == name {
        var i :| 0 <= i < |fields| && fields[i].name == name;
        if i < |front| {
          assert front[i] == fields[i];
        }
      }
    }
  }

  /** Each name leads to the last field that bears it. */
  lemma {:induction false} NameIndexLastWins(fields: seq<StructField>, i: nat)
    requires i < |fields|
    requires forall j :: i < j < |fields| ==> fields[j].name != fields[i].name
    ensures fields[i].name in NameIndex(fields) && NameIndex(fields)[fields[i].name] == fields[i]
    decreases |fields|
  {
    if i < |fields| - 1 {
      var front := fields[..|fields| - 1];
      assert front[i] == fields[i];
      forall j | i < j < |front| ensures front[j].name != front[i].name {
        assert front[j] == fields[j];
      }
      NameIndexLastWins(front, i);
    }
  }
}
