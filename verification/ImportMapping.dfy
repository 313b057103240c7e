/** Stored JSON values, and the column mapping that readColumnMapping accepts from one. */
module ImportMapping {

  /** A value read back from a JSON column. Numbers are kept as their canonical text. */
  datatype Json =
    | Null
    | Bool(flag: bool)
    | Number(text: string)
    | String(value: string)
    | Array(items: seq<Json>)
    | Object(fields: seq<(string, Json)>)

  datatype Result<+T, +E> = Ok(value: T) | Err(error: E)

  /** The characters that String.prototype.trim removes. */
  predicate IsSpace(c: char) {
    || '\t' <= c <= '\r' || c == ' ' || c == '\U{A0}' || c == '\U{1680}' || '\U{2000}' <= c <= '\U{200A}'
    || c == '\U{2028}' || c == '\U{2029}' || c == '\U{202F}' || c == '\U{205F}' || c == '\U{3000}' || c == '\U{FEFF}'
  }

  predicate IsBlank(text: string) {
    forall c | c in text :: IsSpace(c)
  }

  /** The white space and line terminators of sections 12.2 and 12.3 of ECMA-262, by code point. */
  lemma SpacesExactly(c: char)
    ensures IsSpace(c) <==>
            c as int in {0x09, 0x0A, 0x0B, 0x0C, 0x0D, 0x20, 0xA0, 0x1680, 0x2000, 0x2001, 0x2002, 0x2003, 0x2004,
                         0x2005, 0x2006, 0x2007, 0x2008, 0x2009, 0x200A, 0x2028, 0x2029, 0x202F, 0x205F, 0x3000, 0xFEFF}
  {
  }

  function TrimStart(text: string): string {
    if text != "" && IsSpace(text[0]) then TrimStart(text[1..]) else text
  }

  function TrimEnd(text: string): string {
    if text != "" && IsSpace(text[|text| - 1]) then TrimEnd(text[..|text| - 1]) else text
  }

  lemma {:induction false} TrimStartLeavesNothing(text: string)
    ensures TrimStart(text) == "" <==> IsBlank(text)
  {
    if text != "" {
      assert text[0] in text && text == [text[0]] + text[1..];
      TrimStartLeavesNothing(text[1..]);
    }
  }

  lemma {:induction false} TrimEndOfNonSpace(text: string)
    requires text != "" && !IsSpace(text[0])
    ensures TrimEnd(text) != ""
  {
    if |text| > 1 && IsSpace(text[|text| - 1]) { TrimEndOfNonSpace(text[..|text| - 1]); }
  }

  lemma {:induction false} TrimStartBeginsWithNoSpace(text: string)
    ensures TrimStart(text) != "" ==> !IsSpace(TrimStart(text)[0])
  {
    if text != "" && IsSpace(text[0]) { TrimStartBeginsWithNoSpace(text[1..]); }
  }

  /** A text is blank exactly when trimming it leaves nothing. */
  lemma BlankMeansTrimmedAway(text: string)
    ensures IsBlank(text) <==> TrimEnd(TrimStart(text)) == ""
  {
    TrimStartLeavesNothing(text);
    TrimStartBeginsWithNoSpace(text);
    if TrimStart(text) != "" { TrimEndOfNonSpace(TrimStart(text)); }
  }

  predicate IsNonEmptyString(value: Json) {
    value.String? && !IsBlank(value.value)
  }

  const IMPORT_FIELDS: set<string> := {
    "displayName", "contactName", "phoneNumber", "phoneCountry",
    "invitationType", "maxCompanions", "members", "internalNote"
  }

  type Mapping = map<string, string>

  /** Every reason shares the code IMPORT_MAPPING_INVALID. */
  datatype MappingError = NotARecord | UnsupportedEntry | UnknownColumn | RequiredMissing | ColumnMappedTwice

  /** A JSON object has no two fields of one name. */
  ghost predicate DistinctNames(fields: seq<(string, Json)>) {
    forall i, j :: 0 <= i < j < |fields| ==> fields[i].0 != fields[j].0
  }

  ghost predicate Injective(mapping: Mapping) {
    forall f, g :: f in mapping && g in mapping && mapping[f] == mapping[g] ==> f == g
  }

  /** The mapping uses allowed fields and existing columns only. */
  ghost predicate Within(mapping: Mapping, allowed: set<string>, headers: seq<string>) {
    forall f :: f in mapping ==> f in allowed && mapping[f] in headers && !IsBlank(mapping[f])
  }

  /** What a mapping must satisfy to be used: known fields on existing columns, each column once. */
  ghost predicate Usable(mapping: Mapping, headers: seq<string>) {
    && Within(mapping, IMPORT_FIELDS, headers)
    && "displayName" in mapping && "phoneNumber" in mapping
    && Injective(mapping)
  }

  /** The mapping that the fields of a stored object spell, if all of them are strings. */
  function Spelled(fields: seq<(string, Json)>): Mapping {
    if fields == [] then map[]
    else
      var last := fields[|fields| - 1];
      var before := Spelled(fields[..|fields| - 1]);
      if last.1.String? then before[last.0 := last.1.value] else before
  }

  lemma SpelledOneMore(fields: seq<(string, Json)>, i: nat)
    requires i < |fields| && fields[i].1.String?
    ensures Spelled(fields[..i + 1]) == Spelled(fields[..i])[fields[i].0 := fields[i].1.value]
  {
    assert fields[..i + 1][..i] == fields[..i];
  }

  lemma {:induction false} SpelledFieldByField(fields: seq<(string, Json)>)
    requires DistinctNames(fields)
    ensures forall f :: f in Spelled(fields) ==>
              exists i :: 0 <= i < |fields| && fields[i] == (f, String(Spelled(fields)[f]))
    ensures forall i :: 0 <= i < |fields| && fields[i].1.String? ==>
              fields[i].0 in Spelled(fields) && Spelled(fields)[fields[i].0] == fields[i].1.value
  {
    if fields != [] {
      var n := |fields| - 1;
      SpelledFieldByField(fields[..n]);
      forall f | f in Spelled(fields)
        ensures exists i :: 0 <= i < |fields| && fields[i] == (f, String(Spelled(fields)[f]))
      {
        if fields[n].1.String? && f == fields[n].0 {
          assert fields[n] == (f, String(Spelled(fields)[f]));
        } else {
          assert f in Spelled(fields[..n]) && Spelled(fields)[f] == Spelled(fields[..n])[f];
          var i :| 0 <= i < |fields[..n]| && fields[..n][i] == (f, String(Spelled(fields[..n])[f]));
          assert fields[i] == (f, String(Spelled(fields)[f]));
        }
      }
      forall i | 0 <= i < |fields| && fields[i].1.String?
        ensures fields[i].0 in Spelled(fields) && Spelled(fields)[fields[i].0] == fields[i].1.value
      {
        if i < n { assert fields[..n][i] == fields[i]; }
      }
    }
  }

  lemma DropOneKey(mapping: Mapping, f: string)
    requires f in mapping
    ensures |mapping - {f}| == |mapping| - 1
    ensures mapping.Values == (mapping - {f}).Values + {mapping[f]}
  {
    var rest := mapping - {f};
    assert mapping.Keys == rest.Keys + {f};
    forall v | v in mapping.Values ensures v in rest.Values + {mapping[f]} {
      var g :| g in mapping && mapping[g] == v;
      if g != f { assert g in rest && rest[g] == v; }
    }
  }

  lemma {:induction false} ValuesAreAtMostKeys(mapping: Mapping)
    ensures |mapping.Values| <= |mapping|
    decreases |mapping|
  {
    if mapping == map[] {
      assert mapping.Values == {};
    } else {
      var f :| f in mapping;
      DropOneKey(mapping, f);
      ValuesAreAtMostKeys(mapping - {f});
    }
  }

  lemma {:induction false} InjectiveValuesAreAsManyAsKeys(mapping: Mapping)
    requires Injective(mapping)
    ensures |mapping.Values| == |mapping|
    decreases |mapping|
  {
    if mapping == map[] {
      assert mapping.Values == {};
    } else {
      var f :| f in mapping;
      var rest := mapping - {f};
      DropOneKey(mapping, f);
      InjectiveValuesAreAsManyAsKeys(rest);
      assert mapping[f] !in rest.Values;
    }
  }

  /** Comparing the sizes of the two sets tells whether a column is used twice. */
  lemma ValuesCountedOnce(mapping: Mapping)
    ensures |mapping.Values| == |mapping| <==> Injective(mapping)
  {
    if Injective(mapping) {
      InjectiveValuesAreAsManyAsKeys(mapping);
    } else {
      var f, g :| f in mapping && g in mapping && mapping[f] == mapping[g] && f != g;
      var rest := mapping - {f};
      DropOneKey(mapping, f);
      assert g in rest && rest[g] == mapping[f];
      assert rest.Values == mapping.Values;
      ValuesAreAtMostKeys(rest);
    }
  }

  /** One entry of the stored object that the reader lets through. */
  predicate EntryOk(entry: (string, Json), allowed: set<string>, headers: seq<string>) {
    entry.0 in allowed && IsNonEmptyString(entry.1) && entry.1.value in headers
  }

  ghost predicate Acceptable(value: Json, headers: seq<string>) {
    && value.Object?
    && (forall i :: 0 <= i < |value.fields| ==> value.fields[i].1.String?)
    && Usable(Spelled(value.fields), headers)
  }

  /**
   * The entries of an accepted mapping: supported fields, each on an existing column with a name, the two
   * required fields among them, and no column twice.
   */
  ghost predicate AcceptableEntries(fields: seq<(string, Json)>, headers: seq<string>) {
    && (forall i :: 0 <= i < |fields| ==>
          fields[i].0 in IMPORT_FIELDS && fields[i].1.String? && !IsBlank(fields[i].1.value) &&
          fields[i].1.value in headers)
    && (exists i :: 0 <= i < |fields| && fields[i].0 == "displayName")
    && (exists i :: 0 <= i < |fields| && fields[i].0 == "phoneNumber")
    && (forall i, j :: 0 <= i < j < |fields| ==> fields[i].1 != fields[j].1)
  }

  /** Looking at the entries one by one decides whether the mapping they spell stays within bounds. */
  lemma WithinEntryByEntry(fields: seq<(string, Json)>, allowed: set<string>, headers: seq<string>)
    requires DistinctNames(fields)
    ensures (forall i :: 0 <= i < |fields| ==> fields[i].1.String?) && Within(Spelled(fields), allowed, headers)
            <==> forall i :: 0 <= i < |fields| ==> EntryOk(fields[i], allowed, headers)
  {
    var mapping := Spelled(fields);
    SpelledFieldByField(fields);
    if (forall i :: 0 <= i < |fields| ==> fields[i].1.String?) && Within(mapping, allowed, headers) {
      forall i | 0 <= i < |fields| ensures EntryOk(fields[i], allowed, headers) {
        assert fields[i].0 in mapping;
      }
    }
    if forall i :: 0 <= i < |fields| ==> EntryOk(fields[i], allowed, headers) {
      forall f | f in mapping ensures f in allowed && mapping[f] in headers && !IsBlank(mapping[f]) {
        var i :| 0 <= i < |fields| && fields[i] == (f, String(mapping[f]));
        assert EntryOk(fields[i], allowed, headers);
      }
    }
  }

  /** The mapping that is read has the entries of the stored object, and no others. */
  lemma {:induction false} SpelledReadsTheEntries(fields: seq<(string, Json)>)
    requires DistinctNames(fields) && forall i :: 0 <= i < |fields| ==> fields[i].1.String?
    ensures |Spelled(fields)| == |fields|
    ensures forall i :: 0 <= i < |fields| ==>
              fields[i].0 in Spelled(fields) && String(Spelled(fields)[fields[i].0]) == fields[i].1
  {
    SpelledFieldByField(fields);
    if fields != [] {
      var front, last := fields[..|fields| - 1], fields[|fields| - 1];
      SpelledReadsTheEntries(front);
      FieldIsSpelled(front, last.0);
    }
  }

  /** Acceptance, entry by entry of the stored object. */
  lemma AcceptableEntryByEntry(fields: seq<(string, Json)>, headers: seq<string>)
    requires DistinctNames(fields)
    ensures Acceptable(Object(fields), headers) <==> AcceptableEntries(fields, headers)
  {
    var mapping := Spelled(fields);
    SpelledFieldByField(fields);
    WithinEntryByEntry(fields, IMPORT_FIELDS, headers);
    if forall i :: 0 <= i < |fields| ==> EntryOk(fields[i], IMPORT_FIELDS, headers) {
      InjectiveEntryByEntry(fields);
      FieldIsSpelled(fields, "displayName");
      FieldIsSpelled(fields, "phoneNumber");
    }
  }

  lemma FieldIsSpelled(fields: seq<(string, Json)>, field: string)
    requires DistinctNames(fields) && forall i :: 0 <= i < |fields| ==> fields[i].1.String?
    ensures field in Spelled(fields) <==> exists i :: 0 <= i < |fields| && fields[i].0 == field
  {
    SpelledFieldByField(fields);
  }

  lemma InjectiveEntryByEntry(fields: seq<(string, Json)>)
    requires DistinctNames(fields) && forall i :: 0 <= i < |fields| ==> fields[i].1.String?
    ensures Injective(Spelled(fields)) <==> forall i, j :: 0 <= i < j < |fields| ==> fields[i].1 != fields[j].1
  {
    var mapping := Spelled(fields);
    SpelledFieldByField(fields);
    if Injective(mapping) {
      forall i, j | 0 <= i < j < |fields| ensures fields[i].1 != fields[j].1 {
        assert fields[i].0 in mapping && fields[j].0 in mapping && fields[i].0 != fields[j].0;
      }
    }
    if forall i, j :: 0 <= i < j < |fields| ==> fields[i].1 != fields[j].1 {
      forall f, g | f in mapping && g in mapping && mapping[f] == mapping[g] ensures f == g {
        var i :| 0 <= i < |fields| && fields[i] == (f, String(mapping[f]));
        var j :| 0 <= j < |fields| && fields[j] == (g, String(mapping[g]));
        assert i == j;
      }
    }
  }

  /**
   * A stored mapping is accepted exactly when it is an object of strings that spells a usable mapping, and
   * the result is the mapping it spells.
   */
  method ReadColumnMapping(value: Json, headers: seq<string>) returns (result: Result<Mapping, MappingError>)
    requires value.Object? ==> DistinctNames(value.fields)
    ensures result.Ok? <==> Acceptable(value, headers)
    ensures result.Ok? ==> result.value == Spelled(value.fields)
    ensures result == Err(NotARecord) <==> !value.Object?
  {
    if !value.Object? { return Err(NotARecord); }
    WithinEntryByEntry(value.fields, IMPORT_FIELDS, headers);
    var mapping: Mapping := map[];
    for i := 0 to |value.fields|
      invariant mapping == Spelled(value.fields[..i])
      invariant forall k :: 0 <= k < i ==> EntryOk(value.fields[k], IMPORT_FIELDS, headers)
    {
      var (field, header) := value.fields[i];
      assert EntryOk(value.fields[i], IMPORT_FIELDS, headers) <==>
             field in IMPORT_FIELDS && IsNonEmptyString(header) && header.value in headers;
      if field !in IMPORT_FIELDS || !IsNonEmptyString(header) { return Err(UnsupportedEntry); }
      if header.value !in headers { return Err(UnknownColumn); }
      SpelledOneMore(value.fields, i);
      mapping := mapping[field := header.value];
    }
    assert value.fields[..|value.fields|] == value.fields;
    if "displayName" !in mapping || "phoneNumber" !in mapping { return Err(RequiredMissing); }
    ValuesCountedOnce(mapping);
    if |mapping.Values| != |mapping| { return Err(ColumnMappedTwice); }
    result := Ok(mapping);
  }

  ghost predicate CanBeMapped(field: string) {
    exists value: Json, headers: seq<string> :: Acceptable(value, headers) && field in Spelled(value.fields)
  }

  /** A mapping of the two required fields, and of `field` besides. */
  function SmallMapping(field: string): Json {
    Object([("displayName", String("a")), ("phoneNumber", String("b"))] +
           if field == "displayName" || field == "phoneNumber" then [] else [(field, String("c"))])
  }

  lemma SmallMappingSpells(field: string)
    ensures Spelled(SmallMapping(field).fields) ==
            if field == "displayName" || field == "phoneNumber" then map["displayName" := "a", "phoneNumber" := "b"]
            else map["displayName" := "a", "phoneNumber" := "b", field := "c"]
  {
    var two := [("displayName", String("a")), ("phoneNumber", String("b"))];
    var fields := SmallMapping(field).fields;
    assert fields[..0] == [] && fields[..2] == two;
    SpelledOneMore(fields, 0);
    SpelledOneMore(fields, 1);
    if field != "displayName" && field != "phoneNumber" {
      SpelledOneMore(fields, 2);
      assert fields[..3] == fields;
    } else {
      assert fields == two;
    }
  }

  lemma SmallMappingIsAcceptable(field: string)
    requires field in IMPORT_FIELDS
    ensures Acceptable(SmallMapping(field), ["a", "b", "c"])
  {
    var headers := ["a", "b", "c"];
    SmallMappingSpells(field);
    var mapping := Spelled(SmallMapping(field).fields);
    assert "a"[0] != "b"[0] && "a"[0] != "c"[0] && "b"[0] != "c"[0];
    forall f | f in mapping ensures mapping[f] in headers && !IsBlank(mapping[f]) {
      OneLetterIsNotBlank('a');
      OneLetterIsNotBlank('b');
      OneLetterIsNotBlank('c');
      assert headers[0] == "a" && headers[1] == "b" && headers[2] == "c";
    }
    assert Injective(mapping);
  }

  lemma OneLetterIsNotBlank(c: char)
    requires 'a' <= c <= 'z'
    ensures !IsBlank([c])
  {
    assert [c][0] in [c] && !IsSpace(c);
  }

  /** Exactly eight fields can be mapped to a column. */
  lemma MappableFieldsExactly(field: string)
    ensures CanBeMapped(field) <==>
            field == "displayName" || field == "contactName" || field == "phoneNumber" || field == "phoneCountry" ||
            field == "invitationType" || field == "maxCompanions" || field == "members" || field == "internalNote"
  {
    if field in IMPORT_FIELDS {
      SmallMappingIsAcceptable(field);
      SmallMappingSpells(field);
      assert field in Spelled(SmallMapping(field).fields);
    }
  }
}
