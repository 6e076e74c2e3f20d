/**
 * `validate_tagged_data`: report mandatory fields that no section holds,
 * then fields whose `tags` entry is present but empty.
 */
module Validation {
  import opened Dicts
  import opened Json
  import opened Taxonomy
  import SectionTags

  /** One reported issue; the source's dict carries `type`, the names and a message. */
  datatype Issue =
    | MissingMandatoryField(field: string)
    | MissingTags(section: string, field: string)
  {
    function Kind(): string
    {
      if MissingMandatoryField? then "missing_mandatory_field" else "missing_tags"
    }

    function Message(): string
    {
      match this
      case MissingMandatoryField(f) => "Mandatory field '" + f + "' is missing from the tagged data"
      case MissingTags(s, f) => "No tags applied to field '" + f + "' in section '" + s + "'"
    }
  }

  /** Some dict-valued section of `tagged` has `field` as a key. */
  predicate FoundIn(tagged: Entries<Value>, field: string)
  {
    exists i :: 0 <= i < |tagged| && tagged[i].1.Dict? && HasKey(tagged[i].1.entries, field)
  }

  /** The first pass: one issue per mandatory field that no section holds, in dict order. */
  function MandatoryIssues(mandatory: Entries<bool>, tagged: Entries<Value>): seq<Issue>
  {
    if mandatory == [] then []
    else
      var (field, isMandatory) := mandatory[|mandatory| - 1];
      MandatoryIssues(mandatory[..|mandatory| - 1], tagged)
      + if isMandatory && !FoundIn(tagged, field) then [MissingMandatoryField(field)] else []
  }

  /** `isinstance(d, dict) and "tags" in d and not d["tags"]` */
  predicate HasEmptyTags(fieldData: Value)
  {
    fieldData.Dict? && HasKey(fieldData.entries, "tags") && !Truthy(Get(fieldData.entries, "tags"))
  }

  function FieldIssues(section: string, fields: Entries<Value>): seq<Issue>
  {
    if fields == [] then []
    else
      var (field, data) := fields[|fields| - 1];
      FieldIssues(section, fields[..|fields| - 1])
      + if HasEmptyTags(data) then [MissingTags(section, field)] else []
  }

  /** The issues of one section; a section that is not a dict has none. */
  function SectionIssues(section: string, data: Value): seq<Issue>
  {
    if data.Dict? then FieldIssues(section, data.entries) else []
  }

  /** The second pass, over all sections in dict order. */
  function TagIssues(tagged: Entries<Value>): seq<Issue>
  {
    if tagged == [] then []
    else
      var (section, data) := tagged[|tagged| - 1];
      TagIssues(tagged[..|tagged| - 1]) + SectionIssues(section, data)
  }

  /** The list `validate_tagged_data` returns. */
  function Issues(mandatory: Entries<bool>, tagged: Entries<Value>): seq<Issue>
  {
    MandatoryIssues(mandatory, tagged) + TagIssues(tagged)
  }

  /**
   * The tool itself: the mandatory-field pass, then the missing-tags pass,
   * each loop below one of the methods that follow.
   */
  method ValidateTaggedData(deps: Deps, taggedData: Entries<Value>) returns (issues: seq<Issue>)
    ensures issues == Issues(deps.mandatoryFields, taggedData)
  {
    issues := CheckMandatory(deps.mandatoryFields, taggedData);
    var tagIssues := CheckTags(taggedData);
    issues := issues + tagIssues;
  }

  /** The first loop: one issue per mandatory field no section holds. */
  method CheckMandatory(mandatory: Entries<bool>, taggedData: Entries<Value>) returns (issues: seq<Issue>)
    ensures issues == MandatoryIssues(mandatory, taggedData)
  {
    issues := [];
    for i := 0 to |mandatory|
      invariant issues == MandatoryIssues(mandatory[..i], taggedData)
    {
      var (fieldName, isMandatory) := mandatory[i];
      MandatoryIssuesStep(mandatory, i, taggedData);
      if isMandatory {
        var fieldFound := FindField(taggedData, fieldName);
        if !fieldFound {
          issues := issues + [MissingMandatoryField(fieldName)];
        }
      }
    }
    assert mandatory[..|mandatory|] == mandatory;
  }

  /** The second loop, over every section and, for a dict, over its fields. */
  method CheckTags(taggedData: Entries<Value>) returns (issues: seq<Issue>)
    ensures issues == TagIssues(taggedData)
  {
    issues := [];
    for i := 0 to |taggedData|
      invariant issues == TagIssues(taggedData[..i])
    {
      var (sectionName, sectionData) := taggedData[i];
      TagIssuesStep(taggedData, i);
      if sectionData.Dict? {
        var found := CheckSection(sectionName, sectionData.entries);
        issues := issues + found;
      }
    }
    assert taggedData[..|taggedData|] == taggedData;
  }

  /** The search for a dict-valued section holding `fieldName`, stopping at the first. */
  method FindField(taggedData: Entries<Value>, fieldName: string) returns (fieldFound: bool)
    ensures fieldFound == FoundIn(taggedData, fieldName)
  {
    fieldFound := false;
    var j := 0;
    while j < |taggedData|
      invariant 0 <= j <= |taggedData|
      invariant !fieldFound
      invariant forall j' :: 0 <= j' < j ==> !(taggedData[j'].1.Dict? && HasKey(taggedData[j'].1.entries, fieldName))
    {
      var (sectionName, sectionData) := taggedData[j];
      if sectionData.Dict? && HasKey(sectionData.entries, fieldName) {
        fieldFound := true;
        return;
      }
      j := j + 1;
    }
  }

  /** The loop over the fields of one dict-valued section. */
  method CheckSection(sectionName: string, fields: Entries<Value>) returns (issues: seq<Issue>)
    ensures issues == FieldIssues(sectionName, fields)
  {
    issues := [];
    for j := 0 to |fields|
      invariant issues == FieldIssues(sectionName, fields[..j])
    {
      var (fieldName, fieldData) := fields[j];
      FieldIssuesStep(sectionName, fields, j);
      if fieldData.Dict? && HasKey(fieldData.entries, "tags") && !Truthy(Get(fieldData.entries, "tags")) {
        issues := issues + [MissingTags(sectionName, fieldName)];
      }
    }
    assert fields[..|fields|] == fields;
  }

  lemma MandatoryIssuesStep(mandatory: Entries<bool>, i: nat, tagged: Entries<Value>)
    requires i < |mandatory|
    ensures MandatoryIssues(mandatory[..i + 1], tagged) == MandatoryIssues(mandatory[..i], tagged)
      + if mandatory[i].1 && !FoundIn(tagged, mandatory[i].0) then [MissingMandatoryField(mandatory[i].0)] else []
  {
    assert mandatory[..i + 1][..i] == mandatory[..i];
  }

  lemma TagIssuesStep(tagged: Entries<Value>, i: nat)
    requires i < |tagged|
    ensures TagIssues(tagged[..i + 1]) == TagIssues(tagged[..i]) + SectionIssues(tagged[i].0, tagged[i].1)
  {
    assert tagged[..i + 1][..i] == tagged[..i];
  }

  lemma FieldIssuesStep(section: string, fields: Entries<Value>, j: nat)
    requires j < |fields|
    ensures FieldIssues(section, fields[..j + 1]) == FieldIssues(section, fields[..j])
      + if HasEmptyTags(fields[j].1) then [MissingTags(section, fields[j].0)] else []
  {
    assert fields[..j + 1][..j] == fields[..j];
  }

  lemma {:induction false} MandatoryIssuesKind(mandatory: Entries<bool>, tagged: Entries<Value>)
    ensures forall x :: x in MandatoryIssues(mandatory, tagged) ==> x.MissingMandatoryField?
    decreases |mandatory|
  {
    if mandatory != [] {
      MandatoryIssuesKind(mandatory[..|mandatory| - 1], tagged);
    }
  }

  lemma {:induction false} FieldIssuesKind(section: string, fields: Entries<Value>)
    ensures forall x :: x in FieldIssues(section, fields) ==> x.MissingTags?
    decreases |fields|
  {
    if fields != [] {
      FieldIssuesKind(section, fields[..|fields| - 1]);
    }
  }

  lemma {:induction false} TagIssuesKind(tagged: Entries<Value>)
    ensures forall x :: x in TagIssues(tagged) ==> x.MissingTags?
    decreases |tagged|
  {
    if tagged != [] {
      TagIssuesKind(tagged[..|tagged| - 1]);
      var (section, data) := tagged[|tagged| - 1];
      if data.Dict? {
        FieldIssuesKind(section, data.entries);
      }
    }
  }

  /** Every missing-mandatory issue comes before every missing-tags issue. */
  lemma MandatoryIssuesFirst(mandatory: Entries<bool>, tagged: Entries<Value>)
    ensures var issues := Issues(mandatory, tagged);
      forall i, j :: 0 <= i < j < |issues| && issues[j].MissingMandatoryField? ==> issues[i].MissingMandatoryField?
  {
    var m := MandatoryIssues(mandatory, tagged);
    var t := TagIssues(tagged);
    MandatoryIssuesKind(mandatory, tagged);
    TagIssuesKind(tagged);
    var issues := m + t;
    forall j | |m| <= j < |issues|
      ensures issues[j].MissingTags?
    {
      assert issues[j] == t[j - |m|];
    }
    forall i | 0 <= i < |m|
      ensures issues[i].MissingMandatoryField?
    {
      assert issues[i] == m[i];
    }
  }

  lemma {:induction false} MandatoryIssuesCount(mandatory: Entries<bool>, tagged: Entries<Value>, field: string)
    requires DistinctKeys(mandatory)
    ensures multiset(MandatoryIssues(mandatory, tagged))[MissingMandatoryField(field)] ==
              if HasKey(mandatory, field) && Get(mandatory, field) && !FoundIn(tagged, field) then 1 else 0
    decreases |mandatory|
  {
    if mandatory != [] {
      var init := mandatory[..|mandatory| - 1];
      var e := mandatory[|mandatory| - 1];
      assert mandatory == init + [e];
      assert DistinctKeys(init);
      MandatoryIssuesCount(init, tagged, field);
      HasKeyAppend(init, e, field);
    }
  }

  /**
   * With a real dict of mandatory flags, each field flagged true that no
   * dict-valued section holds is reported exactly once, and no other field
   * is reported missing; in particular a field flagged false never is.
   */
  lemma MissingMandatoryReportedOnce(mandatory: Entries<bool>, tagged: Entries<Value>, field: string)
    requires DistinctKeys(mandatory)
    ensures multiset(Issues(mandatory, tagged))[MissingMandatoryField(field)] ==
              if HasKey(mandatory, field) && Get(mandatory, field) && !FoundIn(tagged, field) then 1 else 0
  {
    MandatoryIssuesCount(mandatory, tagged, field);
    TagIssuesKind(tagged);
    assert MissingMandatoryField(field) !in TagIssues(tagged);
  }

  /** The section `data` is a dict with an entry `field` whose `tags` is present and empty. */
  predicate EmptyTagsAt(data: Value, field: string)
  {
    data.Dict? && exists j :: 0 <= j < |data.entries| && data.entries[j].0 == field && HasEmptyTags(data.entries[j].1)
  }

  lemma {:induction false} FieldIssuesMembers(section: string, fields: Entries<Value>, s: string, f: string)
    ensures MissingTags(s, f) in FieldIssues(section, fields) <==>
              s == section && exists j :: 0 <= j < |fields| && fields[j].0 == f && HasEmptyTags(fields[j].1)
    decreases |fields|
  {
    if fields != [] {
      var init := fields[..|fields| - 1];
      FieldIssuesMembers(section, init, s, f);
      assert fields == init + [fields[|fields| - 1]];
      if s == section && exists j :: 0 <= j < |fields| && fields[j].0 == f && HasEmptyTags(fields[j].1) {
        var j :| 0 <= j < |fields| && fields[j].0 == f && HasEmptyTags(fields[j].1);
        if j < |init| {
          assert init[j] == fields[j];
        }
      }
    }
  }

  lemma {:induction false} TagIssuesMembers(tagged: Entries<Value>, s: string, f: string)
    ensures MissingTags(s, f) in TagIssues(tagged) <==>
              exists i :: 0 <= i < |tagged| && tagged[i].0 == s && EmptyTagsAt(tagged[i].1, f)
    decreases |tagged|
  {
    if tagged != [] {
      var init := tagged[..|tagged| - 1];
      var (section, data) := tagged[|tagged| - 1];
      TagIssuesMembers(init, s, f);
      if data.Dict? {
        FieldIssuesMembers(section, data.entries, s, f);
      }
      assert tagged == init + [tagged[|tagged| - 1]];
      if exists i :: 0 <= i < |tagged| && tagged[i].0 == s && EmptyTagsAt(tagged[i].1, f) {
        var i :| 0 <= i < |tagged| && tagged[i].0 == s && EmptyTagsAt(tagged[i].1, f);
        if i < |init| {
          assert init[i] == tagged[i];
        }
      }
    }
  }

  /**
   * A missing-tags issue names exactly a section that is a dict and a field
   * of it whose `tags` entry is present and empty.
   */
  lemma MissingTagsIff(mandatory: Entries<bool>, tagged: Entries<Value>, s: string, f: string)
    ensures MissingTags(s, f) in Issues(mandatory, tagged) <==>
              exists i :: 0 <= i < |tagged| && tagged[i].0 == s && EmptyTagsAt(tagged[i].1, f)
  {
    TagIssuesMembers(tagged, s, f);
    MandatoryIssuesKind(mandatory, tagged);
    assert MissingTags(s, f) !in MandatoryIssues(mandatory, tagged);
  }

  lemma {:induction false} MandatoryIssuesEmpty(mandatory: Entries<bool>, tagged: Entries<Value>)
    ensures MandatoryIssues(mandatory, tagged) == [] <==>
              forall i :: 0 <= i < |mandatory| && mandatory[i].1 ==> FoundIn(tagged, mandatory[i].0)
    decreases |mandatory|
  {
    if mandatory != [] {
      var init := mandatory[..|mandatory| - 1];
      MandatoryIssuesEmpty(init, tagged);
      assert forall i :: 0 <= i < |init| ==> init[i] == mandatory[i];
    }
  }

  /**
   * The list is empty exactly when every field flagged mandatory is held by
   * some dict-valued section and no field has an empty `tags` entry.
   */
  lemma NoIssuesIff(mandatory: Entries<bool>, tagged: Entries<Value>)
    ensures Issues(mandatory, tagged) == [] <==>
              && (forall i :: 0 <= i < |mandatory| && mandatory[i].1 ==> FoundIn(tagged, mandatory[i].0))
              && (forall i, f :: 0 <= i < |tagged| ==> !EmptyTagsAt(tagged[i].1, f))
  {
    MandatoryIssuesEmpty(mandatory, tagged);
    var t := TagIssues(tagged);
    TagIssuesKind(tagged);
    if t != [] {
      var x := t[0];
      assert x in t;
      TagIssuesMembers(tagged, x.section, x.field);
    }
    forall i, f | 0 <= i < |tagged| && EmptyTagsAt(tagged[i].1, f)
      ensures t != []
    {
      TagIssuesMembers(tagged, tagged[i].0, f);
    }
  }

  /** In a real dict, `EmptyTagsAt` is a statement about the entry a lookup finds. */
  lemma EmptyTagsAtLookup(entries: Entries<Value>, k: string)
    requires DistinctKeys(entries)
    ensures EmptyTagsAt(Dict(entries), k) <==> HasKey(entries, k) && HasEmptyTags(Get(entries, k))
  {
    if HasKey(entries, k) {
      var j := IndexOf(entries, k);
      assert entries[j].0 == k;
    }
  }

  /** A tagged field has an empty `tags` entry exactly when its name has no exact field tags. */
  lemma TaggedFieldEmptyTags(deps: Deps, k: string, v: Value)
    ensures HasEmptyTags(SectionTags.TaggedField(deps, k, v)) <==> SectionTags.ExactTags(deps.fieldTags, k) == []
  {
    var tags := SectionTags.ExactTags(deps.fieldTags, k);
    var entries := SectionTags.TaggedField(deps, k, v).entries;
    IndexOfIs(entries, "tags", 1);
    assert Get(entries, "tags") == List(ToDicts(tags));
  }

  /**
   * For a section built by `tag_statement_section`, the missing-tags check
   * flags exactly the scalar entries whose name has no exact field tags.
   */
  lemma TaggedSectionEmptyTags(deps: Deps, sectionName: string, data: Entries<Value>, k: string)
    requires DistinctKeys(data)
    ensures EmptyTagsAt(SectionTags.TaggedSection(deps, sectionName, data), k) <==>
              HasKey(data, k) && !IsContainer(Get(data, k)) && SectionTags.ExactTags(deps.fieldTags, k) == []
  {
    var r := SectionTags.TaggedSection(deps, sectionName, data);
    SectionTags.MetaTagsEntry(deps, sectionName, data);
    EmptyTagsAtLookup(r.entries, k);
    if HasKey(data, k) && !IsContainer(Get(data, k)) {
      TaggedFieldEmptyTags(deps, k, Get(data, k));
    }
    if k != SectionTags.MetaTagsKey {
      SectionTags.SectionEntry(deps, sectionName, data, k);
    }
  }
}
