/**
 * `apply_tags_to_element`: find the taxonomy tags of one financial element,
 * by exact field name or else by the first field whose name is similar, and
 * report whether the element is mandatory.
 */
module ApplyTags {
  import opened Wrappers
  import opened Dicts
  import opened Text
  import opened Json
  import opened Taxonomy

  /** The dict the tool returns. */
  datatype TaggedElement = TaggedElement(
    elementName: string,
    value: Value,
    tags: seq<Value>,
    isMandatory: bool,
    messages: seq<string>)

  function FoundExactMessage(name: string): string
  {
    "Found exact tag match for " + name
  }

  function NoExactMessage(name: string): string
  {
    "No exact tag match found for " + name
  }

  function SimilarTagMessage(fieldName: string): string
  {
    "Using similar tag: " + fieldName
  }

  function MandatoryNote(name: string): string
  {
    "Note: " + name + " is a mandatory field"
  }

  /** A message that reports a similar-tag match. */
  predicate IsSimilarTagMessage(m: string)
  {
    |m| >= 19 && m[..19] == "Using similar tag: "
  }

  /** Either lower-cased name contains the other. */
  predicate Similar(elementName: string, fieldName: string)
  {
    Contains(Lower(fieldName), Lower(elementName)) || Contains(Lower(elementName), Lower(fieldName))
  }

  /** Position of the first field, in dict order, whose name is similar to `name`. */
  function FirstSimilar(fields: Entries<seq<Tag>>, name: string): (r: Option<nat>)
    ensures r.Some? ==>
              r.value < |fields| && Similar(name, fields[r.value].0)
              && forall j :: 0 <= j < r.value ==> !Similar(name, fields[j].0)
    ensures r.None? ==> forall j :: 0 <= j < |fields| ==> !Similar(name, fields[j].0)
  {
    if fields == [] then None
    else if Similar(name, fields[0].0) then Some(0)
    else match FirstSimilar(fields[1..], name)
      case None => None
      case Some(k) => Some(k + 1)
  }

  /** The first similar field is the one the search stops at. */
  lemma FirstSimilarIs(fields: Entries<seq<Tag>>, name: string, i: nat)
    requires i < |fields| && Similar(name, fields[i].0)
    requires forall j :: 0 <= j < i ==> !Similar(name, fields[j].0)
    ensures FirstSimilar(fields, name) == Some(i)
  {
    var f := FirstSimilar(fields, name);
    if f.Some? {
      assert !(f.value < i) && !(i < f.value);
    }
  }

  lemma FirstSimilarNone(fields: Entries<seq<Tag>>, name: string)
    requires forall j :: 0 <= j < |fields| ==> !Similar(name, fields[j].0)
    ensures FirstSimilar(fields, name) == None
  {
  }

  /** `mandatory_fields.get(name, False)` */
  predicate IsMandatory(mandatory: Entries<bool>, name: string)
  {
    HasKey(mandatory, name) && Get(mandatory, name)
  }

  /** The tags chosen for `name` and the lookup messages, before the mandatory note. */
  function Lookup(fields: Entries<seq<Tag>>, name: string): (seq<Tag>, seq<string>)
  {
    if HasKey(fields, name) then (Get(fields, name), [FoundExactMessage(name)])
    else match FirstSimilar(fields, name)
      case Some(i) => (fields[i].1, [NoExactMessage(name), SimilarTagMessage(fields[i].0)])
      case None => ([], [NoExactMessage(name)])
  }

  /** The record `apply_tags_to_element` returns. */
  function Tagging(deps: Deps, name: string, value: Value): TaggedElement
  {
    var (tags, messages) := Lookup(deps.fieldTags, name);
    var mandatory := IsMandatory(deps.mandatoryFields, name);
    TaggedElement(name, value, ToDicts(tags), mandatory,
                  messages + if mandatory then [MandatoryNote(name)] else [])
  }

  /**
   * The tool itself. `statementType` and `isInstant` are accepted and, as in
   * the source, not used.
   */
  method ApplyTagsToElement(deps: Deps, elementName: string, value: Value, statementType: string, isInstant: bool)
    returns (r: TaggedElement)
    ensures r == Tagging(deps, elementName, value)
  {
    var tags: seq<Tag> := [];
    var messages: seq<string> := [];
    if HasKey(deps.fieldTags, elementName) {
      tags := Get(deps.fieldTags, elementName);
      messages := messages + [FoundExactMessage(elementName)];
      assert messages == [FoundExactMessage(elementName)];
    } else {
      messages := messages + [NoExactMessage(elementName)];
      assert messages == [NoExactMessage(elementName)];
      var i := 0;
      while i < |deps.fieldTags|
        invariant 0 <= i <= |deps.fieldTags|
        invariant forall j :: 0 <= j < i ==> !Similar(elementName, deps.fieldTags[j].0)
        invariant tags == [] && messages == [NoExactMessage(elementName)]
      {
        var (fieldName, fieldTags) := deps.fieldTags[i];
        if Similar(elementName, fieldName) {
          tags := fieldTags;
          messages := messages + [SimilarTagMessage(fieldName)];
          FirstSimilarIs(deps.fieldTags, elementName, i);
          assert messages == [NoExactMessage(elementName), SimilarTagMessage(fieldName)];
          assert (tags, messages) == Lookup(deps.fieldTags, elementName);
          break;
        }
        i := i + 1;
      }
      if i == |deps.fieldTags| {
        FirstSimilarNone(deps.fieldTags, elementName);
        assert (tags, messages) == Lookup(deps.fieldTags, elementName);
      }
    }
    assert (tags, messages) == Lookup(deps.fieldTags, elementName);
    ghost var found := messages;
    var isMandatory := false;
    if HasKey(deps.mandatoryFields, elementName) {
      isMandatory := Get(deps.mandatoryFields, elementName);
      if isMandatory {
        messages := messages + [MandatoryNote(elementName)];
      }
    }
    assert isMandatory == IsMandatory(deps.mandatoryFields, elementName);
    assert messages == found + if isMandatory then [MandatoryNote(elementName)] else [];
    r := TaggedElement(elementName, value, ToDicts(tags), isMandatory, messages);
  }

  /**
   * An exact key wins: its tags are used, the only lookup message reports the
   * exact match, and at most the mandatory note follows.
   */
  lemma ExactMatch(deps: Deps, name: string, value: Value)
    requires HasKey(deps.fieldTags, name)
    ensures var r := Tagging(deps, name, value);
      && r.tags == ToDicts(Get(deps.fieldTags, name))
      && r.messages == [FoundExactMessage(name)] + (if r.isMandatory then [MandatoryNote(name)] else [])
      && forall m :: m in r.messages ==> !IsSimilarTagMessage(m)
  {
    var r := Tagging(deps, name, value);
    assert FoundExactMessage(name)[0] == 'F';
    assert MandatoryNote(name)[0] == 'N';
  }

  /**
   * Without an exact key, the first similar field in dict order supplies the
   * tags, and exactly one similar-tag message names it.
   */
  lemma SimilarMatch(deps: Deps, name: string, value: Value, i: nat)
    requires !HasKey(deps.fieldTags, name)
    requires i < |deps.fieldTags| && Similar(name, deps.fieldTags[i].0)
    requires forall j :: 0 <= j < i ==> !Similar(name, deps.fieldTags[j].0)
    ensures var r := Tagging(deps, name, value);
      && r.tags == ToDicts(deps.fieldTags[i].1)
      && r.messages == [NoExactMessage(name), SimilarTagMessage(deps.fieldTags[i].0)]
                       + (if r.isMandatory then [MandatoryNote(name)] else [])
      && forall a, b :: 0 <= a < b < |r.messages| ==>
           !(IsSimilarTagMessage(r.messages[a]) && IsSimilarTagMessage(r.messages[b]))
  {
    FirstSimilarIs(deps.fieldTags, name, i);
    var r := Tagging(deps, name, value);
    var rest := if r.isMandatory then [MandatoryNote(name)] else [];
    assert r.messages == [NoExactMessage(name), SimilarTagMessage(deps.fieldTags[i].0)] + rest;
    assert NoExactMessage(name)[0] == 'N';
    assert MandatoryNote(name)[0] == 'N';
    OneSimilarMessage(NoExactMessage(name), SimilarTagMessage(deps.fieldTags[i].0), rest);
  }

  /** Only the second of `[x, y] + rest` can report a similar tag, when `x` and `rest` do not. */
  lemma OneSimilarMessage(x: string, y: string, rest: seq<string>)
    requires !IsSimilarTagMessage(x)
    requires forall m :: m in rest ==> !IsSimilarTagMessage(m)
    ensures var ms := [x, y] + rest;
      forall a, b :: 0 <= a < b < |ms| ==> !(IsSimilarTagMessage(ms[a]) && IsSimilarTagMessage(ms[b]))
  {
    var ms := [x, y] + rest;
    forall a, b | 0 <= a < b < |ms|
      ensures !(IsSimilarTagMessage(ms[a]) && IsSimilarTagMessage(ms[b]))
    {
      if b >= 2 {
        assert ms[b] == rest[b - 2];
      } else {
        assert ms[a] == x;
      }
    }
  }

  /**
   * With neither an exact key nor a similar field, no tags are used and the
   * only lookup message is the no-exact-match one.
   */
  lemma NoMatch(deps: Deps, name: string, value: Value)
    requires !HasKey(deps.fieldTags, name)
    requires forall j :: 0 <= j < |deps.fieldTags| ==> !Similar(name, deps.fieldTags[j].0)
    ensures var r := Tagging(deps, name, value);
      && r.tags == []
      && r.messages == [NoExactMessage(name)] + (if r.isMandatory then [MandatoryNote(name)] else [])
      && forall m :: m in r.messages ==> !IsSimilarTagMessage(m)
  {
    assert NoExactMessage(name)[0] == 'N';
    assert MandatoryNote(name)[0] == 'N';
  }

  /** The element is mandatory exactly when its flag is true, and then, and only then, the note is added. */
  lemma MandatoryNoteIff(deps: Deps, name: string, value: Value)
    ensures var r := Tagging(deps, name, value);
      && (r.isMandatory <==> HasKey(deps.mandatoryFields, name) && Get(deps.mandatoryFields, name))
      && (MandatoryNote(name) in r.messages <==> r.isMandatory)
  {
    var r := Tagging(deps, name, value);
    var note := MandatoryNote(name);
    assert note[0] == 'N' && note[2] == 't';
    assert FoundExactMessage(name)[0] == 'F';
    assert NoExactMessage(name)[2] == ' ';
    forall f: string
      ensures SimilarTagMessage(f) != note
    {
      assert SimilarTagMessage(f)[0] == 'U';
    }
  }

  /**
   * Python's `"" in s` always holds, so an empty element name that is not a
   * key takes the tags of the first field.
   */
  lemma EmptyNameTakesFirstField(deps: Deps, value: Value)
    requires !HasKey(deps.fieldTags, "") && deps.fieldTags != []
    ensures Tagging(deps, "", value).tags == ToDicts(deps.fieldTags[0].1)
  {
    ContainsSelfAndEmpty(Lower(deps.fieldTags[0].0));
    assert Lower("") == "";
    assert Similar("", deps.fieldTags[0].0);
  }

  /** Names equal up to ASCII case are always similar. */
  lemma SameLowerIsSimilar(elementName: string, fieldName: string)
    requires Lower(elementName) == Lower(fieldName)
    ensures Similar(elementName, fieldName)
  {
    ContainsSelfAndEmpty(Lower(fieldName));
  }
}
