/**
 * The taxonomy dependency object the tagging tools read, as far as the tools
 * use it: tags per field, the mandatory flag per field, and the
 * statement-level tags.
 */
module Taxonomy {
  import opened Dicts
  import opened Json

  /** A taxonomy tag: its element name and its other attributes, in field order. */
  datatype Tag = Tag(elementName: string, attributes: Entries<Value>)

  datatype Deps = Deps(
    fieldTags: Entries<seq<Tag>>,
    mandatoryFields: Entries<bool>,
    statementTags: seq<Tag>)

  /** `tag.dict()`: the tag as a dict, element name first. */
  function ToDict(t: Tag): (v: Value)
    ensures v.Dict? && v.entries != [] && v.entries[0] == ("element_name", Str(t.elementName))
  {
    Dict([("element_name", Str(t.elementName))] + t.attributes)
  }

  /** `[tag.dict() for tag in tags]` */
  function ToDicts(ts: seq<Tag>): (vs: seq<Value>)
    ensures |vs| == |ts|
    ensures forall i :: 0 <= i < |ts| ==> vs[i] == ToDict(ts[i])
  {
    seq(|ts|, i requires 0 <= i < |ts| => ToDict(ts[i]))
  }

  /** Converting tags to dicts loses nothing: different tag lists give different lists of dicts. */
  lemma ToDictsInjective(ts: seq<Tag>, us: seq<Tag>)
    requires ToDicts(ts) == ToDicts(us)
    ensures ts == us
  {
    forall i | 0 <= i < |ts|
      ensures ts[i] == us[i]
    {
      var a, b := ToDict(ts[i]), ToDict(us[i]);
      assert a.entries[0] == b.entries[0];
      assert ts[i].attributes == a.entries[1..] == b.entries[1..] == us[i].attributes;
    }
  }
}
