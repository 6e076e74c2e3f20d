/**
 * `tag_statement_section`: collect the statement-level tags whose element
 * name mentions the section, then tag every scalar entry of the section by
 * exact field name.
 */
module SectionTags {
  import opened Dicts
  import opened Text
  import opened Json
  import opened Taxonomy

  /** The key the section-level tags are stored under. */
  const MetaTagsKey := "meta_tags"

  /** The lower-cased element name of `t` contains the lower-cased section name. */
  predicate InSection(sectionName: string, t: Tag)
  {
    Contains(Lower(t.elementName), Lower(sectionName))
  }

  /** The statement tags that belong to the section, in their original order. */
  function SectionLevelTags(tags: seq<Tag>, sectionName: string): seq<Tag>
  {
    if tags == [] then []
    else
      SectionLevelTags(tags[..|tags| - 1], sectionName)
      + if InSection(sectionName, tags[|tags| - 1]) then [tags[|tags| - 1]] else []
  }

  /** `field_tags[name] if name in field_tags else []`: exact names only. */
  function ExactTags(fields: Entries<seq<Tag>>, name: string): seq<Tag>
  {
    if HasKey(fields, name) then Get(fields, name) else []
  }

  /** `{"value": value, "tags": [...]}` for one scalar entry. */
  function TaggedField(deps: Deps, name: string, value: Value): Value
  {
    Dict([("value", value), ("tags", List(ToDicts(ExactTags(deps.fieldTags, name))))])
  }

  /** The entries of the result after visiting `data` in order, starting from `acc`. */
  function TagEntries(deps: Deps, acc: Entries<Value>, data: Entries<Value>): Entries<Value>
  {
    if data == [] then acc
    else
      var prev := TagEntries(deps, acc, data[..|data| - 1]);
      var (name, value) := data[|data| - 1];
      if IsContainer(value) then prev else Put(prev, name, TaggedField(deps, name, value))
  }

  /** The dict `tag_statement_section` returns. */
  function TaggedSection(deps: Deps, sectionName: string, data: Entries<Value>): Value
  {
    var meta := List(ToDicts(SectionLevelTags(deps.statementTags, sectionName)));
    Dict(TagEntries(deps, [(MetaTagsKey, meta)], data))
  }

  /**
   * The tool itself. The source appends to the list stored under
   * `meta_tags`; here the list is accumulated first and then stored, which
   * gives the same dict because nothing else touches it in between.
   */
  method TagStatementSection(deps: Deps, sectionName: string, sectionData: Entries<Value>)
    returns (r: Value)
    ensures r == TaggedSection(deps, sectionName, sectionData)
  {
    var metaTags: seq<Value> := [];
    for i := 0 to |deps.statementTags|
      invariant metaTags == ToDicts(SectionLevelTags(deps.statementTags[..i], sectionName))
    {
      var tag := deps.statementTags[i];
      assert deps.statementTags[..i + 1][..i] == deps.statementTags[..i];
      if Contains(Lower(tag.elementName), Lower(sectionName)) {
        metaTags := metaTags + [ToDict(tag)];
      }
    }
    assert deps.statementTags[..|deps.statementTags|] == deps.statementTags;
    var section: Entries<Value> := [(MetaTagsKey, List(metaTags))];
    ghost var init := section;
    for i := 0 to |sectionData|
      invariant section == TagEntries(deps, init, sectionData[..i])
    {
      var (elementName, elementValue) := sectionData[i];
      assert sectionData[..i + 1][..i] == sectionData[..i];
      if IsContainer(elementValue) {
        continue;
      }
      var tags: seq<Tag> := [];
      if HasKey(deps.fieldTags, elementName) {
        tags := Get(deps.fieldTags, elementName);
      }
      section := Put(section, elementName, Dict([("value", elementValue), ("tags", List(ToDicts(tags)))]));
    }
    assert sectionData[..|sectionData|] == sectionData;
    r := Dict(section);
  }

  /** A tag is a section-level tag exactly when it is a statement tag that mentions the section. */
  lemma {:induction false} SectionLevelTagsMembers(tags: seq<Tag>, sectionName: string, t: Tag)
    ensures t in SectionLevelTags(tags, sectionName) <==> t in tags && InSection(sectionName, t)
    decreases |tags|
  {
    if tags != [] {
      var init := tags[..|tags| - 1];
      SectionLevelTagsMembers(init, sectionName, t);
      assert tags == init + [tags[|tags| - 1]];
    }
  }

  /** Filtering keeps the original order: it distributes over concatenation. */
  lemma {:induction false} SectionLevelTagsConcat(a: seq<Tag>, b: seq<Tag>, sectionName: string)
    ensures SectionLevelTags(a + b, sectionName) == SectionLevelTags(a, sectionName) + SectionLevelTags(b, sectionName)
    decreases |b|
  {
    if b == [] {
      assert a + b == a;
    } else {
      var init := b[..|b| - 1];
      assert (a + b)[..|a + b| - 1] == a + init;
      assert (a + b)[|a + b| - 1] == b[|b| - 1];
      SectionLevelTagsConcat(a, init, sectionName);
    }
  }

  /**
   * After the fold, a key of `data` with a scalar value holds its tagged
   * entry; any other key is as it was in `acc`.
   */
  lemma {:induction false} TagEntriesLookup(deps: Deps, acc: Entries<Value>, data: Entries<Value>, k: string)
    requires DistinctKeys(data)
    ensures var res := TagEntries(deps, acc, data);
      if HasKey(data, k) && !IsContainer(Get(data, k)) then
        HasKey(res, k) && Get(res, k) == TaggedField(deps, k, Get(data, k))
      else
        (HasKey(res, k) <==> HasKey(acc, k)) && (HasKey(acc, k) ==> Get(res, k) == Get(acc, k))
    decreases |data|
  {
    if data != [] {
      var init := data[..|data| - 1];
      var e := data[|data| - 1];
      assert data == init + [e];
      assert DistinctKeys(init);
      TagEntriesLookup(deps, acc, init, k);
      HasKeyAppend(init, e, k);
      if e.0 != k {
        PutOtherKey(TagEntries(deps, acc, init), e.0, TaggedField(deps, e.0, e.1), k);
      }
    }
  }

  /** The fold never produces a key twice. */
  lemma {:induction false} TagEntriesDistinct(deps: Deps, acc: Entries<Value>, data: Entries<Value>)
    requires DistinctKeys(acc)
    ensures DistinctKeys(TagEntries(deps, acc, data))
    decreases |data|
  {
    if data != [] {
      var init := data[..|data| - 1];
      var e := data[|data| - 1];
      TagEntriesDistinct(deps, acc, init);
      PutDistinct(TagEntries(deps, acc, init), e.0, TaggedField(deps, e.0, e.1));
    }
  }

  /** The fold only replaces or appends, so the first key stays first. */
  lemma {:induction false} TagEntriesFirstKey(deps: Deps, acc: Entries<Value>, data: Entries<Value>)
    requires acc != []
    ensures var res := TagEntries(deps, acc, data); res != [] && res[0].0 == acc[0].0
    decreases |data|
  {
    if data != [] {
      TagEntriesFirstKey(deps, acc, data[..|data| - 1]);
    }
  }

  /**
   * Every entry of a section other than `meta_tags`: list and dict values
   * get no key, a scalar value gets its unchanged value and the tags of its
   * exact field name, or none.
   */
  lemma SectionEntry(deps: Deps, sectionName: string, data: Entries<Value>, k: string)
    requires DistinctKeys(data) && k != MetaTagsKey
    ensures var r := TaggedSection(deps, sectionName, data);
      && r.Dict?
      && (HasKey(r.entries, k) <==> HasKey(data, k) && !IsContainer(Get(data, k)))
      && (HasKey(r.entries, k) ==>
            Get(r.entries, k) == Dict([("value", Get(data, k)), ("tags", List(ToDicts(ExactTags(deps.fieldTags, k))))]))
  {
    var meta := List(ToDicts(SectionLevelTags(deps.statementTags, sectionName)));
    var acc := [(MetaTagsKey, meta)];
    TagEntriesLookup(deps, acc, data, k);
    assert !HasKey(acc, k);
  }

  /**
   * `meta_tags` is the first key and holds the section-level tags, unless
   * the section itself has a scalar entry of that name, which replaces them.
   */
  lemma MetaTagsEntry(deps: Deps, sectionName: string, data: Entries<Value>)
    requires DistinctKeys(data)
    ensures var r := TaggedSection(deps, sectionName, data);
      && r.Dict? && DistinctKeys(r.entries)
      && r.entries != [] && r.entries[0].0 == MetaTagsKey
      && Get(r.entries, MetaTagsKey) ==
           if HasKey(data, MetaTagsKey) && !IsContainer(Get(data, MetaTagsKey))
           then TaggedField(deps, MetaTagsKey, Get(data, MetaTagsKey))
           else List(ToDicts(SectionLevelTags(deps.statementTags, sectionName)))
  {
    var meta := List(ToDicts(SectionLevelTags(deps.statementTags, sectionName)));
    var acc := [(MetaTagsKey, meta)];
    TagEntriesLookup(deps, acc, data, MetaTagsKey);
    TagEntriesDistinct(deps, acc, data);
    TagEntriesFirstKey(deps, acc, data);
    IndexOfIs(acc, MetaTagsKey, 0);
  }
}
