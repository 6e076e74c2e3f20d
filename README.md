# XBRL tagging tools, modelled in Dafny

This project models the four tools the financial statement tagging agent
calls. They live in `tagging/tools.py`, and each reads the taxonomy
dependency object: tags per field, mandatory flags per field, and
statement-level tags.

- `apply_tags_to_element` finds the taxonomy tags of one element. It tries
  the exact field name first. Failing that, it takes the first field, in
  dict order, whose lower-cased name contains the lower-cased element name
  or is contained in it. It also reports whether the element is mandatory
  and collects diagnostic messages.
- `create_context_info` builds an XBRL context record (section 4.7 of the
  XBRL 2.1 Specification). Its id is deterministic:
  `ctx_i<end>_<c|s>` or `ctx_d<start>to<end>_<c|s>`, followed by
  `_<name>-<value>` parts for the dimensions in sorted order.
  - The id carries dates in the ISO 8601 basic form `YYYYMMDD`.
  - The period carries them in the extended form `YYYY-MM-DD`.
  - Both forms are the complete calendar date representations of section
    4.1.2.2 of ISO 8601:2004.
- `tag_statement_section` does two things:
  - it collects the statement tags whose element name mentions the section,
    under `meta_tags`;
  - it tags every scalar entry of the section by exact field name, and
    skips list and dict entries.
- `validate_tagged_data` lists two kinds of issue, in this order:
  - mandatory fields that no dict-valued section holds;
  - fields whose `tags` entry is present but empty.

Each tool is an imperative `method` with the source's loops, early exits and
accumulators. The method is proved equal to a specification function: for
example, `ApplyTags.Tagging` is the result of `ApplyTags.ApplyTagsToElement`.
The properties the tools promise are then proved as lemmas about those
functions.

How Python's values are represented:

- A Python dict is a sequence of key/value entries in insertion order
  (`Dicts`). Lookup finds the first entry with the key. `Dicts.Put` is
  `d[k] = v`: it replaces the entry in place, or appends one for a new key.
- `Any` is the JSON-like `Json.Value`, with Python's truthiness and
  `isinstance(v, (list, dict))`.
- A taxonomy tag is its element name plus its other attributes.
  `tag.dict()` is the dict with `element_name` first, then the attributes.

Modules:

| module | file | contents |
|---|---|---|
| `Wrappers` | wrappers.dfy | `Option` |
| `Dicts` | dicts.dfy | ordered dicts: lookup and assignment |
| `Text` | text.dfy | ASCII `lower()`, substring test, `join`, string order |
| `Json` | json.dfy | Python values, truthiness, container test |
| `Sorting` | sorting.dfy | `sorted()` on (name, value) pairs |
| `Dates` | dates.dfy | dates and their two ISO 8601 forms |
| `Taxonomy` | taxonomy.dfy | tags, the dependency object, `tag.dict()` |
| `ApplyTags` | apply_tags.dfy | `apply_tags_to_element` |
| `ContextInfo` | context_info.dfy | `create_context_info` |
| `SectionTags` | section_tags.dfy | `tag_statement_section` |
| `Validation` | validation.dfy | `validate_tagged_data` |

## Model

| member | source | states |
|---|---|---|
| ApplyTags.ApplyTagsToElement | tagging/tools.py:12-65 | The exact lookup, the fuzzy loop stopping at its first hit, the mandatory check and the message list together build exactly the record `Tagging` specifies. |
| ApplyTags.FirstSimilar | tagging/tools.py:42-47 | When a position is returned, it holds a similar field and no earlier field is similar. When nothing is returned, no field is similar. |
| ApplyTags.FirstSimilarIs | tagging/tools.py:42-47 | The field at which the search breaks, a similar one with no similar field before it, is the one the specification picks. |
| ApplyTags.ExactMatch | tagging/tools.py:36-38 | With an exact key, the tags are that key's tags. The messages are exactly the exact-match message, followed by the mandatory note when the element is mandatory. No message reports a similar tag. |
| ApplyTags.SimilarMatch | tagging/tools.py:39-47 | Without an exact key, the first similar field in dict order supplies the tags. The messages are exactly the no-exact-match message and the similar-tag message naming that field, followed by the mandatory note when the element is mandatory. At most one message reports a similar tag. |
| ApplyTags.NoMatch | tagging/tools.py:32-47 | With neither an exact key nor a similar field, the tags are empty. The messages are exactly the no-exact-match message, followed by the mandatory note when the element is mandatory. No message reports a similar tag. |
| ApplyTags.MandatoryNoteIff | tagging/tools.py:50-54 | `is_mandatory` holds exactly when the name is a key of the mandatory flags mapped to true. The mandatory note is among the messages exactly then. |
| ApplyTags.EmptyNameTakesFirstField | tagging/tools.py:44 | An empty element name that is not a key takes the tags of the first field, because the empty string is in every string. |
| ApplyTags.SameLowerIsSimilar | tagging/tools.py:44 | Two names equal up to ASCII case are always similar. |
| ContextInfo.CreateContextInfo | tagging/tools.py:68-125 | The id, entity, period, flag and optional dimensions built step by step are exactly the record `ContextFor` specifies. |
| ContextInfo.CollectDimensionParts | tagging/tools.py:99-101 | The loop over the sorted dimensions yields one `name-value` part per dimension, in order. |
| ContextInfo.InstantIdLayout | tagging/tools.py:92-96 | Without a start date, the id is `ctx_i`, the basic form of the end date, `_`, then `c` exactly when consolidated (otherwise `s`). It is 15 characters long exactly when there are no dimensions, and otherwise continues with `_`. |
| ContextInfo.DurationIdLayout | tagging/tools.py:92-96 | With a start date, the id is `ctx_d`, the start date, `to`, the end date, `_`, then `c` exactly when consolidated (otherwise `s`). It is 25 characters long exactly when there are no dimensions, and otherwise continues with `_`. |
| ContextInfo.ContextIdRoundTrip | tagging/tools.py:92-104 | For valid dates, parsing the id gives back the start date (if any), the end date and the consolidation flag, whatever the dimensions. |
| ContextInfo.ContextIdInjective | tagging/tools.py:92-104 | Two contexts that differ in period or consolidation never share an id. |
| ContextInfo.DimensionsCollide | tagging/tools.py:99-104 | The dimension parts are joined without escaping. So `{"a-b": "c"}` and `{"a": "b-c"}` are different dimensions that give the same id. |
| ContextInfo.ContextIdDimensionsInjective | tagging/tools.py:99-104 | When no dimension name contains `-` and no name or value contains `_`, equal ids have the same dimensions, up to order. |
| ContextInfo.DimensionPartsInjective | tagging/tools.py:100-101 | When no name contains `-` and nothing contains `_`, the `name-value` parts determine the sequence of dimensions. |
| ContextInfo.DimensionPartsSorted | tagging/tools.py:99-104 | With dimensions, the id is the base id, `_`, then `_`-joined `name-value` parts of a sorted permutation of the dimensions. |
| ContextInfo.DimensionOrderIrrelevant | tagging/tools.py:99-104 | The id does not depend on the insertion order of the dimensions dict. |
| ContextInfo.ContextFields | tagging/tools.py:107-123 | The period's end date is a well-formed `YYYY-MM-DD` string that reads back as the end date. A start date is present exactly for a duration, and then reads back as the start date. A `dimensions` key is present exactly when there are dimensions, and then holds them unchanged. The entity and flag are passed through. |
| SectionTags.TagStatementSection | tagging/tools.py:128-167 | The meta-tag loop and the entry loop, with its `continue` for lists and dicts, build exactly the dict `TaggedSection` specifies. |
| SectionTags.SectionLevelTagsMembers | tagging/tools.py:146-149 | A tag is among the section-level tags exactly when it is a statement tag whose lower-cased element name contains the lower-cased section name. |
| SectionTags.SectionLevelTagsConcat | tagging/tools.py:146-149 | Selecting section-level tags distributes over concatenation, so the statement-tag order is kept. |
| SectionTags.TagEntriesLookup | tagging/tools.py:151-165 | After the entry loop, every scalar entry of the section holds its tagged value. Every other key is present, and maps to the same value, exactly as before the loop. |
| SectionTags.TagEntriesDistinct | tagging/tools.py:162 | The entry loop never produces the same key twice. |
| SectionTags.SectionEntry | tagging/tools.py:152-165 | A section key other than `meta_tags` appears in the result exactly when its value is not a list or dict. It then maps to its unchanged value and the tags of its exact field name, or to empty tags when it has none. |
| SectionTags.MetaTagsEntry | tagging/tools.py:144-165 | `meta_tags` is the first key of the result. It holds the section-level tags in order, unless the section has a scalar entry of that name, which replaces them. |
| Validation.ValidateTaggedData | tagging/tools.py:170-216 | The two passes together return exactly the issue list `Issues` specifies. |
| Validation.CheckMandatory | tagging/tools.py:186-202 | The mandatory pass appends one issue for each field flagged true that the search does not find, in dict order. |
| Validation.FindField | tagging/tools.py:189-195 | The search breaks at a hit and reports whether some dict-valued section has the field as a key. |
| Validation.CheckTags | tagging/tools.py:204-214 | The second pass visits every section in order and skips those that are not dicts. |
| Validation.CheckSection | tagging/tools.py:207-214 | The loop over one section's fields yields one missing-tags issue per field whose `tags` entry is present and empty, in order. |
| Validation.MandatoryIssuesFirst | tagging/tools.py:184-216 | Every missing-mandatory-field issue comes before every missing-tags issue. |
| Validation.MissingMandatoryReportedOnce | tagging/tools.py:186-202 | With distinct mandatory keys, a field is reported missing once if it is flagged true and no dict-valued section holds it, and never otherwise. In particular, a field flagged false is never reported. |
| Validation.MissingTagsIff | tagging/tools.py:204-214 | A missing-tags issue names a section and a field exactly when that section is a dict whose field holds a dict with an empty `tags` entry. |
| Validation.NoIssuesIff | tagging/tools.py:184-216 | The list is empty exactly when two things hold: every field flagged mandatory is in some dict-valued section, and no field has an empty `tags` entry. |
| Validation.TaggedSectionEmptyTags | tagging/tools.py:158-165 | In a section produced by `tag_statement_section`, the missing-tags check flags exactly the scalar entries whose name has no exact field tags. |
| Sorting.SortSortedPermutation | tagging/tools.py:100 | `sorted()` returns a permutation of its input in non-decreasing tuple order. |
| Sorting.SortedUnique | tagging/tools.py:100 | Two sorted sequences with the same elements are equal. |
| Sorting.SortIgnoresOrder | tagging/tools.py:100 | The sorted result depends only on the multiset of input pairs, not on their order. |
| Dates.BasicRoundTrip | tagging/tools.py:92-93 | Every valid date is read back from its basic `YYYYMMDD` form. |
| Dates.BasicInjective | tagging/tools.py:92-93 | Different valid dates have different basic forms. |
| Dates.ExtendedRoundTrip | tagging/tools.py:114 | Every valid date is read back from its extended `YYYY-MM-DD` form. A reader that demands the length 10 and the `-` at positions 4 and 7 accepts it. |
| Dates.ExtendedIsBasicWithSeparators | tagging/tools.py:114 | The extended form is the basic form with `-` after the year and after the month. |
| Taxonomy.ToDictsInjective | tagging/tools.py:60 | Converting tags to dicts loses nothing: different tag lists give different lists of dicts. |
| Text.Lower | tagging/tools.py:44 | `str.lower()` keeps the length and maps each character through the ASCII lower-case mapping. |
| Text.LowerIdempotent | tagging/tools.py:44 | Lower-casing an already lower-cased name changes nothing. |
| Text.ContainsSelfAndEmpty | tagging/tools.py:44 | The substring test `in` holds for a string in itself and for the empty string in any string. |
| Text.Join | tagging/tools.py:104 | `'_'.join` of a single part is that part. |
| Text.JoinInjective | tagging/tools.py:104 | A `join` of one or more parts that do not contain the separator determines the parts. |
| Dicts.Put | tagging/tools.py:162 | After `d[k] = v`, `k` maps to `v`. An existing key keeps its position and every other entry is unchanged. A new key is appended at the end. |
| Dicts.PutOtherKey | tagging/tools.py:162 | Assigning one key leaves the presence and value of every other key unchanged. |
| Dicts.PutDistinct | tagging/tools.py:162 | Assignment keeps the keys of a dict distinct. |

## Left out

- The agent run loop is not modelled. It covers model requests, tool dispatch, retries and usage limits, and it lives in the external `pydantic_ai` library. `tagging/agent.py` and `mapping/agent.py` only configure it from environment variables, and they are not part of this model.
- `tagging/system_prompts.py` is not part of this model. It is a string constant.
- `mapping/tools.py`, the `models.py` files and `tagging/dependencies.py` are not part of this model. The dependency object is modelled as the tools use it: `Taxonomy.Deps`.
- `RunContext` is reduced to its `deps`, the only part the tools read.
- `ApplyTags.Similar`: `str.lower()` is modelled on ASCII letters only. Unicode case mapping, including characters whose lower-case form is longer, is not captured.
- `Dates.Basic`: `strftime('%Y')` is modelled with a four-digit zero-padded year. On some C libraries, years before 1000 print with fewer digits. The round-trip lemmas are stated for years 1 to 9999 under this padding.
- `Dates.Valid`: month lengths and leap years are not checked; days are bounded by 31 only. A Python `date` cannot hold 31 February, so these lemmas cover a superset of the real inputs.
- Floating-point numbers and other Python types inside `Any` are not modelled. `Json.Value` has `None`, booleans, integers, strings, lists and dicts.
- `tag.dict()` is modelled as the element name followed by the tag's other attributes. Pydantic's own serialisation of nested values is not modelled.
- `ApplyTags.ApplyTagsToElement`: `statement_type` and `is_instant` are accepted and not used, as in the source.
- ContextInfo.ContextIdInjective: the source calls its context id unique, but the id is unique only in the period and the consolidation flag. Dimension names and values are joined without escaping, so dimension dicts can collide (`ContextInfo.DimensionsCollide`). Uniqueness over dimensions is proved only when names contain no `-` and no name or value contains `_` (`ContextInfo.ContextIdDimensionsInjective`).
- `ContextInfo.CreateContextInfo`: a missing `dimensions` argument and an empty dict behave the same way in the source, so both are the empty entry list here. The source also sorts its dimensions with Python's `sorted`; ties between equal pairs cannot arise in a real dict.
- `SectionTags.TagStatementSection`: the source appends to the list already stored under `meta_tags`. Here the list is accumulated first and then stored. This gives the same dict, because nothing reads or replaces that entry in between.
- `ContextInfo.CollectDimensionParts`, `Validation.CheckMandatory`, `Validation.CheckTags`, `Validation.FindField` and `Validation.CheckSection` are loops of the source written as methods of their own. Inlining them changes nothing that the model states.
- Lemmas that need a real dict require distinct keys: `Validation.MissingMandatoryReportedOnce`, `Validation.TaggedSectionEmptyTags`, `SectionTags.TagEntriesLookup`, `SectionTags.SectionEntry` and `SectionTags.MetaTagsEntry`. The tool methods themselves accept any entry list.
- Issue messages (`Validation.Issue.Message`) and the `type` strings are modelled as values but carry no contract.
