/**
  The collaborators of the codec, as plain values: fields, the tag-keyed FieldMap
  each section is built from, repeating-group instances, the deferred structural
  exception, and the read-only DataDictionary the parser consults.
 */
module FieldMaps {
  import opened Optional

  /** One tag=value pair; the value is kept as the raw text between '=' and SOH. */
  datatype Field = Field(tag: int, value: string)

  /**
    A FieldMap: fields keyed by tag (at most one per tag), the group instances
    attached under each NumInGroup tag, and the NumInGroup counts recorded for
    later validation.
   */
  datatype FieldMap = FieldMap(fields: map<int, string>, groups: map<int, seq<Group>>, counts: map<int, int>)

  /** One repeating-group instance: its NumInGroup tag, its delimiter tag and its own fields. */
  datatype Group = Group(countTag: int, delimiter: int, content: FieldMap)

  const Empty: FieldMap := FieldMap(map[], map[], map[])

  /** isSetField. */
  predicate IsSet(m: FieldMap, tag: int) {
    tag in m.fields
  }

  /** The unchecked setField: a later value replaces an earlier one. */
  function Set(m: FieldMap, f: Field): FieldMap {
    m.(fields := m.fields[f.tag := f.value])
  }

  /** removeField. */
  function Remove(m: FieldMap, tag: int): FieldMap {
    m.(fields := m.fields - {tag})
  }

  /** The instances attached under `countTag`, oldest first. */
  function GroupsOf(m: FieldMap, countTag: int): seq<Group> {
    if countTag in m.groups then m.groups[countTag] else []
  }

  /** addGroupRef: append an instance under its NumInGroup tag. */
  function AddGroupRef(m: FieldMap, g: Group): FieldMap {
    m.(groups := m.groups[g.countTag := GroupsOf(m, g.countTag) + [g]])
  }

  /** setGroupCount: record the NumInGroup value the message declared. */
  function SetGroupCount(m: FieldMap, countTag: int, declared: int): FieldMap {
    m.(counts := m.counts[countTag := declared])
  }

  /** A structural violation: a SessionRejectReason code and the offending tag. */
  datatype FieldException = FieldException(reason: int, tag: int)

  /**
    The failures that escape parsing: InvalidMessage, and the NumberFormatException
    Integer.parseInt throws on a NumInGroup value that is not a number.
   */
  datatype ParseError = InvalidMessage(detail: string) | NumberFormat(text: string)

  /** A repeating group's dictionary entry: its delimiter tag and its own nested dictionary. */
  datatype GroupInfo = GroupInfo(delimiter: int, dict: Dict)

  /**
    The DataDictionary queries the codec makes.  `groups` is keyed by message type
    (HeaderId for header groups) and NumInGroup tag; `orderedFields` is the member
    order of a group dictionary (None stands for a null array).
   */
  datatype Dict = Dict(
    headerFields: set<int>,
    trailerFields: set<int>,
    dataFields: set<int>,
    fields: set<int>,
    groups: map<(string, int), GroupInfo>,
    orderedFields: Option<seq<int>>,
    adminTypes: set<string>,
    checkFieldsOutOfOrder: bool,
    checkUnorderedGroupFields: bool)

  /** The message-type key under which header groups are registered. */
  const HeaderId: string := "HEADER"

  /** isGroup(msgType, tag). */
  predicate IsGroup(d: Dict, msgType: string, tag: int) {
    (msgType, tag) in d.groups
  }

  /** getGroup(msgType, tag). */
  function GetGroup(d: Dict, msgType: string, tag: int): GroupInfo
    requires IsGroup(d, msgType, tag)
  {
    d.groups[(msgType, tag)]
  }
}
