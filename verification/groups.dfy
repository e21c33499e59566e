/**
  The repeating-group assembler (parseGroup).  After a NumInGroup field has been
  read, every occurrence of the group's delimiter tag opens a new instance,
  member tags fill the open instance, nested NumInGroup tags recurse, and the
  first tag that belongs to none of these is pushed back for the caller.  The
  declared count is recorded, never compared with the number of instances.
 */
module GroupParser {
  import opened Optional
  import opened JavaText
  import opened CharsetSupport
  import opened FieldMaps
  import opened Tokenizer
  import RejectReasons

  /**
    How a parsing phase ends: a fatal error that escapes the parser, a deferred
    structural violation together with what had been built when it was raised,
    or the finished value and the cursor to continue from.
   */
  datatype Outcome<T> = Fatal(error: ParseError) | Stopped(partial: T, exc: FieldException) | Done(value: T, cursor: Cursor)

  /** An instance opened by the delimiter of the group counted by `countTag`. */
  predicate Opened(g: Group, countTag: int, delimiter: int) {
    g.countTag == countTag && g.delimiter == delimiter && delimiter in g.content.fields
  }

  /**
    `n` is `o` with instances of the group counted by `countTag` appended, each
    opened by `delimiter`; fields, counts and the other groups are untouched.
   */
  predicate Extends(o: FieldMap, n: FieldMap, countTag: int, delimiter: int) {
    && n.fields == o.fields && n.counts == o.counts
    && n.groups - {countTag} == o.groups - {countTag}
    && |GroupsOf(o, countTag)| <= |GroupsOf(n, countTag)|
    && GroupsOf(n, countTag)[..|GroupsOf(o, countTag)|] == GroupsOf(o, countTag)
    && forall i :: |GroupsOf(o, countTag)| <= i < |GroupsOf(n, countTag)| ==> Opened(GroupsOf(n, countTag)[i], countTag, delimiter)
  }

  lemma ExtendsRefl(m: FieldMap, countTag: int, delimiter: int)
    ensures Extends(m, m, countTag, delimiter)
  {
    assert GroupsOf(m, countTag)[..|GroupsOf(m, countTag)|] == GroupsOf(m, countTag);
  }

  lemma {:induction false} ExtendsTrans(a: FieldMap, b: FieldMap, c: FieldMap, countTag: int, delimiter: int)
    requires Extends(a, b, countTag, delimiter) && Extends(b, c, countTag, delimiter)
    ensures Extends(a, c, countTag, delimiter)
  {
    var ga, gb, gc := GroupsOf(a, countTag), GroupsOf(b, countTag), GroupsOf(c, countTag);
    assert gc[..|ga|] == gb[..|ga|];
  }

  /** The open instance, if any, is attached under its NumInGroup tag. */
  function Attach(parent: FieldMap, countTag: int, delimiter: int, group: Option<FieldMap>): (r: FieldMap)
    requires group.Some? ==> delimiter in group.value.fields
    ensures Extends(parent, r, countTag, delimiter)
    ensures group.None? ==> r == parent
    ensures group.Some? ==> GroupsOf(r, countTag) == GroupsOf(parent, countTag) + [Group(countTag, delimiter, group.value)]
  {
    if group.Some? then
      var r := AddGroupRef(parent, Group(countTag, delimiter, group.value));
      assert GroupsOf(r, countTag)[..|GroupsOf(parent, countTag)|] == GroupsOf(parent, countTag);
      r
    else
      ExtendsRefl(parent, countTag, delimiter);
      parent
  }

  /** The tag `pending` ends a group: it is neither its delimiter, a nested group, nor a member. */
  predicate Foreign(info: GroupInfo, msgType: string, tag: int) {
    tag != info.delimiter && !IsGroup(info.dict, msgType, tag) && tag !in info.dict.fields
  }

  /**
    A group ends either at the end of the input, or with the first foreign field
    waiting in the pushback slot.
   */
  predicate GroupEnd(data: string, c: Cursor, info: GroupInfo, msgType: string) {
    || (c.pushedBack.None? && c.pos >= |data|)
    || (c.pushedBack.Some? && Foreign(info, msgType, c.pushedBack.value.tag))
  }

  /** The reasons a group can raise: a bad data-field length, or members out of order. */
  predicate GroupReason(exc: FieldException) {
    exc.reason == RejectReasons.IncorrectDataFormatForValue || exc.reason == RejectReasons.RepeatingGroupFieldsOutOfOrder
  }

  /**
    parseGroup: `f` is the NumInGroup field just read (the cursor is past it) and
    `parent` the map it belongs to.  The count field is (re)set in the parent,
    the instances are appended under its tag, and on normal completion the
    declared count is recorded.  A count that is not a number escapes as
    NumberFormatException.
   */
  function ParseGroup(data: string, c: Cursor, msgType: string, f: Field, dd: Dict, parent: FieldMap, cs: Charset): (r: Outcome<FieldMap>)
    requires IsGroup(dd, msgType, f.tag)
    ensures ParseInt(f.value).None? ==> r == Fatal(NumberFormat(f.value))
    ensures r.Done? ==> Rank(data, r.cursor) <= Rank(data, c)
    ensures r.Done? ==> GroupEnd(data, r.cursor, GetGroup(dd, msgType, f.tag), msgType)
    ensures r.Done? ==>
      && ParseInt(f.value).Some?
      && Extends(Set(parent, f), r.value.(counts := parent.counts), f.tag, GetGroup(dd, msgType, f.tag).delimiter)
      && r.value.counts == parent.counts[f.tag := ParseInt(f.value).value]
    ensures r.Stopped? ==> Extends(Set(parent, f), r.partial, f.tag, GetGroup(dd, msgType, f.tag).delimiter)
    ensures r.Stopped? ==> GroupReason(r.exc)
    ensures var rg := GetGroup(dd, msgType, f.tag); var e := Extract(data, c, Some(dd), Set(parent, f), cs);
      ParseInt(f.value).Some? && e.Next? && e.field.Some? && e.field.value.tag != rg.delimiter ==>
        && (IsGroup(rg.dict, msgType, e.field.value.tag) ==> r.Fatal? && r.error.InvalidMessage?)
        && (!IsGroup(rg.dict, msgType, e.field.value.tag) && e.field.value.tag in rg.dict.fields ==>
              r == Stopped(Set(parent, f), FieldException(RejectReasons.RepeatingGroupFieldsOutOfOrder, e.field.value.tag)))
    decreases Rank(data, c), 3
  {
    var rg := GetGroup(dd, msgType, f.tag);
    match ParseInt(f.value)
    case None => Fatal(NumberFormat(f.value))
    case Some(declared) =>
      var p := Set(parent, f);
      ExtendsRefl(p, f.tag, rg.delimiter);
      match GroupLoop(data, c, msgType, f.tag, rg, dd, p, None, -1, cs)
      case Fatal(e) => Fatal(e)
      case Stopped(partial, exc) => Stopped(partial, exc)
      case Done(m, next) =>
        assert m.counts == p.counts;
        Done(SetGroupCount(m, f.tag, declared), next)
  }

  /**
    What every step of the loop guarantees about its result, relative to the
    parent map and the cursor it started from.
   */
  predicate LoopResult(data: string, c: Cursor, msgType: string, countTag: int, rg: GroupInfo, parent: FieldMap, r: Outcome<FieldMap>) {
    && (r.Done? ==> Rank(data, r.cursor) <= Rank(data, c) && GroupEnd(data, r.cursor, rg, msgType)
                    && Extends(parent, r.value, countTag, rg.delimiter))
    && (r.Stopped? ==> Extends(parent, r.partial, countTag, rg.delimiter) && GroupReason(r.exc))
  }

  /** The instance that was open when a step began ended up attached, with at least its fields. */
  predicate KeptOpen(countTag: int, parent: FieldMap, group: Option<FieldMap>, r: Outcome<FieldMap>) {
    r.Done? && group.Some? ==>
      && |GroupsOf(r.value, countTag)| > |GroupsOf(parent, countTag)|
      && GroupsOf(r.value, countTag)[|GroupsOf(parent, countTag)|].content.fields.Keys >= group.value.fields.Keys
  }

  /**
    The loop of parseGroup.  `group` is the instance being filled (None before the
    first delimiter) and `previous` the order offset of its last listed member.
    Extraction reads data-field lengths from the open instance, or from the parent
    before there is one.
   */
  function GroupLoop(data: string, c: Cursor, msgType: string, countTag: int, rg: GroupInfo, dd: Dict,
                     parent: FieldMap, group: Option<FieldMap>, previous: int, cs: Charset): (r: Outcome<FieldMap>)
    requires group.Some? ==> rg.delimiter in group.value.fields
    ensures LoopResult(data, c, msgType, countTag, rg, parent, r)
    ensures KeptOpen(countTag, parent, group, r)
    ensures var e := Extract(data, c, Some(dd), if group.Some? then group.value else parent, cs);
      e.Next? && e.field.Some? && e.field.value.tag != rg.delimiter ==>
        && (IsGroup(rg.dict, msgType, e.field.value.tag) && group.None? ==> r.Fatal? && r.error.InvalidMessage?)
        && (!IsGroup(rg.dict, msgType, e.field.value.tag) && e.field.value.tag in rg.dict.fields ==>
              && (group.None? ==> r == Stopped(parent, FieldException(RejectReasons.RepeatingGroupFieldsOutOfOrder, e.field.value.tag)))
              && (group.Some? ==> KeptOpen(countTag, parent, Some(Set(group.value, e.field.value)), r)))
        && (Foreign(rg, msgType, e.field.value.tag) ==>
              r == Done(Attach(parent, countTag, rg.delimiter, group), PushBack(e.cursor, e.field)))
    decreases Rank(data, c), 2
  {
    var scope := if group.Some? then group.value else parent;
    match Extract(data, c, Some(dd), scope, cs)
    case Failed(e) => Fatal(e)
    case Rejected(exc) =>
      ExtendsRefl(parent, countTag, rg.delimiter);
      Stopped(parent, exc)
    case Next(None, next) =>
      Done(Attach(parent, countTag, rg.delimiter, group), next)
    case Next(Some(fld), next) =>
      if fld.tag == rg.delimiter then
        Delimited(data, c, next, fld, msgType, countTag, rg, dd, parent, group, cs)
      else if IsGroup(rg.dict, msgType, fld.tag) then
        if group.None? then Fatal(InvalidMessage("The group must set the delimiter field"))
        else Nested(data, c, next, fld, msgType, countTag, rg, dd, parent, group.value, previous, cs)
      else if fld.tag in rg.dict.fields then
        Member(data, c, next, fld, msgType, countTag, rg, dd, parent, group, previous, cs)
      else
        Done(Attach(parent, countTag, rg.delimiter, group), PushBack(next, Some(fld)))
  }

  /** A step's guarantees relative to `attached` carry over to any `parent` that `attached` extends. */
  lemma ResultThroughAttach(data: string, c: Cursor, msgType: string, countTag: int, rg: GroupInfo,
                            parent: FieldMap, group: Option<FieldMap>, attached: FieldMap, r: Outcome<FieldMap>)
    requires group.Some? ==> rg.delimiter in group.value.fields
    requires attached == Attach(parent, countTag, rg.delimiter, group)
    requires LoopResult(data, c, msgType, countTag, rg, attached, r)
    ensures LoopResult(data, c, msgType, countTag, rg, parent, r)
    ensures KeptOpen(countTag, parent, group, r)
  {
    if r.Done? {
      ExtendsTrans(parent, attached, r.value, countTag, rg.delimiter);
      var n := |GroupsOf(parent, countTag)|;
      if group.Some? {
        assert GroupsOf(r.value, countTag)[..n + 1] == GroupsOf(attached, countTag);
        assert GroupsOf(r.value, countTag)[n] == GroupsOf(r.value, countTag)[..n + 1][n];
      }
    } else if r.Stopped? {
      ExtendsTrans(parent, attached, r.partial, countTag, rg.delimiter);
    }
  }

  /**
    The delimiter opens a new instance after attaching the open one, and resets the
    order tracker.
   */
  function Delimited(data: string, c: Cursor, next: Cursor, fld: Field, msgType: string, countTag: int, rg: GroupInfo,
                     dd: Dict, parent: FieldMap, group: Option<FieldMap>, cs: Charset): (r: Outcome<FieldMap>)
    requires fld.tag == rg.delimiter
    requires group.Some? ==> rg.delimiter in group.value.fields
    requires Rank(data, next) < Rank(data, c)
    ensures LoopResult(data, c, msgType, countTag, rg, parent, r)
    ensures KeptOpen(countTag, parent, group, r)
    decreases Rank(data, c), 1
  {
    var attached := Attach(parent, countTag, rg.delimiter, group);
    var r := Reopen(data, c, next, fld, msgType, countTag, rg, dd, attached, cs);
    ResultThroughAttach(data, c, msgType, countTag, rg, parent, group, attached, r);
    r
  }

  /**
    The new instance starts with the delimiter; when the delimiter is itself a
    NumInGroup tag of the group's dictionary, its own group is parsed into the new
    instance first.
   */
  function Reopen(data: string, c: Cursor, next: Cursor, fld: Field, msgType: string, countTag: int, rg: GroupInfo,
                  dd: Dict, attached: FieldMap, cs: Charset): (r: Outcome<FieldMap>)
    requires fld.tag == rg.delimiter
    requires Rank(data, next) < Rank(data, c)
    ensures LoopResult(data, c, msgType, countTag, rg, attached, r)
    ensures !IsGroup(rg.dict, msgType, fld.tag) ==>
      r == GroupLoop(data, next, msgType, countTag, rg, dd, attached, Some(Set(Empty, fld)), -1, cs)
    decreases Rank(data, c), 0
  {
    var started := Set(Empty, fld);
    if IsGroup(rg.dict, msgType, fld.tag) then
      match ParseGroup(data, next, msgType, fld, rg.dict, started, cs)
      case Fatal(e) => Fatal(e)
      case Stopped(_, exc) => ExtendsRefl(attached, countTag, rg.delimiter); Stopped(attached, exc)
      case Done(filled, after) => GroupLoop(data, after, msgType, countTag, rg, dd, attached, Some(filled), -1, cs)
    else GroupLoop(data, next, msgType, countTag, rg, dd, attached, Some(started), -1, cs)
  }

  /** A nested NumInGroup tag inside an open instance: its group is parsed into that instance. */
  function Nested(data: string, c: Cursor, next: Cursor, fld: Field, msgType: string, countTag: int, rg: GroupInfo,
                  dd: Dict, parent: FieldMap, group: FieldMap, previous: int, cs: Charset): (r: Outcome<FieldMap>)
    requires IsGroup(rg.dict, msgType, fld.tag)
    requires rg.delimiter in group.fields
    requires Rank(data, next) < Rank(data, c)
    ensures LoopResult(data, c, msgType, countTag, rg, parent, r)
    ensures KeptOpen(countTag, parent, Some(group), r)
    decreases Rank(data, c), 0
  {
    match ParseGroup(data, next, msgType, fld, rg.dict, group, cs)
    case Fatal(e) => Fatal(e)
    case Stopped(_, exc) =>
      ExtendsRefl(parent, countTag, rg.delimiter);
      Stopped(parent, exc)
    case Done(filled, after) =>
      GroupLoop(data, after, msgType, countTag, rg, dd, parent, Some(filled), previous, cs)
  }

  /**
    A member tag: refused (code 15) before the first delimiter, or when order
    checking is on and its listed position does not come after the previous
    listed member's; otherwise it joins the open instance.
   */
  function Member(data: string, c: Cursor, next: Cursor, fld: Field, msgType: string, countTag: int, rg: GroupInfo,
                  dd: Dict, parent: FieldMap, group: Option<FieldMap>, previous: int, cs: Charset): (r: Outcome<FieldMap>)
    requires group.Some? ==> rg.delimiter in group.value.fields
    requires Rank(data, next) < Rank(data, c)
    ensures LoopResult(data, c, msgType, countTag, rg, parent, r)
    ensures KeptOpen(countTag, parent, group, r)
    ensures group.None? ==> r == Stopped(parent, FieldException(RejectReasons.RepeatingGroupFieldsOutOfOrder, fld.tag))
    ensures group.Some? ==> KeptOpen(countTag, parent, Some(Set(group.value, fld)), r)
    ensures rg.dict.orderedFields.Some? && dd.checkUnorderedGroupFields
            && -1 < IndexOfInt(fld.tag, rg.dict.orderedFields.value) <= previous ==>
              r == Stopped(parent, FieldException(RejectReasons.RepeatingGroupFieldsOutOfOrder, fld.tag))
    decreases Rank(data, c), 0
  {
    var offset := if rg.dict.orderedFields.Some? && dd.checkUnorderedGroupFields
                  then IndexOfInt(fld.tag, rg.dict.orderedFields.value) else -1;
    if group.None? || (offset > -1 && offset <= previous) then
      ExtendsRefl(parent, countTag, rg.delimiter);
      Stopped(parent, FieldException(RejectReasons.RepeatingGroupFieldsOutOfOrder, fld.tag))
    else
      GroupLoop(data, next, msgType, countTag, rg, dd, parent, Some(Set(group.value, fld)),
                if offset > -1 then offset else previous, cs)
  }
}
