/**
  The field tokenizer: a cursor over the raw message with a one-field pushback
  slot, reading `tag=value SOH` one field at a time.  Values of dictionary data
  fields may contain SOH; their end is found from the byte length declared by
  an earlier length field in the same scope.
 */
module Tokenizer {
  import opened Optional
  import opened JavaText
  import opened CharsetSupport
  import opened FieldMaps
  import RejectReasons

  /** The scan position and the pushed-back field, if any. */
  datatype Cursor = Cursor(pos: nat, pushedBack: Option<Field>)

  const Start: Cursor := Cursor(0, None)

  /**
    A measure that every extraction lowers: twice the unread length, plus one
    while a field waits in the pushback slot.
   */
  function Rank(data: string, c: Cursor): nat {
    2 * (if c.pos <= |data| then |data| - c.pos else 0) + (if c.pushedBack.Some? then 1 else 0)
  }

  /** pushBack: the slot now holds `f`; pushing back None empties it. */
  function PushBack(c: Cursor, f: Option<Field>): Cursor {
    c.(pushedBack := f)
  }

  /** The outcome of one extraction: a fatal error, a structural violation, or the next field (None at the end). */
  datatype Extracted = Failed(error: ParseError) | Rejected(exc: FieldException) | Next(field: Option<Field>, cursor: Cursor)

  /** The dictionary marks `tag` as a length-prefixed data field. */
  predicate IsDataField(dd: Option<Dict>, tag: int) {
    dd.Some? && tag in dd.value.dataFields
  }

  /** The tag holding a data field's length: the preceding tag, except Signature (89) whose length is tag 93. */
  function LengthTag(tag: int): int {
    if tag == 89 then 93 else tag - 1
  }

  /**
    The data-field loop stops at the SOH at `end` once the value before it is
    at least `declared` characters long or encodes to at least `declared` bytes.
   */
  predicate LongEnough(data: string, eq: nat, end: nat, declared: int, cs: Charset)
    requires eq < end <= |data|
  {
    !(end - eq - 1 < declared && |cs.encode(data[eq + 1..end])| < declared)
  }

  /** The value between '=' at `eq` and position `q` encodes to fewer than `declared` bytes. */
  predicate ShortAt(data: string, eq: nat, q: nat, declared: int, cs: Charset)
    requires eq < q <= |data|
  {
    |cs.encode(data[eq + 1..q])| < declared
  }

  /** Because no charset encodes to fewer bytes than characters, the character test only short-cuts the byte test. */
  lemma LongEnoughIsEncodedLength(data: string, eq: nat, end: nat, declared: int, cs: Charset)
    requires eq < end <= |data|
    ensures LongEnough(data, eq, end, declared, cs) <==> !ShortAt(data, eq, end, declared, cs)
  {
    assert |cs.encode(data[eq + 1..end])| >= |data[eq + 1..end]|;
  }

  /** The search for a data field's terminating SOH, starting from the first SOH after '='. */
  function ScanData(data: string, eq: nat, soh: nat, declared: int, cs: Charset): (r: Option<nat>)
    requires eq < soh < |data| && data[soh] == SOH
    ensures r.Some? ==> soh <= r.value < |data| && data[r.value] == SOH && LongEnough(data, eq, r.value, declared, cs)
    decreases |data| - soh
  {
    if LongEnough(data, eq, soh, declared, cs) then Some(soh)
    else match IndexOfChar(data, SOH, soh + 1)
      case None => None
      case Some(next) => ScanData(data, eq, next, declared, cs)
  }

  /**
    The text of `data` from `start` to the SOH at `end` reads as `f`: the tag text
    runs up to the first '=', parses as f.tag, and f.value is everything between
    that '=' and the SOH.
   */
  predicate Framed(data: string, start: nat, end: nat, f: Field) {
    var eq := end - |f.value| - 1;
    && start < eq && end < |data|
    && data[eq] == '=' && NoneOf(data, '=', start, eq)
    && ParseInt(data[start..eq]) == Some(f.tag)
    && data[eq + 1..end] == f.value
    && data[end] == SOH
  }

  /** A field read from `start` ends at an SOH at or after `soh` and is framed there with tag `tag`. */
  predicate ReadsUpTo(data: string, start: nat, soh: nat, tag: int, r: Extracted) {
    r.Next? ==>
      && r.field.Some? && r.cursor.pushedBack.None? && soh + 1 <= r.cursor.pos <= |data|
      && r.field.value.tag == tag && Framed(data, start, r.cursor.pos - 1, r.field.value)
  }

  /** A field read from `start` whose '=' is at `eq` and whose terminating SOH is at `end` is framed there. */
  lemma FramedField(data: string, start: nat, eq: nat, end: nat, tag: int)
    requires start < eq < end < |data|
    requires data[eq] == '=' && NoneOf(data, '=', start, eq) && data[end] == SOH
    requires ParseInt(data[start..eq]) == Some(tag)
    ensures Framed(data, start, end, Field(tag, data[eq + 1..end]))
  {
    assert end - |data[eq + 1..end]| - 1 == eq;
  }

  /**
    A data field's value ends at the SOH at `end` because its encoding reaches the
    declared byte length there and at no earlier SOH: the SOHs it skipped are
    part of the value.
   */
  predicate DataValueEnds(data: string, eq: nat, end: nat, declared: int, cs: Charset)
    requires eq < end < |data|
  {
    && data[end] == SOH
    && !ShortAt(data, eq, end, declared, cs)
    && forall q {:trigger ShortAt(data, eq, q, declared, cs)} :: eq < q < end && data[q] == SOH ==> ShortAt(data, eq, q, declared, cs)
  }

  /** A data field's value: from '=' to the first SOH at which the encoded value reaches `declared` bytes. */
  function ReadData(data: string, start: nat, eq: nat, tag: int, soh: nat, declared: int, cs: Charset): (r: Extracted)
    requires start < eq < soh < |data| && data[soh] == SOH
    requires data[eq] == '=' && NoneOf(data, '=', start, eq) && NoneOf(data, SOH, eq + 1, soh)
    requires ParseInt(data[start..eq]) == Some(tag)
    ensures r.Failed? || r.Next?
    ensures ReadsUpTo(data, start, soh, tag, r)
    ensures r.Next? ==> DataValueEnds(data, eq, r.cursor.pos - 1, declared, cs)
    ensures r.Failed? ==> forall q {:trigger ShortAt(data, eq, q, declared, cs)} :: eq < q < |data| && data[q] == SOH ==> ShortAt(data, eq, q, declared, cs)
  {
    assert forall q :: eq < q < soh ==> data[q] != SOH;
    ScanDataMeaning(data, eq, soh, declared, cs);
    match ScanData(data, eq, soh, declared, cs)
    case None => Failed(InvalidMessage("SOH not found at end of field"))
    case Some(end) =>
      FramedField(data, start, eq, end, tag);
      Next(Some(Field(tag, data[eq + 1..end])), Cursor(end + 1, None))
  }

  /**
    The SOH ScanData stops at is where the encoded value first reaches
    `declared` bytes; None means it never does.  Every SOH before `soh` is
    already known to be too early.
   */
  lemma {:induction false} ScanDataMeaning(data: string, eq: nat, soh: nat, declared: int, cs: Charset)
    requires eq < soh < |data| && data[soh] == SOH
    requires forall q {:trigger ShortAt(data, eq, q, declared, cs)} :: eq < q < soh && data[q] == SOH ==> ShortAt(data, eq, q, declared, cs)
    ensures var r := ScanData(data, eq, soh, declared, cs);
      && (r.Some? ==> soh <= r.value < |data| && DataValueEnds(data, eq, r.value, declared, cs))
      && (r.None? ==> forall q {:trigger ShortAt(data, eq, q, declared, cs)} :: eq < q < |data| && data[q] == SOH ==> ShortAt(data, eq, q, declared, cs))
    decreases |data| - soh
  {
    LongEnoughIsEncodedLength(data, eq, soh, declared, cs);
    if !LongEnough(data, eq, soh, declared, cs) {
      match IndexOfChar(data, SOH, soh + 1)
      case None =>
      case Some(next) =>
        ScanDataMeaning(data, eq, next, declared, cs);
    }
  }

  /** An ordinary field's value: everything between '=' and the first SOH after it. */
  function ReadPlain(data: string, start: nat, eq: nat, tag: int, soh: nat): (r: Extracted)
    requires start < eq < soh < |data| && data[soh] == SOH
    requires data[eq] == '=' && NoneOf(data, '=', start, eq) && NoneOf(data, SOH, eq + 1, soh)
    requires ParseInt(data[start..eq]) == Some(tag)
    ensures r.Next? && r.field.Some? && r.cursor == Cursor(soh + 1, None)
    ensures r.field.value.tag == tag && Framed(data, start, soh, r.field.value)
    ensures SOH !in r.field.value.value
  {
    FramedField(data, start, eq, soh, tag);
    var v := data[eq + 1..soh];
    assert forall i :: 0 <= i < |v| ==> v[i] == data[eq + 1 + i];
    Next(Some(Field(tag, v)), Cursor(soh + 1, None))
  }

  /**
    A data field: its byte length is read, as an int, from the length field
    already present in `scope`; a missing length field is fatal and an
    unreadable one is a structural violation.
   */
  function DataField(data: string, start: nat, eq: nat, tag: int, soh: nat, scope: FieldMap, cs: Charset): (r: Extracted)
    requires start < eq < soh < |data| && data[soh] == SOH
    requires data[eq] == '=' && NoneOf(data, '=', start, eq) && NoneOf(data, SOH, eq + 1, soh)
    requires ParseInt(data[start..eq]) == Some(tag)
    ensures ReadsUpTo(data, start, soh, tag, r)
    ensures r.Failed? ==> r.error.InvalidMessage?
    ensures r.Rejected? ==> r.exc == FieldException(RejectReasons.IncorrectDataFormatForValue, LengthTag(tag))
    ensures r.Rejected? ==> r.exc.tag in scope.fields && ConvertInt(scope.fields[r.exc.tag]).None?
    ensures LengthTag(tag) !in scope.fields ==> r.Failed?
    ensures r.Next? ==>
      && LengthTag(tag) in scope.fields
      && ConvertInt(scope.fields[LengthTag(tag)]).Some?
      && DataValueEnds(data, eq, r.cursor.pos - 1, ConvertInt(scope.fields[LengthTag(tag)]).value, cs)
    ensures r.Failed? && LengthTag(tag) in scope.fields && ConvertInt(scope.fields[LengthTag(tag)]).Some? ==>
      var declared := ConvertInt(scope.fields[LengthTag(tag)]).value;
      forall q {:trigger ShortAt(data, eq, q, declared, cs)} :: eq < q < |data| && data[q] == SOH ==> ShortAt(data, eq, q, declared, cs)
  {
    var lengthTag := LengthTag(tag);
    if lengthTag !in scope.fields then Failed(InvalidMessage("Length tag not found"))
    else match ConvertInt(scope.fields[lengthTag])
      case None => Rejected(FieldException(RejectReasons.IncorrectDataFormatForValue, lengthTag))
      case Some(declared) => ReadData(data, start, eq, tag, soh, declared, cs)
  }

  /** The rest of extractField once the tag and the first SOH after '=' are known. */
  function Terminate(data: string, start: nat, eq: nat, tag: int, soh: nat,
                     dd: Option<Dict>, scope: FieldMap, cs: Charset): (r: Extracted)
    requires start < eq < soh < |data| && data[soh] == SOH
    requires data[eq] == '=' && NoneOf(data, '=', start, eq) && NoneOf(data, SOH, eq + 1, soh)
    requires ParseInt(data[start..eq]) == Some(tag)
    ensures ReadsUpTo(data, start, soh, tag, r)
    ensures r.Next? && !IsDataField(dd, tag) ==> r.cursor.pos == soh + 1 && SOH !in r.field.value.value
    ensures r.Failed? || r.Rejected? ==> IsDataField(dd, tag)
    ensures r.Failed? ==> r.error.InvalidMessage?
    ensures r.Rejected? ==> r.exc.reason == RejectReasons.IncorrectDataFormatForValue
    ensures r.Rejected? ==> r.exc.tag in scope.fields && ConvertInt(scope.fields[r.exc.tag]).None?
  {
    if IsDataField(dd, tag) then DataField(data, start, eq, tag, soh, scope, cs)
    else ReadPlain(data, start, eq, tag, soh)
  }

  /**
    Reading from `pos` produced `f` and left the cursor at `next`: the field is
    framed between `pos` and the SOH before `next`, and only a data field's value
    may contain SOH.
   */
  predicate ReadFrom(data: string, pos: nat, dd: Option<Dict>, f: Field, next: Cursor) {
    && next.pushedBack.None? && pos + 3 <= next.pos <= |data|
    && Framed(data, pos, next.pos - 1, f)
    && (!IsDataField(dd, f.tag) ==> SOH !in f.value)
  }

  /** The tag of the field starting at `pos`: the number before the first '=' at or after it. */
  function TagAt(data: string, pos: nat): Option<int> {
    match IndexOfChar(data, '=', pos)
    case None => None
    case Some(eq) => ParseInt(data[pos..eq])
  }

  /** A field read from `pos` has the tag TagAt reads there. */
  lemma ReadFromTag(data: string, pos: nat, dd: Option<Dict>, f: Field, next: Cursor)
    requires ReadFrom(data, pos, dd, f, next)
    ensures TagAt(data, pos) == Some(f.tag)
  {
    IndexOfCharFinds(data, '=', pos, next.pos - 1 - |f.value| - 1);
  }

  /** extractField with an empty pushback slot and input left to read. */
  function ExtractAt(data: string, pos: nat, dd: Option<Dict>, scope: FieldMap, cs: Charset): (r: Extracted)
    requires pos < |data|
    ensures r.Next? ==> r.field.Some? && ReadFrom(data, pos, dd, r.field.value, r.cursor)
    ensures r.Rejected? ==> r.exc.tag in scope.fields && ConvertInt(scope.fields[r.exc.tag]).None?
    ensures r.Rejected? ==> r.exc.reason == RejectReasons.IncorrectDataFormatForValue
    ensures r.Failed? ==> r.error.InvalidMessage?
    ensures TagAt(data, pos).None? ==> r.Failed?
    ensures match IndexOfChar(data, '=', pos)
      case None => true
      case Some(eq) => NoneOf(data, SOH, eq + 1, |data|) ==> r.Failed?
    ensures dd.None? ==> !r.Rejected?
    ensures dd.None? && r.Failed? ==>
      || TagAt(data, pos).None?
      || match IndexOfChar(data, '=', pos)
         case None => true
         case Some(eq) => IndexOfChar(data, SOH, eq + 1).None?
  {
    match IndexOfChar(data, '=', pos)
    case None => Failed(InvalidMessage("Equal sign not found in field"))
    case Some(eq) =>
      match ParseInt(data[pos..eq])
      case None => Failed(InvalidMessage("Bad tag format"))
      case Some(tag) =>
        match IndexOfChar(data, SOH, eq + 1)
        case None => Failed(InvalidMessage("SOH not found at end of field"))
        case Some(soh) => Terminate(data, pos, eq, tag, soh, dd, scope, cs)
  }

  /** extractField: the next field of `data`, reading data-field lengths from `scope`. */
  function Extract(data: string, c: Cursor, dd: Option<Dict>, scope: FieldMap, cs: Charset): (r: Extracted)
    ensures c.pushedBack.Some? ==> r == Next(c.pushedBack, Cursor(c.pos, None))
    ensures c.pushedBack.None? && c.pos >= |data| ==> r == Next(None, c)
    ensures r.Next? ==> r.cursor.pushedBack.None?
    ensures r.Next? && r.field.None? ==> r.cursor == c && c.pushedBack.None? && c.pos >= |data|
    ensures r.Next? && r.field.Some? ==> Rank(data, r.cursor) < Rank(data, c)
    ensures r.Next? && r.field.Some? ==> Rank(data, PushBack(r.cursor, r.field)) <= Rank(data, c)
    ensures r.Next? && r.field.Some? && c.pushedBack.None? ==> ReadFrom(data, c.pos, dd, r.field.value, r.cursor)
    ensures r.Rejected? ==> r.exc.tag in scope.fields && ConvertInt(scope.fields[r.exc.tag]).None?
    ensures r.Failed? || r.Rejected? ==> c.pushedBack.None? && c.pos < |data|
    ensures r.Rejected? ==> r.exc.reason == RejectReasons.IncorrectDataFormatForValue
    ensures r.Failed? ==> r.error.InvalidMessage?
    ensures c.pushedBack.None? && c.pos < |data| && TagAt(data, c.pos).None? ==> r.Failed?
    ensures c.pushedBack.None? && c.pos < |data| ==>
      match IndexOfChar(data, '=', c.pos)
      case None => true
      case Some(eq) => NoneOf(data, SOH, eq + 1, |data|) ==> r.Failed?
  {
    if c.pushedBack.Some? then Next(c.pushedBack, Cursor(c.pos, None))
    else if c.pos >= |data| then Next(None, c)
    else ExtractAt(data, c.pos, dd, scope, cs)
  }

  /** A field extracted from an empty pushback slot carries the tag written at the cursor. */
  lemma ExtractTag(data: string, c: Cursor, dd: Option<Dict>, scope: FieldMap, cs: Charset)
    ensures var r := Extract(data, c, dd, scope, cs);
      r.Next? && r.field.Some? && c.pushedBack.None? ==> TagAt(data, c.pos) == Some(r.field.value.tag)
  {
    var r := Extract(data, c, dd, scope, cs);
    if r.Next? && r.field.Some? && c.pushedBack.None? {
      ReadFromTag(data, c.pos, dd, r.field.value, r.cursor);
    }
  }
}
