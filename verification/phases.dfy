/**
  The three section loops of the parser.  Each reads fields until the first one
  that belongs to a later section, which it pushes back; header and trailer
  inserts overwrite silently, body-phase inserts refuse a tag that is already
  set.  Header fields are classified with the dictionary's help, the body with
  the fixed tag sets only.
 */
module Phases {
  import opened Optional
  import opened JavaText
  import opened CharsetSupport
  import opened FieldMaps
  import opened FieldTags
  import opened Classification
  import opened Tokenizer
  import opened GroupParser
  import RejectReasons

  /** The header and body maps the body phase writes to. */
  datatype Parts = Parts(header: FieldMap, body: FieldMap)

  /** `n` keeps every field of `o` with its value. */
  predicate KeepsFields(o: FieldMap, n: FieldMap) {
    forall t :: t in o.fields ==> t in n.fields && n.fields[t] == o.fields[t]
  }

  /** Every field `n` has beyond `o` is a header field. */
  predicate AddsHeaderFields(o: FieldMap, n: FieldMap, dd: Option<Dict>) {
    forall t :: t in n.fields && t !in o.fields ==> IsHeaderField(t, dd)
  }

  /** Header fields added in two steps were added as header fields. */
  lemma AddsHeaderFieldsTrans(a: FieldMap, b: FieldMap, c: FieldMap, dd: Option<Dict>)
    requires a.fields.Keys <= b.fields.Keys
    requires AddsHeaderFields(a, b, dd) && AddsHeaderFields(b, c, dd)
    ensures AddsHeaderFields(a, c, dd)
  {
  }

  /** Every field `n` has beyond `o` is one of the built-in header tags. */
  predicate AddsHeaderTags(o: FieldMap, n: FieldMap) {
    forall t :: t in n.fields && t !in o.fields ==> IsHeaderTag(t)
  }

  /** Every field `n` has beyond `o` is outside the built-in header and trailer tags. */
  predicate AddsBodyTags(o: FieldMap, n: FieldMap) {
    forall t :: t in n.fields && t !in o.fields ==> !IsHeaderTag(t) && !IsTrailerTag(t)
  }

  /** Every field `n` has beyond `o` is a trailer field. */
  predicate AddsTrailerFields(o: FieldMap, n: FieldMap, dd: Option<Dict>) {
    forall t :: t in n.fields && t !in o.fields ==> IsTrailerField(t, dd)
  }

  /** A parsed group leaves the parent's fields as they were, plus its count field. */
  lemma GroupFields(data: string, c: Cursor, msgType: string, f: Field, dd: Dict, parent: FieldMap, cs: Charset)
    requires IsGroup(dd, msgType, f.tag)
    ensures var r := ParseGroup(data, c, msgType, f, dd, parent, cs);
      && (r.Done? ==> r.value.fields == parent.fields[f.tag := f.value])
      && (r.Stopped? ==> r.partial.fields == parent.fields[f.tag := f.value])
  {
  }

  /**
    The fields read one after another from `pos` carry `tags` in that order, and
    each is held in `m` with the value read, unless a later field of the run
    repeats its tag.
   */
  ghost predicate StoresRead(data: string, pos: nat, dd: Option<Dict>, tags: seq<int>, m: map<int, string>)
    decreases |tags|
  {
    || |tags| == 0
    || exists f: Field, next: Cursor {:trigger ReadFrom(data, pos, dd, f, next)} ::
         && ReadFrom(data, pos, dd, f, next) && f.tag == tags[0]
         && (tags[0] in tags[1..] || (tags[0] in m && m[tags[0]] == f.value))
         && StoresRead(data, next.pos, dd, tags[1..], m)
  }

  /** The fields read one after another from `pos` carry `tags` in that order. */
  ghost predicate OpensWith(data: string, pos: nat, dd: Option<Dict>, tags: seq<int>)
    decreases |tags|
  {
    || |tags| == 0
    || exists f: Field, next: Cursor {:trigger ReadFrom(data, pos, dd, f, next)} ::
         ReadFrom(data, pos, dd, f, next) && f.tag == tags[0] && OpensWith(data, next.pos, dd, tags[1..])
  }

  lemma {:induction false} StoresReadOpens(data: string, pos: nat, dd: Option<Dict>, tags: seq<int>, m: map<int, string>)
    requires StoresRead(data, pos, dd, tags, m)
    ensures OpensWith(data, pos, dd, tags)
    decreases |tags|
  {
    if |tags| > 0 {
      var f: Field, next: Cursor :| ReadFrom(data, pos, dd, f, next) && f.tag == tags[0]
                                     && StoresRead(data, next.pos, dd, tags[1..], m);
      StoresReadOpens(data, next.pos, dd, tags[1..], m);
    }
  }

  /** One more field read in front of a stored run extends it. */
  lemma StoresReadStep(data: string, pos: nat, dd: Option<Dict>, f: Field, next: Cursor, tags: seq<int>, m: map<int, string>)
    requires |tags| > 0 && ReadFrom(data, pos, dd, f, next) && f.tag == tags[0]
    requires tags[0] in tags[1..] || (tags[0] in m && m[tags[0]] == f.value)
    requires StoresRead(data, next.pos, dd, tags[1..], m)
    ensures StoresRead(data, pos, dd, tags, m)
  {
  }

  /**
    isNextField, applied to each tag of `expected` in turn: every field read must
    carry the next expected tag, and is stored in the header.  The first mismatch,
    or the end of the input, is a fatal out-of-order preamble.
   */
  function Preamble(data: string, c: Cursor, dd: Option<Dict>, header: FieldMap, expected: seq<int>, cs: Charset): (r: Outcome<FieldMap>)
    ensures r.Done? ==> forall t :: t in expected ==> t in r.value.fields
    ensures r.Done? ==> r.value.fields.Keys == header.fields.Keys + set t | t in expected
    ensures r.Done? ==> r.value.groups == header.groups && r.value.counts == header.counts
    ensures r.Done? ==> Rank(data, r.cursor) <= Rank(data, c)
    ensures r.Done? && |expected| > 0 && c.pos <= |data| ==> r.cursor.pushedBack.None? && r.cursor.pos <= |data|
    ensures r.Done? && c.pushedBack.None? ==> r.cursor.pos >= c.pos + 3 * |expected|
    ensures r.Stopped? ==> r.exc.tag in r.partial.fields && ConvertInt(r.partial.fields[r.exc.tag]).None?
    ensures r.Stopped? ==> r.partial.fields.Keys <= header.fields.Keys + set t | t in expected
    ensures r.Stopped? ==> r.exc.reason == RejectReasons.IncorrectDataFormatForValue
    ensures |expected| > 0 && c.pushedBack.None? && c.pos < |data| && TagAt(data, c.pos) != Some(expected[0])
            && (forall t :: t in header.fields ==> ConvertInt(header.fields[t]).Some?) ==>
              r.Fatal? && r.error.InvalidMessage?
    ensures var e := Extract(data, c, dd, header, cs);
      |expected| > 0 && e.Next? && (e.field.None? || e.field.value.tag != expected[0]) ==> r.Fatal? && r.error.InvalidMessage?
    ensures |expected| > 0 && c.pushedBack.None? && c.pos >= |data| ==> r.Fatal? && r.error.InvalidMessage?
    decreases |expected|
  {
    ExtractTag(data, c, dd, header, cs);
    if |expected| == 0 then Done(header, c)
    else match Extract(data, c, dd, header, cs)
      case Failed(e) => Fatal(e)
      case Rejected(exc) => Stopped(header, exc)
      case Next(None, _) => Fatal(InvalidMessage("Header fields out of order"))
      case Next(Some(f), next) =>
        if f.tag != expected[0] then Fatal(InvalidMessage("Header fields out of order"))
        else
          var r := Preamble(data, next, dd, Set(header, f), expected[1..], cs);
          assert forall t :: t in expected <==> t == expected[0] || t in expected[1..];
          r
  }

  /** The finished or stopped map holds `tag`. */
  predicate Holds(r: Outcome<FieldMap>, tag: int) {
    && (r.Done? ==> tag in r.value.fields)
    && (r.Stopped? ==> tag in r.partial.fields)
  }

  /** A completed preamble leaves the header's fields outside `expected` as they were. */
  lemma {:induction false} PreambleKeeps(data: string, c: Cursor, dd: Option<Dict>, header: FieldMap, expected: seq<int>, cs: Charset)
    ensures var r := Preamble(data, c, dd, header, expected, cs);
      r.Done? ==> forall t :: t in header.fields && t !in expected ==> r.value.fields[t] == header.fields[t]
    decreases |expected|
  {
    var r := Preamble(data, c, dd, header, expected, cs);
    if |expected| > 0 && r.Done? {
      var e := Extract(data, c, dd, header, cs);
      PreambleKeeps(data, e.cursor, dd, Set(header, e.field.value), expected[1..], cs);
    }
  }

  /**
    A completed preamble read the expected tags, in order, from where it started,
    and holds each with the value read.
   */
  lemma {:induction false} PreambleStoresRead(data: string, c: Cursor, dd: Option<Dict>, header: FieldMap, expected: seq<int>, cs: Charset)
    ensures var r := Preamble(data, c, dd, header, expected, cs);
      r.Done? && c.pushedBack.None? ==> StoresRead(data, c.pos, dd, expected, r.value.fields)
    decreases |expected|
  {
    var r := Preamble(data, c, dd, header, expected, cs);
    if |expected| > 0 && r.Done? && c.pushedBack.None? {
      var e := Extract(data, c, dd, header, cs);
      var f, next := e.field.value, e.cursor;
      PreambleStoresRead(data, next, dd, Set(header, f), expected[1..], cs);
      PreambleKeeps(data, next, dd, Set(header, f), expected[1..], cs);
      StoresReadStep(data, c.pos, dd, f, next, expected, r.value.fields);
    }
  }

  /**
    The header loop: header fields (built in, or declared by the dictionary) are
    stored with the unchecked insert, a header group is parsed in place, and the
    first other field is pushed back.
   */
  function HeaderLoop(data: string, c: Cursor, dd: Option<Dict>, header: FieldMap, cs: Charset): (r: Outcome<FieldMap>)
    ensures r.Done? ==> Rank(data, r.cursor) <= Rank(data, c)
    ensures r.Done? ==>
      || (r.cursor.pushedBack.None? && r.cursor.pos >= |data|)
      || (r.cursor.pushedBack.Some? && !IsHeaderField(r.cursor.pushedBack.value.tag, dd))
    ensures r.Done? ==> header.fields.Keys <= r.value.fields.Keys && AddsHeaderFields(header, r.value, dd)
    ensures r.Stopped? ==> header.fields.Keys <= r.partial.fields.Keys && AddsHeaderFields(header, r.partial, dd)
    ensures r.Stopped? ==> GroupReason(r.exc)
    ensures var e := Extract(data, c, dd, header, cs);
      && (e.Next? && e.field.None? ==> r == Done(header, e.cursor))
      && (e.Next? && e.field.Some? && !IsHeaderField(e.field.value.tag, dd) ==> r == Done(header, PushBack(e.cursor, e.field)))
      && (e.Next? && e.field.Some? && IsHeaderField(e.field.value.tag, dd) ==> Holds(r, e.field.value.tag))
    decreases Rank(data, c)
  {
    match Extract(data, c, dd, header, cs)
    case Failed(e) => Fatal(e)
    case Rejected(exc) => Stopped(header, exc)
    case Next(None, next) => Done(header, next)
    case Next(Some(f), next) =>
      if IsHeaderField(f.tag, dd) then
        var h := Set(header, f);
        if dd.Some? && IsGroup(dd.value, HeaderId, f.tag) then
          GroupFields(data, next, HeaderId, f, dd.value, h, cs);
          match ParseGroup(data, next, HeaderId, f, dd.value, h, cs)
          case Fatal(e) => Fatal(e)
          case Stopped(p, exc) => Stopped(p, exc)
          case Done(h2, after) => HeaderLoop(data, after, dd, h2, cs)
        else HeaderLoop(data, next, dd, h, cs)
      else Done(header, PushBack(next, Some(f)))
  }

  /** Body and header are kept: nothing is overwritten, and body tags are outside the fixed header and trailer sets. */
  predicate BodyGrowth(before: Parts, after: Parts) {
    && KeepsFields(before.header, after.header) && KeepsFields(before.body, after.body)
    && AddsHeaderTags(before.header, after.header)
    && AddsBodyTags(before.body, after.body)
  }

  /** The reasons the body phase can raise. */
  predicate BodyReason(exc: FieldException) {
    || GroupReason(exc)
    || exc.reason == RejectReasons.TagAppearsMoreThanOnce
    || exc.reason == RejectReasons.TagSpecifiedOutOfRequiredOrder
  }

  /** The msgType getMsgType reads from the header, if it is there. */
  function MsgTypeOf(header: FieldMap): Option<string> {
    if MsgType in header.fields then Some(header.fields[MsgType]) else None
  }

  /**
    What the body phase guarantees about its result: where it stopped, that it
    only added fields (header tags to the header, other tags to the body), and
    what a violation it raised means.
   */
  predicate BodyResult(data: string, c: Cursor, dd: Option<Dict>, doValidation: bool, parts: Parts, r: Outcome<Parts>) {
    && (r.Done? ==> Rank(data, r.cursor) <= Rank(data, c))
    && (r.Done? ==>
          || (r.cursor.pushedBack.None? && r.cursor.pos >= |data|)
          || (r.cursor.pushedBack.Some? && IsTrailerTag(r.cursor.pushedBack.value.tag)))
    && (r.Done? ==> BodyGrowth(parts, r.value))
    && (r.Stopped? ==> BodyGrowth(parts, r.partial) && BodyReason(r.exc))
    && (r.Stopped? && r.exc.reason == RejectReasons.TagAppearsMoreThanOnce ==>
          r.exc.tag in r.partial.header.fields || r.exc.tag in r.partial.body.fields)
    && (r.Stopped? && r.exc.reason == RejectReasons.TagSpecifiedOutOfRequiredOrder ==>
          && doValidation && dd.Some? && dd.value.checkFieldsOutOfOrder
          && IsHeaderTag(r.exc.tag) && r.exc.tag in r.partial.header.fields)
  }

  /** The finished or stopped header holds `f` with its value. */
  predicate InHeader(r: Outcome<Parts>, f: Field) {
    && (r.Done? ==> f.tag in r.value.header.fields && r.value.header.fields[f.tag] == f.value)
    && (r.Stopped? ==> f.tag in r.partial.header.fields && r.partial.header.fields[f.tag] == f.value)
  }

  /** The finished or stopped body holds `f` with its value. */
  predicate InBody(r: Outcome<Parts>, f: Field) {
    && (r.Done? ==> f.tag in r.value.body.fields && r.value.body.fields[f.tag] == f.value)
    && (r.Stopped? ==> f.tag in r.partial.body.fields && r.partial.body.fields[f.tag] == f.value)
  }

  /** BodyGrowth composes. */
  lemma BodyGrowthTrans(a: Parts, b: Parts, c: Parts)
    requires BodyGrowth(a, b) && BodyGrowth(b, c)
    ensures BodyGrowth(a, c)
  {
  }

  /**
    The body loop.  A fixed-set trailer tag is pushed back and ends the body; a
    fixed-set header tag goes to the header (code 13 if already there), has its
    header group parsed, and is refused with code 14 when validating against a
    dictionary that checks field order; any other tag goes to the body (code 13
    if already there) and has its group parsed under the message type.
   */
  function BodyLoop(data: string, c: Cursor, dd: Option<Dict>, doValidation: bool, parts: Parts, cs: Charset): (r: Outcome<Parts>)
    ensures BodyResult(data, c, dd, doValidation, parts, r)
    ensures var e := Extract(data, c, dd, parts.body, cs);
      && (e.Next? && e.field.None? ==> r == Done(parts, e.cursor))
      && (e.Next? && e.field.Some? && IsTrailerTag(e.field.value.tag) ==> r == Done(parts, PushBack(e.cursor, e.field)))
      && (e.Next? && e.field.Some? && !IsTrailerTag(e.field.value.tag) && IsHeaderTag(e.field.value.tag) ==>
            && (IsSet(parts.header, e.field.value.tag) ==>
                  r == Stopped(parts, FieldException(RejectReasons.TagAppearsMoreThanOnce, e.field.value.tag)))
            && (!IsSet(parts.header, e.field.value.tag) ==> InHeader(r, e.field.value)))
      && (e.Next? && e.field.Some? && !IsTrailerTag(e.field.value.tag) && !IsHeaderTag(e.field.value.tag) ==>
            && (IsSet(parts.body, e.field.value.tag) ==>
                  r == Stopped(parts, FieldException(RejectReasons.TagAppearsMoreThanOnce, e.field.value.tag)))
            && (!IsSet(parts.body, e.field.value.tag) ==> InBody(r, e.field.value)))
    decreases Rank(data, c), 3
  {
    match Extract(data, c, dd, parts.body, cs)
    case Failed(e) => Fatal(e)
    case Rejected(exc) => Stopped(parts, exc)
    case Next(None, next) => Done(parts, next)
    case Next(Some(f), next) =>
      if IsTrailerTag(f.tag) then Done(parts, PushBack(next, Some(f)))
      else if IsHeaderTag(f.tag) then BodyHeaderField(data, c, next, f, dd, doValidation, parts, cs)
      else BodyField(data, c, next, f, dd, doValidation, parts, cs)
  }

  /** A fixed-set header tag met in the body: stored in the header unless already there. */
  function BodyHeaderField(data: string, c: Cursor, next: Cursor, f: Field, dd: Option<Dict>, doValidation: bool,
                           parts: Parts, cs: Charset): (r: Outcome<Parts>)
    requires IsHeaderTag(f.tag)
    requires Rank(data, next) < Rank(data, c)
    ensures BodyResult(data, c, dd, doValidation, parts, r)
    ensures IsSet(parts.header, f.tag) ==> r == Stopped(parts, FieldException(RejectReasons.TagAppearsMoreThanOnce, f.tag))
    ensures !IsSet(parts.header, f.tag) ==> InHeader(r, f)
    decreases Rank(data, c), 2
  {
    if IsSet(parts.header, f.tag) then
      Stopped(parts, FieldException(RejectReasons.TagAppearsMoreThanOnce, f.tag))
    else
      var stored := Parts(Set(parts.header, f), parts.body);
      if dd.Some? && IsGroup(dd.value, HeaderId, f.tag) then
        BodyHeaderGroup(data, c, next, f, dd, doValidation, parts, stored, cs)
      else
        var r := HeaderFieldOrder(data, c, next, f, dd, doValidation, stored, cs);
        BodyResultTrans(data, c, dd, doValidation, parts, stored, r);
        r
  }

  /** BodyResult relative to a later state carries back to an earlier one that it grew from. */
  lemma BodyResultTrans(data: string, c: Cursor, dd: Option<Dict>, doValidation: bool, a: Parts, b: Parts, r: Outcome<Parts>)
    requires BodyGrowth(a, b)
    requires BodyResult(data, c, dd, doValidation, b, r)
    ensures BodyResult(data, c, dd, doValidation, a, r)
  {
    if r.Done? {
      BodyGrowthTrans(a, b, r.value);
    } else if r.Stopped? {
      BodyGrowthTrans(a, b, r.partial);
    }
  }

  /** A header NumInGroup tag met in the body: its group is parsed into the header. */
  function BodyHeaderGroup(data: string, c: Cursor, next: Cursor, f: Field, dd: Option<Dict>, doValidation: bool,
                           parts: Parts, stored: Parts, cs: Charset): (r: Outcome<Parts>)
    requires IsHeaderTag(f.tag) && !IsSet(parts.header, f.tag)
    requires stored == Parts(Set(parts.header, f), parts.body)
    requires dd.Some? && IsGroup(dd.value, HeaderId, f.tag)
    requires Rank(data, next) < Rank(data, c)
    ensures BodyResult(data, c, dd, doValidation, parts, r)
    ensures InHeader(r, f)
    decreases Rank(data, c), 1
  {
    GroupFields(data, next, HeaderId, f, dd.value, stored.header, cs);
    match ParseGroup(data, next, HeaderId, f, dd.value, stored.header, cs)
    case Fatal(e) => Fatal(e)
    case Stopped(p, exc) => Stopped(Parts(p, parts.body), exc)
    case Done(h, after) =>
      var r := HeaderFieldOrder(data, c, after, f, dd, doValidation, Parts(h, parts.body), cs);
      BodyResultTrans(data, c, dd, doValidation, parts, Parts(h, parts.body), r);
      r
  }

  /** After a header tag was stored from the body: code 14 when validating against a dictionary that checks order. */
  function HeaderFieldOrder(data: string, c: Cursor, after: Cursor, f: Field, dd: Option<Dict>, doValidation: bool,
                            parts: Parts, cs: Charset): (r: Outcome<Parts>)
    requires IsHeaderTag(f.tag) && f.tag in parts.header.fields
    requires Rank(data, after) < Rank(data, c)
    ensures BodyResult(data, c, dd, doValidation, parts, r)
    ensures doValidation && dd.Some? && dd.value.checkFieldsOutOfOrder ==>
      r == Stopped(parts, FieldException(RejectReasons.TagSpecifiedOutOfRequiredOrder, f.tag))
    decreases Rank(data, c), 0
  {
    if doValidation && dd.Some? && dd.value.checkFieldsOutOfOrder then
      Stopped(parts, FieldException(RejectReasons.TagSpecifiedOutOfRequiredOrder, f.tag))
    else BodyLoop(data, after, dd, doValidation, parts, cs)
  }

  /** Any other tag met in the body: stored in the body unless already there. */
  function BodyField(data: string, c: Cursor, next: Cursor, f: Field, dd: Option<Dict>, doValidation: bool,
                     parts: Parts, cs: Charset): (r: Outcome<Parts>)
    requires !IsHeaderTag(f.tag) && !IsTrailerTag(f.tag)
    requires Rank(data, next) < Rank(data, c)
    ensures BodyResult(data, c, dd, doValidation, parts, r)
    ensures IsSet(parts.body, f.tag) ==> r == Stopped(parts, FieldException(RejectReasons.TagAppearsMoreThanOnce, f.tag))
    ensures !IsSet(parts.body, f.tag) && dd.Some? && MsgTypeOf(parts.header).None? ==> r.Fatal?
    ensures !IsSet(parts.body, f.tag) ==> InBody(r, f)
    decreases Rank(data, c), 2
  {
    if IsSet(parts.body, f.tag) then
      Stopped(parts, FieldException(RejectReasons.TagAppearsMoreThanOnce, f.tag))
    else
      var stored := Parts(parts.header, Set(parts.body, f));
      if dd.None? then
        var r := BodyLoop(data, next, dd, doValidation, stored, cs);
        BodyResultTrans(data, c, dd, doValidation, parts, stored, r);
        r
      else match MsgTypeOf(parts.header)
        case None => Fatal(InvalidMessage("Field not found: 35"))
        case Some(msgType) =>
          if IsGroup(dd.value, msgType, f.tag) then BodyGroup(data, c, next, f, msgType, dd, doValidation, parts, stored, cs)
          else
            var r := BodyLoop(data, next, dd, doValidation, stored, cs);
            BodyResultTrans(data, c, dd, doValidation, parts, stored, r);
            r
  }

  /** A body NumInGroup field of the message type: its group is parsed into the body. */
  function BodyGroup(data: string, c: Cursor, next: Cursor, f: Field, msgType: string, dd: Option<Dict>, doValidation: bool,
                     parts: Parts, stored: Parts, cs: Charset): (r: Outcome<Parts>)
    requires !IsHeaderTag(f.tag) && !IsTrailerTag(f.tag)
    requires dd.Some? && IsGroup(dd.value, msgType, f.tag)
    requires !IsSet(parts.body, f.tag) && stored == Parts(parts.header, Set(parts.body, f))
    requires Rank(data, next) < Rank(data, c)
    ensures BodyResult(data, c, dd, doValidation, parts, r)
    ensures InBody(r, f)
    decreases Rank(data, c), 1
  {
    GroupFields(data, next, msgType, f, dd.value, stored.body, cs);
    match ParseGroup(data, next, msgType, f, dd.value, stored.body, cs)
    case Fatal(e) => Fatal(e)
    case Stopped(p, exc) => Stopped(Parts(parts.header, p), exc)
    case Done(b, after) =>
      var r := BodyLoop(data, after, dd, doValidation, Parts(parts.header, b), cs);
      BodyResultTrans(data, c, dd, doValidation, parts, Parts(parts.header, b), r);
      r
  }

  /**
    The trailer loop: every field up to the end of the input must be a trailer
    field (built in or declared by the dictionary) and is stored with the
    unchecked insert; the first other field is refused with code 14.
   */
  function TrailerLoop(data: string, c: Cursor, dd: Option<Dict>, trailer: FieldMap, cs: Charset): (r: Outcome<FieldMap>)
    ensures r.Done? ==> r.cursor.pushedBack.None? && r.cursor.pos >= |data|
    ensures r.Done? ==> trailer.fields.Keys <= r.value.fields.Keys && AddsTrailerFields(trailer, r.value, dd)
    ensures r.Stopped? ==> trailer.fields.Keys <= r.partial.fields.Keys && AddsTrailerFields(trailer, r.partial, dd)
    ensures r.Stopped? ==>
      || r.exc.reason == RejectReasons.IncorrectDataFormatForValue
      || (r.exc.reason == RejectReasons.TagSpecifiedOutOfRequiredOrder && !IsTrailerField(r.exc.tag, dd))
    ensures var e := Extract(data, c, dd, trailer, cs);
      && (e.Next? && e.field.None? ==> r == Done(trailer, e.cursor))
      && (e.Next? && e.field.Some? && !IsTrailerField(e.field.value.tag, dd) ==>
            r == Stopped(trailer, FieldException(RejectReasons.TagSpecifiedOutOfRequiredOrder, e.field.value.tag)))
      && (e.Next? && e.field.Some? && IsTrailerField(e.field.value.tag, dd) ==> Holds(r, e.field.value.tag))
    decreases Rank(data, c)
  {
    match Extract(data, c, dd, trailer, cs)
    case Failed(e) => Fatal(e)
    case Rejected(exc) => Stopped(trailer, exc)
    case Next(None, next) => Done(trailer, next)
    case Next(Some(f), next) =>
      if !IsTrailerField(f.tag, dd) then
        Stopped(trailer, FieldException(RejectReasons.TagSpecifiedOutOfRequiredOrder, f.tag))
      else TrailerLoop(data, next, dd, Set(trailer, f), cs)
  }
}
