/**
  A parsed message and the top-level parse: header (with the validated
  BeginString/BodyLength/MsgType preamble), body, trailer, then the CheckSum
  check.  A structural violation is kept as the message's single deferred
  exception together with whatever had been parsed; InvalidMessage and the
  NumInGroup NumberFormatException escape and leave no message.
 */
module Messages {
  import opened Optional
  import opened JavaText
  import opened CharsetSupport
  import opened FieldMaps
  import opened FieldTags
  import opened Classification
  import opened Tokenizer
  import opened GroupParser
  import opened Phases
  import opened WireLookup
  import RejectReasons

  /** A message: its three sections and the first structural violation met while parsing it. */
  datatype Message = Message(header: FieldMap, body: FieldMap, trailer: FieldMap, exception: Option<FieldException>)

  /** The result of parsing: a fatal error that escapes, or the message, possibly carrying a deferred exception. */
  datatype ParseResult = Failure(error: ParseError) | Success(msg: Message)

  /** With validation on, the first three fields must be these, in this order. */
  const PreambleTags: seq<int> := [BeginString, BodyLength, MsgType]

  /** The validated preamble when validating; otherwise nothing is read before the header loop. */
  function Opening(data: string, dd: Option<Dict>, doValidation: bool, cs: Charset): (r: Outcome<FieldMap>)
    ensures r.Done? ==> Rank(data, r.cursor) <= Rank(data, Start) && AddsHeaderFields(Empty, r.value, dd)
    ensures r.Stopped? ==> AddsHeaderFields(Empty, r.partial, dd) && GroupReason(r.exc)
    ensures r.Done? && doValidation ==>
      && BeginString in r.value.fields && BodyLength in r.value.fields && MsgType in r.value.fields
      && |data| >= 9
    ensures doValidation && |data| > 0 && TagAt(data, 0) != Some(BeginString) ==> r.Fatal? && r.error.InvalidMessage?
    ensures doValidation && |data| == 0 ==> r.Fatal? && r.error.InvalidMessage?
  {
    if doValidation then
      assert |PreambleTags| == 3 && PreambleTags[0] == BeginString;
      var r := Preamble(data, Start, dd, Empty, PreambleTags, cs);
      assert r.Done? ==> AddsHeaderFields(Empty, r.value, dd) by {
        assert r.Done? ==> forall t :: t in r.value.fields ==> t in PreambleTags;
      }
      assert r.Stopped? ==> AddsHeaderFields(Empty, r.partial, dd) by {
        assert r.Stopped? ==> forall t :: t in r.partial.fields ==> t in PreambleTags;
      }
      r
    else Done(Empty, Start)
  }

  /**
    parseHeader: the validated preamble, then the header loop, starting from the
    beginning of the input with an empty header.
   */
  function ParseHeader(data: string, dd: Option<Dict>, doValidation: bool, cs: Charset): (r: Outcome<FieldMap>)
    ensures r.Done? ==> Rank(data, r.cursor) <= Rank(data, Start)
    ensures r.Done? ==>
      || (r.cursor.pushedBack.None? && r.cursor.pos >= |data|)
      || (r.cursor.pushedBack.Some? && !IsHeaderField(r.cursor.pushedBack.value.tag, dd))
    ensures r.Done? ==> AddsHeaderFields(Empty, r.value, dd)
    ensures r.Stopped? ==> AddsHeaderFields(Empty, r.partial, dd) && GroupReason(r.exc)
    ensures r.Done? && doValidation ==>
      && BeginString in r.value.fields && BodyLength in r.value.fields && MsgType in r.value.fields
      && |data| >= 9
    ensures doValidation && |data| > 0 && TagAt(data, 0) != Some(BeginString) ==> r.Fatal? && r.error.InvalidMessage?
    ensures doValidation && |data| == 0 ==> r.Fatal? && r.error.InvalidMessage?
  {
    match Opening(data, dd, doValidation, cs)
    case Fatal(e) => Fatal(e)
    case Stopped(h, exc) => Stopped(h, exc)
    case Done(h, c) =>
      var r := HeaderLoop(data, c, dd, h, cs);
      assert r.Done? ==> AddsHeaderFields(Empty, r.value, dd) by {
        if r.Done? { AddsHeaderFieldsTrans(Empty, h, r.value, dd); }
      }
      assert r.Stopped? ==> AddsHeaderFields(Empty, r.partial, dd) by {
        if r.Stopped? { AddsHeaderFieldsTrans(Empty, h, r.partial, dd); }
      }
      r
  }

  /** A validated header that completed was opened by BeginString, BodyLength and MsgType, in this order. */
  lemma HeaderOpensWithPreamble(data: string, dd: Option<Dict>, cs: Charset)
    ensures ParseHeader(data, dd, true, cs).Done? ==> OpensWith(data, 0, dd, PreambleTags)
  {
    var pre := Preamble(data, Start, dd, Empty, PreambleTags, cs);
    if pre.Done? {
      PreambleStoresRead(data, Start, dd, Empty, PreambleTags, cs);
      StoresReadOpens(data, 0, dd, PreambleTags, pre.value.fields);
    }
  }

  /** The outcome of validateCheckSum. */
  datatype CheckSumVerdict = Matches | Mismatch(error: ParseError) | BadFormat(exc: FieldException)

  /**
    validateCheckSum: the trailer's CheckSum <10>, read as an int, must equal the
    checksum of the whole input; a missing or different value is InvalidMessage,
    a value that is not a number is a deferred exception.
   */
  function ValidateCheckSum(data: string, trailer: FieldMap, cs: Charset): (r: CheckSumVerdict)
    ensures r.Matches? <==> CheckSum in trailer.fields && ConvertInt(trailer.fields[CheckSum]) == Some(ChecksumOfMessage(cs, data))
    ensures r.Mismatch? <==>
      CheckSum !in trailer.fields || (ConvertInt(trailer.fields[CheckSum]).Some? && ConvertInt(trailer.fields[CheckSum]) != Some(ChecksumOfMessage(cs, data)))
    ensures r.Mismatch? ==> r.error.InvalidMessage?
    ensures r.BadFormat? ==> r.exc == FieldException(RejectReasons.IncorrectDataFormatForValue, CheckSum)
  {
    if CheckSum !in trailer.fields then Mismatch(InvalidMessage("Field not found: 10"))
    else match ConvertInt(trailer.fields[CheckSum])
      case None => BadFormat(FieldException(RejectReasons.IncorrectDataFormatForValue, CheckSum))
      case Some(v) => if v != ChecksumOfMessage(cs, data) then Mismatch(InvalidMessage("Expected CheckSum")) else Matches
  }

  /** Which tags each section may hold after parsing. */
  predicate SectionsClassified(m: Message, sessionDD: Option<Dict>) {
    && AddsHeaderFields(Empty, m.header, sessionDD)
    && AddsBodyTags(Empty, m.body)
    && AddsTrailerFields(Empty, m.trailer, sessionDD)
  }

  /** The codes a deferred exception can carry. */
  predicate ParseReason(exc: FieldException) {
    BodyReason(exc)
  }

  /** The three section phases of parse, without the CheckSum check. */
  function ParseSections(data: string, sessionDD: Option<Dict>, appDD: Option<Dict>, doValidation: bool, cs: Charset): (r: ParseResult)
    ensures r.Success? ==> SectionsClassified(r.msg, sessionDD)
    ensures r.Success? && r.msg.exception.Some? ==> ParseReason(r.msg.exception.value)
    ensures r.Success? && r.msg.exception.None? && doValidation ==>
      && BeginString in r.msg.header.fields && BodyLength in r.msg.header.fields && MsgType in r.msg.header.fields
      && |data| >= 9
    ensures doValidation && |data| > 0 && TagAt(data, 0) != Some(BeginString) ==> r.Failure? && r.error.InvalidMessage?
  {
    match ParseHeader(data, sessionDD, doValidation, cs)
    case Fatal(e) => Failure(e)
    case Stopped(h, exc) => Success(Message(h, Empty, Empty, Some(exc)))
    case Done(h, c1) =>
      match BodyLoop(data, c1, appDD, doValidation, Parts(h, Empty), cs)
      case Fatal(e) => Failure(e)
      case Stopped(p, exc) => Success(Message(p.header, p.body, Empty, Some(exc)))
      case Done(p, c2) =>
        match TrailerLoop(data, c2, sessionDD, Empty, cs)
        case Fatal(e) => Failure(e)
        case Stopped(t, exc) => Success(Message(p.header, p.body, t, Some(exc)))
        case Done(t, _) => Success(Message(p.header, p.body, t, None))
  }

  /** An input of nine characters or more encodes to enough bytes for the unguarded CheckSum code. */
  lemma ChecksumDefinedFromNine(cs: Charset, data: string)
    requires |data| >= 9
    ensures ChecksumAsWritten(cs, data, true) == Some(ChecksumOfMessage(cs, data))
  {
    assert |cs.encode(data)| >= |data|;
  }

  /**
    parse: the section phases, then, only when validating and no structural
    violation was met, the CheckSum check.
   */
  function Parse(data: string, sessionDD: Option<Dict>, appDD: Option<Dict>, doValidation: bool, cs: Charset): (r: ParseResult)
    ensures var s := ParseSections(data, sessionDD, appDD, doValidation, cs);
      && (!doValidation ==> r == s)
      && (s.Failure? ==> r == s)
      && (s.Success? && s.msg.exception.Some? ==> r == s)
      && (s.Success? && s.msg.exception.None? && doValidation ==>
            match ValidateCheckSum(data, s.msg.trailer, cs)
            case Matches => r == s
            case Mismatch(e) => r == Failure(e)
            case BadFormat(exc) => r == Success(s.msg.(exception := Some(exc))))
    ensures r.Success? ==> SectionsClassified(r.msg, sessionDD)
    ensures r.Success? && r.msg.exception.Some? ==> ParseReason(r.msg.exception.value)
    ensures r.Success? && r.msg.exception.None? && doValidation ==>
      && CheckSum in r.msg.trailer.fields
      && ConvertInt(r.msg.trailer.fields[CheckSum]) == Some(ChecksumOfMessage(cs, data))
      && ChecksumAsWritten(cs, data, true) == Some(ChecksumOfMessage(cs, data))
  {
    var s := ParseSections(data, sessionDD, appDD, doValidation, cs);
    if !doValidation || s.Failure? || s.msg.exception.Some? then s
    else
      match ValidateCheckSum(data, s.msg.trailer, cs)
      case Matches =>
        ChecksumDefinedFromNine(cs, data);
        s
      case Mismatch(e) => Failure(e)
      case BadFormat(exc) => Success(s.msg.(exception := Some(exc)))
  }

  /**
    fromString with a session and an application dictionary: a message whose raw
    MsgType the session dictionary lists as administrative is parsed against the
    session dictionary alone.  A missing MsgType is InvalidMessage.
   */
  function FromString(data: string, sessionDD: Dict, appDD: Dict, doValidation: bool, cs: Charset): (r: ParseResult)
    ensures GetMessageType(data).Missing? ==> r == Failure(GetMessageType(data).error)
    ensures GetMessageType(data).Found? && GetMessageType(data).msgType in sessionDD.adminTypes ==>
      r == Parse(data, Some(sessionDD), Some(sessionDD), doValidation, cs)
    ensures GetMessageType(data).Found? && GetMessageType(data).msgType !in sessionDD.adminTypes ==>
      r == Parse(data, Some(sessionDD), Some(appDD), doValidation, cs)
  {
    match GetMessageType(data)
    case Missing(e) => Failure(e)
    case Found(msgType) =>
      var app := if msgType in sessionDD.adminTypes then sessionDD else appDD;
      Parse(data, Some(sessionDD), Some(app), doValidation, cs)
  }

  /** isAdmin: the header's MsgType is one of the session-level types. */
  function IsAdmin(m: Message): (r: bool)
    ensures r <==> MsgType in m.header.fields && m.header.fields[MsgType] in {"0", "A", "1", "2", "3", "4", "5"}
  {
    MsgType in m.header.fields && IsAdminMessage(m.header.fields[MsgType])
  }
}
