/**
  The SessionRejectReason <373> catalogue: the reason codes a structural
  violation carries, and the fixed text the session layer puts in a Reject.
 */
module RejectReasons {
  import opened Optional
  import FieldTags

  /** The tag that carries a reject reason. */
  const Field: int := FieldTags.SessionRejectReason

  const InvalidTagNumber: int := 0
  const RequiredTagMissing: int := 1
  const TagNotDefinedForThisMessageType: int := 2
  const UndefinedTag: int := 3
  const TagSpecifiedWithoutAValue: int := 4
  const ValueIsIncorrect: int := 5
  const IncorrectDataFormatForValue: int := 6
  const DecryptionProblem: int := 7
  const SignatureProblem: int := 8
  const CompIDProblem: int := 9
  const SendingTimeAccuracyProblem: int := 10
  const InvalidMsgType: int := 11
  const XmlValidationError: int := 12
  const TagAppearsMoreThanOnce: int := 13
  const TagSpecifiedOutOfRequiredOrder: int := 14
  const RepeatingGroupFieldsOutOfOrder: int := 15
  const IncorrectNumInGroupCountForRepeatingGroup: int := 16
  const NonDataValueIncludesFieldDelimiter: int := 17
  const InvalidUnsupportedApplicationVersion: int := 18
  const Other: int := 99

  /** Every declared reason code, in declaration order. */
  const Codes: seq<int> := [
    InvalidTagNumber, RequiredTagMissing, TagNotDefinedForThisMessageType, UndefinedTag,
    TagSpecifiedWithoutAValue, ValueIsIncorrect, IncorrectDataFormatForValue, DecryptionProblem,
    SignatureProblem, CompIDProblem, SendingTimeAccuracyProblem, InvalidMsgType, XmlValidationError,
    TagAppearsMoreThanOnce, TagSpecifiedOutOfRequiredOrder, RepeatingGroupFieldsOutOfOrder,
    IncorrectNumInGroupCountForRepeatingGroup, NonDataValueIncludesFieldDelimiter,
    InvalidUnsupportedApplicationVersion, Other]

  /** The text table; XmlValidationError (12) is declared but given no entry. */
  const Texts: map<int, string> := map[
    InvalidTagNumber := "Invalid tag number",
    RequiredTagMissing := "Required tag missing",
    TagNotDefinedForThisMessageType := "Tag not defined for this message type",
    UndefinedTag := "Undefined Tag",
    TagSpecifiedWithoutAValue := "Tag specified without a value",
    ValueIsIncorrect := "Value is incorrect (out of range) for this tag",
    IncorrectDataFormatForValue := "Incorrect data format for value",
    DecryptionProblem := "Decryption problem",
    SignatureProblem := "Signature problem",
    CompIDProblem := "CompID problem",
    SendingTimeAccuracyProblem := "SendingTime accuracy problem",
    InvalidMsgType := "Invalid MsgType",
    TagAppearsMoreThanOnce := "Tag appears more than once",
    TagSpecifiedOutOfRequiredOrder := "Tag specified out of required order",
    IncorrectNumInGroupCountForRepeatingGroup := "Incorrect NumInGroup count for repeating group",
    RepeatingGroupFieldsOutOfOrder := "Out of order repeating group members"]

  /** getMessage: the fixed text of a reason code, or None (null) when the code has no text. */
  function GetMessage(code: int): (r: Option<string>)
    ensures r.Some? <==> 0 <= code <= 16 && code != XmlValidationError
    ensures code == TagAppearsMoreThanOnce ==> r == Some("Tag appears more than once")
    ensures code == TagSpecifiedOutOfRequiredOrder ==> r == Some("Tag specified out of required order")
    ensures code == RepeatingGroupFieldsOutOfOrder ==> r == Some("Out of order repeating group members")
    ensures code == IncorrectNumInGroupCountForRepeatingGroup ==> r == Some("Incorrect NumInGroup count for repeating group")
    ensures code == IncorrectDataFormatForValue ==> r == Some("Incorrect data format for value")
  {
    if code in Texts then Some(Texts[code]) else None
  }

  /** The declared codes are pairwise distinct, and the reason travels in tag 373. */
  lemma CodesDistinct()
    ensures forall i, j :: 0 <= i < j < |Codes| ==> Codes[i] != Codes[j]
    ensures forall c :: c in Codes <==> 0 <= c <= 18 || c == Other
    ensures Field == FieldTags.SessionRejectReason
  {
  }

  /** Codes 12, 17, 18 and 99 are declared but carry no text. */
  lemma DeclaredWithoutText()
    ensures GetMessage(XmlValidationError).None?
    ensures GetMessage(NonDataValueIncludesFieldDelimiter).None?
    ensures GetMessage(InvalidUnsupportedApplicationVersion).None?
    ensures GetMessage(Other).None?
  {
  }
}
