/** The fixed tag sets and message-type test the parser classifies with. */
module Classification {
  import opened Optional
  import opened FieldTags
  import opened FieldMaps

  /** isHeaderField(int): the built-in header tags, independent of any dictionary. */
  predicate IsHeaderTag(tag: int) {
    || tag == BeginString || tag == BodyLength || tag == MsgType
    || tag == SenderCompID || tag == TargetCompID || tag == OnBehalfOfCompID || tag == DeliverToCompID
    || tag == SecureDataLen || tag == MsgSeqNum
    || tag == SenderSubID || tag == SenderLocationID || tag == TargetSubID || tag == TargetLocationID
    || tag == OnBehalfOfSubID || tag == OnBehalfOfLocationID || tag == DeliverToSubID || tag == DeliverToLocationID
    || tag == PossDupFlag || tag == PossResend || tag == SendingTime || tag == OrigSendingTime
    || tag == XmlDataLen || tag == XmlData || tag == MessageEncoding || tag == LastMsgSeqNumProcessed
    || tag == OnBehalfOfSendingTime || tag == ApplVerID || tag == CstmApplVerID || tag == NoHops
  }

  /** isTrailerField(int): the built-in trailer tags. */
  predicate IsTrailerTag(tag: int) {
    tag == SignatureLength || tag == Signature || tag == CheckSum
  }

  /** isHeaderField(Field, DataDictionary): built in, or declared a header field by the dictionary. */
  function IsHeaderField(tag: int, dd: Option<Dict>): (r: bool)
    ensures dd.None? ==> (r <==> IsHeaderTag(tag))
    ensures dd.Some? ==> (r <==> IsHeaderTag(tag) || tag in dd.value.headerFields)
  {
    IsHeaderTag(tag) || (dd.Some? && tag in dd.value.headerFields)
  }

  /** isTrailerField(Field, DataDictionary): built in, or declared a trailer field by the dictionary. */
  function IsTrailerField(tag: int, dd: Option<Dict>): (r: bool)
    ensures dd.None? ==> (r <==> IsTrailerTag(tag))
    ensures dd.Some? ==> (r <==> IsTrailerTag(tag) || tag in dd.value.trailerFields)
  {
    IsTrailerTag(tag) || (dd.Some? && tag in dd.value.trailerFields)
  }

  /** The built-in header and trailer tags, as numbers. */
  lemma FixedTagSets(tag: int)
    ensures IsHeaderTag(tag) <==> tag in {8, 9, 35, 49, 56, 115, 128, 90, 34, 50, 142, 57, 143, 116, 144, 129,
                                          145, 43, 97, 52, 122, 212, 213, 347, 369, 370, 1128, 1129, 627}
    ensures IsTrailerTag(tag) <==> tag in {93, 89, 10}
    ensures !(IsHeaderTag(tag) && IsTrailerTag(tag))
  {
  }

  /** The session-level message types: Heartbeat, TestRequest, ResendRequest, Reject, SequenceReset, Logout, Logon. */
  const AdminTypes: string := "0A12345"

  /** isAdminMessage: a one-character message type that is one of the session-level types. */
  function IsAdminMessage(msgType: string): (r: bool)
    ensures r <==> msgType in {"0", "A", "1", "2", "3", "4", "5"}
  {
    if |msgType| != 1 then false
    else
      assert msgType == [msgType[0]];
      msgType[0] in AdminTypes
  }
}
