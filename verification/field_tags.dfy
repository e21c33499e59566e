/** The fixed FIX tag numbers the codec consumes directly, independent of any dictionary. */
module FieldTags {

  const BeginString: int := 8
  const BodyLength: int := 9
  const CheckSum: int := 10

  const MsgSeqNum: int := 34
  const MsgType: int := 35
  const PossDupFlag: int := 43
  const SenderCompID: int := 49
  const SenderSubID: int := 50
  const SendingTime: int := 52
  const TargetCompID: int := 56
  const TargetSubID: int := 57

  const Signature: int := 89
  const SecureDataLen: int := 90
  const SignatureLength: int := 93
  const PossResend: int := 97

  const OnBehalfOfCompID: int := 115
  const OnBehalfOfSubID: int := 116
  const OrigSendingTime: int := 122
  const DeliverToCompID: int := 128
  const DeliverToSubID: int := 129

  const SenderLocationID: int := 142
  const TargetLocationID: int := 143
  const OnBehalfOfLocationID: int := 144
  const DeliverToLocationID: int := 145

  const XmlDataLen: int := 212
  const XmlData: int := 213

  const MessageEncoding: int := 347
  const LastMsgSeqNumProcessed: int := 369
  const OnBehalfOfSendingTime: int := 370
  /** SessionRejectReason; the source declares it twice, once with a misspelt name. */
  const SessionRejectReason: int := 373

  const NoHops: int := 627

  const ApplVerID: int := 1128
  const CstmApplVerID: int := 1129
}
