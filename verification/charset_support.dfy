/**
  Encoding-aware length and CheckSum <10> arithmetic (CharsetSupport).

  The CheckSum of a FIX message is the sum of its bytes up to and including the
  SOH that precedes "10=", modulo 256, written as three digits (FIX 4.2,
  Appendix B, "CheckSum Calculation").  The Java code sums characters directly
  for the two charsets whose bytes equal their characters, and encodes to bytes
  for every other charset.
 */
module CharsetSupport {
  import opened Optional
  import opened JavaText

  type Byte = b: int | 0 <= b < 256

  /** A java.nio Charset: its canonical name and what String.getBytes produces with it. */
  datatype CharsetRec = CharsetRec(name: string, encode: string -> seq<Byte>)

  const Latin1Name: string := "ISO-8859-1"
  const AsciiName: string := "US-ASCII"

  /** ISO-8859-1 encoding: one byte per character, '?' for characters it cannot map. */
  function Latin1Bytes(s: string): (r: seq<Byte>)
    ensures |r| == |s|
  {
    seq(|s|, i requires 0 <= i < |s| => if s[i] as int < 256 then s[i] as int else '?' as int)
  }

  /** US-ASCII encoding: one byte per character, '?' for characters above 127. */
  function AsciiBytes(s: string): (r: seq<Byte>)
    ensures |r| == |s|
  {
    seq(|s|, i requires 0 <= i < |s| => if s[i] as int < 128 then s[i] as int else '?' as int)
  }

  /**
    What the codec assumes of every charset: an encoding never has fewer bytes than
    the string has characters, and the two single-byte charsets encode as Java does.
   */
  ghost predicate Consistent(c: CharsetRec) {
    forall s: string ::
      && |c.encode(s)| >= |s|
      && (c.name == Latin1Name ==> c.encode(s) == Latin1Bytes(s))
      && (c.name == AsciiName ==> c.encode(s) == AsciiBytes(s))
  }

  type Charset = c: CharsetRec | Consistent(c) witness CharsetRec(Latin1Name, Latin1Bytes)

  /** getDefaultCharset. */
  function GetDefaultCharset(): (r: string)
    ensures r == Latin1Name
  {
    "ISO-8859-1"
  }

  /** The charset the codec starts with. */
  const DefaultCharset: Charset := CharsetRec(GetDefaultCharset(), Latin1Bytes)

  /** isStringEquivalent: the charset's bytes are its characters, one byte per character. */
  function IsStringEquivalent(c: Charset): (r: bool)
    ensures r <==> c.name == Latin1Name || c.name == AsciiName
    ensures r ==> forall s: string :: |c.encode(s)| == |s|
    ensures r ==> forall s: string, i :: 0 <= i < |s| && s[i] as int < 128 ==> c.encode(s)[i] == s[i] as int
  {
    c.name == "ISO-8859-1" || c.name == "US-ASCII"
  }

  /** The sum of the character codes of `s`. */
  function SumCodes(s: string): nat {
    if |s| == 0 then 0 else SumCodes(s[..|s| - 1]) + s[|s| - 1] as int
  }

  /** The sum of the unsigned byte values of `b`. */
  function SumBytes(b: seq<Byte>): nat {
    if |b| == 0 then 0 else SumBytes(b[..|b| - 1]) + b[|b| - 1]
  }

  /** SOH followed by "10=": the start of the CheckSum field. */
  const ChecksumMarker: string := [SOH, '1', '0', '=']

  /**
    The string-equivalent path: sum the characters, and for an entire message stop
    after the SOH of the last SOH "10=" when there is one.  `& 0xFF` on the Java
    `int` sum keeps the low eight bits, which is the sum modulo 256 even after a wrap.
   */
  function ChecksumChars(data: string, isEntireMessage: bool): (r: int)
    ensures 0 <= r < 256
    ensures !isEntireMessage ==> r == SumCodes(data) % 256
    ensures (forall i :: 0 <= i < |data| ==> !OccursAt(data, ChecksumMarker, i)) ==> r == SumCodes(data) % 256
  {
    var end := if isEntireMessage then LastIndexOfText(data, ChecksumMarker, |data|) else None;
    var len := if end.Some? then end.value + 1 else |data|;
    assert data[..|data|] == data;
    SumCodes(data[..len]) % 256
  }

  /** The last eight bytes of `b` start with SOH "10=". */
  predicate MarkedTail(b: seq<Byte>)
    requires |b| >= 8
  {
    b[|b| - 8] == 1 && b[|b| - 7] == '1' as int && b[|b| - 6] == '0' as int && b[|b| - 5] == '=' as int
  }

  /**
    The byte path exactly as written: for an entire message it reads bytes[len - 8]
    before knowing there are eight bytes, so a shorter input throws
    ArrayIndexOutOfBoundsException (None here).
   */
  function ChecksumBytesAsWritten(b: seq<Byte>, isEntireMessage: bool): (r: Option<int>)
    ensures r.None? <==> isEntireMessage && |b| < 8
    ensures r.Some? ==> 0 <= r.value < 256
  {
    if isEntireMessage && |b| < 8 then None
    else
      var len := if isEntireMessage && MarkedTail(b) then |b| - 7 else |b|;
      Some(SumBytes(b[..len]) % 256)
  }

  /**
    The byte path with the length test the Java code leaves out: seven trailing bytes
    are dropped exactly when there are at least eight and the last eight start with
    SOH "10="; otherwise every byte is summed.
   */
  function ChecksumBytes(b: seq<Byte>, isEntireMessage: bool): (r: int)
    ensures 0 <= r < 256
    ensures isEntireMessage && |b| >= 8 && MarkedTail(b) ==> r == SumBytes(b[..|b| - 7]) % 256
    ensures !(isEntireMessage && |b| >= 8 && MarkedTail(b)) ==> r == SumBytes(b) % 256
  {
    var len := if isEntireMessage && |b| >= 8 && MarkedTail(b) then |b| - 7 else |b|;
    assert b[..|b|] == b;
    SumBytes(b[..len]) % 256
  }

  /** checksum(Charset, String, boolean), with the short-input guard on the byte path. */
  function Checksum(c: Charset, data: string, isEntireMessage: bool): (r: int)
    ensures 0 <= r < 256
    ensures !isEntireMessage && IsStringEquivalent(c) ==> r == SumCodes(data) % 256
    ensures !isEntireMessage && !IsStringEquivalent(c) ==> r == SumBytes(c.encode(data)) % 256
  {
    if IsStringEquivalent(c) then ChecksumChars(data, isEntireMessage)
    else ChecksumBytes(c.encode(data), isEntireMessage)
  }

  /** checksum(Charset, String, boolean) exactly as written; None is the index exception. */
  function ChecksumAsWritten(c: Charset, data: string, isEntireMessage: bool): (r: Option<int>)
    ensures r.None? <==> !IsStringEquivalent(c) && isEntireMessage && |c.encode(data)| < 8
    ensures r.Some? ==> r.value == Checksum(c, data, isEntireMessage)
  {
    if IsStringEquivalent(c) then Some(ChecksumChars(data, isEntireMessage))
    else ChecksumBytesAsWritten(c.encode(data), isEntireMessage)
  }

  /** checksum(String): the entire-message checksum under the charset currently in force. */
  function ChecksumOfMessage(current: Charset, message: string): (r: int)
    ensures 0 <= r < 256
    ensures IsStringEquivalent(current) ==>
      match LastIndexOfText(message, ChecksumMarker, |message|)
      case None => r == SumCodes(message) % 256
      case Some(k) => k < |message| && r == SumCodes(message[..k + 1]) % 256
    ensures var b := current.encode(message);
      !IsStringEquivalent(current) ==>
        if |b| >= 8 && MarkedTail(b) then r == SumBytes(b[..|b| - 7]) % 256 else r == SumBytes(b) % 256
  {
    Checksum(current, message, true)
  }

  /** length(Charset, String): the number of bytes the string encodes to. */
  function Length(c: Charset, data: string): (r: nat)
    ensures r == |c.encode(data)|
    ensures r >= |data|
    ensures IsStringEquivalent(c) ==> r == |data|
  {
    if IsStringEquivalent(c) then |data| else |c.encode(data)|
  }
}
