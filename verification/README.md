# FIX tag=value codec of QuickFIX/J, modelled in Dafny

This project models the core of the QuickFIX/J message codec, which parses and stamps FIX tag=value messages:

- **Field tokenizer.** `extractField` and `pushBack` read `tag=value SOH` fields from the raw text, using a one-field pushback slot. A dictionary data field may contain SOH. Its end is found from the byte length declared by the length field that precedes it.
- **Section phases.** These are parse, parseHeader, isNextField, parseBody, setField and parseTrailer:
  - With validation on, the first three fields must be BeginString, BodyLength and MsgType.
  - Header and trailer inserts overwrite silently.
  - Body inserts refuse a tag that is already set (reason 13).
  - A header tag met in the body is reason 14 under validation.
  - A non-trailer tag met in the trailer is also reason 14.
- **Repeating-group assembler** (parseGroup):
  - delimiter detection, member fill and nested groups;
  - out-of-order members (reason 15);
  - the fatal "group must set the delimiter" error;
  - the recorded NumInGroup count.
- **CheckSum validation** (validateCheckSum), and the parse entry points `fromString` and `parse`.
- **Classification.** This covers the fixed header and trailer tag sets, the dictionary-aware isHeaderField and isTrailerField, and isAdminMessage and isAdmin.
- **Raw-text lookups** (getStringField, getMessageType). A tag counts only where it starts the text or follows an SOH.
- **reverseRoute and copyField.**
- **The toString stamping of BodyLength <9> and CheckSum <10>.** This uses Java `int` wrap-around, `& 0xFF` and the three-digit format.
- **CharsetSupport.** The model covers checksum (both forms), length, isStringEquivalent and getDefaultCharset.
- **The SessionRejectReason catalogue** (SessionRejectReasonText).

## How the model is built

The parser is a set of pure, mutually recursive functions over an immutable `Cursor`: a position plus the pushback slot.

- Every phase returns an `Outcome`, which takes one of three forms:
  - `Fatal(error)`: an InvalidMessage or NumberFormatException escapes.
  - `Stopped(partial, exc)`: a structural `FieldException` is kept as the message's deferred exception, together with what had been built.
  - `Done(value, cursor)`.
- Termination follows `Rank`, a measure that every extraction lowers.
- A `Charset` is a name plus its encoding function. The only assumption about it is that no encoding has fewer bytes than the string has characters. ISO-8859-1 and US-ASCII encode one byte per character.
- A character here is a Unicode scalar value. Java strings are sequences of UTF-16 code units, so positions, lengths and character sums agree with Java only for text inside the Basic Multilingual Plane; see "Left out".

The files and modules are:

- **Tokenizer**: tokenizer.dfy
- **GroupParser**: groups.dfy
- **Phases**: phases.dfy
- **Messages**: message.dfy
- **PlainParse**: plain_parse.dfy, a reference for a clean parse without dictionaries: the text as a list of framed fields, and each section as the fields of that list with its tags.
- **WireLookup**: wire_lookup.dfy
- **Routing**: routing.dfy
- **Serialization**: serialization.dfy
- **CharsetSupport**, **ChecksumProperties** and **ChecksumFinding**
- **Classification** and **RejectReasons**
- Value types: **FieldMaps**, **FieldTags**, **JavaText** and **Optional**. JavaText holds `Integer.parseInt`, `Integer.toString`, `indexOf`, `lastIndexOf` and `compareTo`.

The code registers no text for XML_VALIDATION_ERROR (12), so `getMessage(12)` is null, although codes 11 and 13 have text.

## Model

| member | source | states |
|---|---|---|
| Tokenizer.Extract | quickfixj-messagebase/src/main/java/quickfix/Message.java:699-761 | A pushed-back field is returned first and empties the slot. A null field means end of input, and the result is null exactly when the slot is empty and the cursor is at or past the end. A field read from the text is framed at the cursor: the tag parses up to the first '=', and the value runs to the terminating SOH. Only a data field's value may contain SOH. A field read lowers the rank, and pushing it back never raises the rank above where it was read. A tag that is missing or not an int is InvalidMessage, and so is an '=' with no SOH after it. Any rejection is reason 6 on a length field whose value is not an int. |
| Tokenizer.ExtractAt | quickfixj-messagebase/src/main/java/quickfix/Message.java:715-761 | From an empty slot, the field is framed from the cursor. A tag that is missing or not an int is InvalidMessage, and so is an '=' with no SOH anywhere after it. Without a dictionary, nothing is rejected, and InvalidMessage means one of those two cases. Rejections are reason 6, and fatal errors are InvalidMessage. |
| Tokenizer.ExtractTag | quickfixj-messagebase/src/main/java/quickfix/Message.java:715-722 | The tag of an extracted field is the integer written before the first '=' at the cursor. |
| Tokenizer.Terminate | quickfixj-messagebase/src/main/java/quickfix/Message.java:733-761 | A non-data field ends at the first SOH after '=', and its value holds no SOH. Only a data field can fail or be rejected. |
| Tokenizer.DataField | quickfixj-messagebase/src/main/java/quickfix/Message.java:733-758 | The length tag is tag-1, or 93 for Signature 89. A missing length field is InvalidMessage. A length that is not an int is reason 6 on the length tag. Otherwise the value ends at the first SOH where its encoding reaches the declared length. Failure means no SOH ever reaches it. |
| Tokenizer.ReadData | quickfixj-messagebase/src/main/java/quickfix/Message.java:747-761 | The value ends at an SOH whose encoded prefix is at least the declared length. Every earlier SOH was too short. With no such SOH the result is InvalidMessage. |
| Tokenizer.ScanDataMeaning | quickfixj-messagebase/src/main/java/quickfix/Message.java:751-757 | The SOH the length loop stops at is the first one at which the encoded value reaches the declared length. A null result means no SOH does. |
| Tokenizer.LongEnoughIsEncodedLength | quickfixj-messagebase/src/main/java/quickfix/Message.java:747-752 | Because no encoding is shorter than its characters, the character-count short cut in the loop condition is the byte-count test. |
| Tokenizer.ReadPlain | quickfixj-messagebase/src/main/java/quickfix/Message.java:728-731 | An ordinary value runs from '=' to the first SOH, contains no SOH, and the cursor moves past that SOH. |
| GroupParser.ParseGroup | quickfixj-messagebase/src/main/java/quickfix/Message.java:552-618 | A count that is not a number is NumberFormatException. Otherwise the count field is set in the parent. Instances are only appended under the count tag, and each is opened by the delimiter. The declared count is recorded. The group ends at the end of input or with a foreign field pushed back. A deferred exception is reason 6 or 15. When the first field after the count is not the delimiter, a nested group tag is InvalidMessage and a member is reason 15 with nothing added but the count field. |
| GroupParser.GroupLoop | quickfixj-messagebase/src/main/java/quickfix/Message.java:565-615 | Each step leaves the parent's fields and counts alone and appends only delimiter-opened instances. The instance that was open is attached with at least its fields. For the next field read: before any delimiter, a nested group tag is InvalidMessage and a member is reason 15. Inside an instance, a member ends up in that instance. A foreign field attaches the open instance and is pushed back. |
| GroupParser.Attach | quickfixj-messagebase/src/main/java/quickfix/Message.java:612-615 | An open instance is appended after the existing instances of its count tag. Without one, the parent is unchanged. |
| GroupParser.Delimited | quickfixj-messagebase/src/main/java/quickfix/Message.java:572-579 | At a delimiter, the instance that was open ends up attached, with at least its fields, before any later one. |
| GroupParser.Reopen | quickfixj-messagebase/src/main/java/quickfix/Message.java:572-583 | After a delimiter, including one that is itself a group tag whose group is parsed first, the parent only gains delimiter-opened instances. The loop ends where a group must end. An ordinary delimiter starts a fresh instance holding only itself, and the member order tracker starts again from -1. |
| GroupParser.Nested | quickfixj-messagebase/src/main/java/quickfix/Message.java:584-589 | After a nested group inside an open instance, that instance still ends up attached, with at least its fields. |
| GroupParser.Member | quickfixj-messagebase/src/main/java/quickfix/Message.java:590-606 | Before the first delimiter, a member is reason 15. With order checking on, a listed member whose position does not come after the previous one's is reason 15. Otherwise the member is stored in the open instance, which ends up attached with at least that field's tag. |
| GroupParser.ExtendsTrans | quickfixj-messagebase/src/main/java/quickfix/Message.java:574-614 | Appending instances in two steps is appending them in one: the old instances remain a prefix. |
| Phases.Preamble | quickfixj-messagebase/src/main/java/quickfix/Message.java:497-504 | At every step, a field that is missing or does not carry the next expected tag is InvalidMessage, and so is reaching the end of input. On success, exactly the expected tags are added, each field is at least three characters long, and the cursor is not pushed back. |
| Phases.PreambleKeeps | quickfixj-messagebase/src/main/java/quickfix/Message.java:497-504 | A completed preamble leaves the fields outside the expected tags as they were. |
| Phases.PreambleStoresRead | quickfixj-messagebase/src/main/java/quickfix/Message.java:497-504 | From an empty slot, a completed preamble read the expected tags in order from the text, and each is stored with the value read, unless a later expected tag repeats it. |
| Phases.HeaderLoop | quickfixj-messagebase/src/main/java/quickfix/Message.java:483-494 | Only header fields are added, built in or declared by the dictionary. The loop ends at the end of input or with a non-header field pushed back. For the next field read: end of input is Done with the header unchanged; a non-header field is pushed back with the header unchanged; a header field's tag ends up in the header. |
| Phases.GroupFields | quickfixj-messagebase/src/main/java/quickfix/Message.java:559-560 | Parsing a group changes the parent's fields only by setting the count field. |
| Phases.BodyLoop | quickfixj-messagebase/src/main/java/quickfix/Message.java:514-543 | The body ends at the end of input or with a fixed trailer tag pushed back. Existing fields are kept. Fixed header tags go to the header and the others to the body. Reason 13 names a tag already present. Reason 14 happens only under validation with a dictionary that checks order, and names a header tag. For the next field read: end of input or a trailer tag ends the body with nothing added; a repeated tag is reason 13 at once; a new header tag is stored in the header, and a new body tag in the body, with its value. |
| Phases.BodyHeaderField | quickfixj-messagebase/src/main/java/quickfix/Message.java:522-532 | A header tag already in the header is reason 13 with nothing changed. A new one is stored in the header with its value, which the rest of the body phase keeps. |
| Phases.BodyHeaderGroup | quickfixj-messagebase/src/main/java/quickfix/Message.java:527-529 | A header group met in the body is parsed into the header and keeps every body-phase guarantee. |
| Phases.HeaderFieldOrder | quickfixj-messagebase/src/main/java/quickfix/Message.java:530-532 | Under validation, with a dictionary that checks order, a header tag in the body is reason 14. |
| Phases.BodyField | quickfixj-messagebase/src/main/java/quickfix/Message.java:533-539 | A body tag already set is reason 13. A new tag with a dictionary but no MsgType in the header is fatal. Otherwise the new tag is stored in the body with its value, which the rest of the body phase keeps. |
| Phases.BodyGroup | quickfixj-messagebase/src/main/java/quickfix/Message.java:536-538 | A body group of the message type is parsed into the body and keeps every body-phase guarantee. |
| Phases.BodyResultTrans | quickfixj-messagebase/src/main/java/quickfix/Message.java:516-541 | The body-phase guarantees carry over from a later state back to an earlier state that it grew from. |
| Phases.TrailerLoop | quickfixj-messagebase/src/main/java/quickfix/Message.java:620-630 | The trailer reads to the end of input. It adds only trailer fields. A non-trailer field read is reason 14 on its tag, with the trailer as it was. A trailer field's tag ends up in the trailer. |
| Phases.AddsHeaderFieldsTrans | quickfixj-messagebase/src/main/java/quickfix/Message.java:483-494 | Header-only additions compose across the preamble and the header loop. |
| Messages.ParseHeader | quickfixj-messagebase/src/main/java/quickfix/Message.java:472-495 | The header holds only header fields. Under validation, an empty input or a first field that is not BeginString is InvalidMessage, and success means 8, 9 and 35 are present. |
| Messages.Opening | quickfixj-messagebase/src/main/java/quickfix/Message.java:472-481 | With validation, the preamble 8, 9, 35 opens the header: empty input or a wrong first tag is InvalidMessage, and success leaves all three present. |
| Messages.HeaderOpensWithPreamble | quickfixj-messagebase/src/main/java/quickfix/Message.java:473-481 | A header parsed under validation was opened by the fields 8, 9 and 35 read in that order from the start of the text. |
| Messages.ValidateCheckSum | quickfixj-messagebase/src/main/java/quickfix/Message.java:458-470 | The result matches exactly when tag 10 reads as the message's checksum. A missing or different value is InvalidMessage. A non-numeric value is reason 6 on tag 10. |
| Messages.ParseSections | quickfixj-messagebase/src/main/java/quickfix/Message.java:442-456 | Every section holds only its own fields. A deferred exception carries a body-phase reason. A clean validated parse has the preamble fields, and a first field that is not BeginString is InvalidMessage. |
| Messages.Parse | quickfixj-messagebase/src/main/java/quickfix/Message.java:442-456 | The CheckSum check runs only under validation and with no deferred exception. A clean validated result carries a tag 10 that equals the message checksum. |
| Messages.FromString | quickfixj-messagebase/src/main/java/quickfix/Message.java:434-440 | A missing MsgType is InvalidMessage. An admin MsgType is parsed against the session dictionary alone. |
| Messages.IsAdmin | quickfixj-messagebase/src/main/java/quickfix/Message.java:297-307 | True exactly when the header has MsgType and it is one of 0, A, 1-5. |
| PlainParse.ExtractPending | quickfixj-messagebase/src/main/java/quickfix/Message.java:699-731 | Reading a clean framed list: the pushed-back field or the next framed field comes first, and the end of the list is the end of input. |
| PlainParse.CollectMeaning | quickfixj-messagebase/src/main/java/quickfix/Message.java:483-543 | The reference section holds exactly the tags of the list that belong to it, and the last occurrence of a tag gives its value. |
| PlainParse.HeaderLoopPlain | quickfixj-messagebase/src/main/java/quickfix/Message.java:483-494 | Without a dictionary, the header loop over a run of header fields stores the whole run, last value winning, and leaves the first later field pending. |
| PlainParse.BodyLoopPlain | quickfixj-messagebase/src/main/java/quickfix/Message.java:514-543 | Without a dictionary or validation, the body loop over framed fields never fails fatally. |
| PlainParse.BodyLoopCollects | quickfixj-messagebase/src/main/java/quickfix/Message.java:514-543 | When the body loop over a run without trailer tags completes, the header gained the run's header tags and the body its other tags, and the trailer run is left pending. |
| PlainParse.TrailerLoopPlain | quickfixj-messagebase/src/main/java/quickfix/Message.java:620-630 | Without a dictionary, the trailer loop over framed fields never fails fatally. |
| PlainParse.TrailerLoopCompletes | quickfixj-messagebase/src/main/java/quickfix/Message.java:620-630 | The trailer loop completes exactly when every remaining field has a trailer tag. |
| PlainParse.TrailerLoopCollects | quickfixj-messagebase/src/main/java/quickfix/Message.java:620-630 | A completed trailer loop stored every remaining field, last value winning. |
| PlainParse.CleanHeader | quickfixj-messagebase/src/main/java/quickfix/Message.java:472-495 | Without a dictionary or validation, the header is the leading run of header tags, and the rest of the fields are pending. |
| PlainParse.CleanParseSucceeds | quickfixj-messagebase/src/main/java/quickfix/Message.java:442-456 | Without dictionaries or validation, any text that is a list of framed fields parses into a message. |
| PlainParse.CleanParseCollectsFields | quickfixj-messagebase/src/main/java/quickfix/Message.java:442-456 | When such a parse defers no exception, each section holds exactly the fields of the text with its tags, the last value of a tag winning. |
| WireLookup.GetStringField | quickfixj-messagebase/src/main/java/quickfix/Message.java:799-823 | The indexOf-driven loop returns the reference: the value of the first field start of the tag. |
| WireLookup.FirstValueMeaning | quickfixj-messagebase/src/main/java/quickfix/Message.java:803-821 | The reference finds the first position where the tag starts the text or follows an SOH and is followed by '='. It returns that position's SOH-terminated value. The result is null when no such position exists. |
| WireLookup.SearchIsFirstValue | quickfixj-messagebase/src/main/java/quickfix/Message.java:802-821 | Starting from any indexOf result, the search loop computes the reference. |
| WireLookup.GetMessageType | quickfixj-messagebase/src/main/java/quickfix/Message.java:791-797 | Found exactly when getStringField(35) is non-null. The found value holds no SOH. A missing value is InvalidMessage. |
| WireLookup.TagInsideAnotherTag | quickfixj-messagebase/src/main/java/quickfix/Message.java:804-806 | In "8=FIX.4.2 SOH 35=A SOH", tag 5 is not found inside "35=", and the MsgType is "A". |
| Routing.CopyField | quickfixj-messagebase/src/main/java/quickfix/Message.java:404-411 | The target tag takes the source value when that value is set and non-empty. Otherwise nothing changes. |
| Routing.ReverseRoute | quickfixj-messagebase/src/main/java/quickfix/Message.java:364-402 | The reply header equals the reference: non-routing fields are unchanged. Without BeginString, only the seven identity fields are cleared. With BeginString, each routing field holds its counterpart's non-empty value; the location pair needs FIX.4.1 or later. |
| Routing.ReversedFields | quickfixj-messagebase/src/main/java/quickfix/Message.java:364-402 | Per tag, the reference gives the fields kept, cleared and mirrored by reverseRoute. |
| Routing.ReverseTwice | quickfixj-messagebase/src/main/java/quickfix/Message.java:364-402 | Reversing twice restores every routing field of the original that has a value. The location pair is the exception before FIX.4.1. |
| Routing.CounterpartInvolution | quickfixj-messagebase/src/main/java/quickfix/Message.java:376-401 | The sender/target and OnBehalfOf/DeliverTo swaps are involutions on the routing tags. |
| Routing.ClearAll | quickfixj-messagebase/src/main/java/quickfix/Message.java:365-371 | Removing each listed tag leaves exactly the fields outside the list. |
| Routing.CopyAll | quickfixj-messagebase/src/main/java/quickfix/Message.java:376-382 | Copying each target from its counterpart adds the counterparts' non-empty values. |
| Serialization.BodyLengthOf | quickfixj-messagebase/src/main/java/quickfix/Message.java:124-126 | The sum of the three section lengths, wrapped to a Java int. It equals the plain sum when that sum is in range. |
| Serialization.ChecksumText | quickfixj-messagebase/src/main/java/quickfix/Message.java:128-133 | Three digits whose value is the sum of the section checksums modulo 256, even after int overflow. |
| Serialization.WrapAdd | quickfixj-messagebase/src/main/java/quickfix/Message.java:124-126 | Wrapping after each addition equals wrapping once at the end. |
| Serialization.WrapKeepsLowByte | quickfixj-messagebase/src/main/java/quickfix/Message.java:130-133 | Wrapping to an int does not change the low byte. |
| Serialization.Stamp | quickfixj-messagebase/src/main/java/quickfix/Message.java:111-133 | After toString, tag 9 reads back as the bodyLength of the unstamped sections. Tag 10 reads back as the checksum of the header after tag 9 was rewritten, plus the body and trailer, modulo 256. Every other field, the body and the exception are unchanged. |
| Serialization.StampedCheckSumValidates | quickfixj-messagebase/src/main/java/quickfix/Message.java:458-470 | A stamped message passes validateCheckSum exactly when the section sums agree with the checksum of the text. |
| Serialization.StampIdempotent | quickfixj-messagebase/src/main/java/quickfix/Message.java:111-114 | Stamping twice equals stamping once, when the section length ignores the text of tag 9 and the section metrics ignore the text of tag 10. |
| Classification.IsHeaderField | quickfixj-messagebase/src/main/java/quickfix/Message.java:632-635 | True for a built-in header tag, or a tag the dictionary declares as header. |
| Classification.IsTrailerField | quickfixj-messagebase/src/main/java/quickfix/Message.java:674-677 | True for a built-in trailer tag, or a tag the dictionary declares as trailer. |
| Classification.FixedTagSets | quickfixj-messagebase/src/main/java/quickfix/Message.java:637-688 | The built-in header set is the 29 listed tags, and the trailer set is 93, 89 and 10. The two sets are disjoint. |
| Classification.IsAdminMessage | quickfixj-messagebase/src/main/java/quickfix/Message.java:787-789 | True exactly for the one-character types 0, A, 1, 2, 3, 4 and 5. |
| CharsetSupport.GetDefaultCharset | quickfixj-messagebase/src/main/java/org/quickfixj/CharsetSupport.java:33-35 | ISO-8859-1. |
| CharsetSupport.IsStringEquivalent | quickfixj-messagebase/src/main/java/org/quickfixj/CharsetSupport.java:44-48 | True exactly for ISO-8859-1 and US-ASCII. Such a charset encodes one byte per character, and ASCII characters encode to their own codes. |
| CharsetSupport.ChecksumChars | quickfixj-messagebase/src/main/java/org/quickfixj/CharsetSupport.java:72-77 | A value in 0-255. A partial message sums every character. A message without SOH "10=" sums every character. |
| CharsetSupport.ChecksumBytesAsWritten | quickfixj-messagebase/src/main/java/org/quickfixj/CharsetSupport.java:78-86 | As written, the byte path fails exactly for an entire message of fewer than eight bytes. |
| CharsetSupport.ChecksumBytes | quickfixj-messagebase/src/main/java/org/quickfixj/CharsetSupport.java:78-88 | The last seven bytes are dropped exactly when there are at least eight and the last eight start with SOH "10=". |
| CharsetSupport.ChecksumAsWritten | quickfixj-messagebase/src/main/java/org/quickfixj/CharsetSupport.java:70-89 | Fails exactly on the short entire-message byte path. Otherwise it equals the guarded checksum. |
| CharsetSupport.Checksum | quickfixj-messagebase/src/main/java/org/quickfixj/CharsetSupport.java:70-89 | A value in 0-255. Without the entire-message flag, every character is summed on the character path and every byte on the byte path. |
| CharsetSupport.ChecksumOfMessage | quickfixj-messagebase/src/main/java/org/quickfixj/CharsetSupport.java:99-101 | checksum(String) under the current charset. For a string-equivalent charset it sums the characters up to the SOH of the last SOH "10=", or all of them when there is none. Otherwise it sums the encoded bytes, dropping the last seven exactly when there are at least eight and the last eight start with SOH "10=". |
| CharsetSupport.Length | quickfixj-messagebase/src/main/java/org/quickfixj/CharsetSupport.java:111-113 | The encoded byte count. It is never below the character count, and equals it for a string-equivalent charset. |
| ChecksumProperties.CharsChecksumStopsBeforeCheckSumField | quickfixj-messagebase/src/main/java/org/quickfixj/CharsetSupport.java:73-77 | For a complete message, the character path sums exactly the characters before "10=". |
| ChecksumProperties.CharPathAgreesWithBytePath | quickfixj-messagebase/src/main/java/org/quickfixj/CharsetSupport.java:70-89 | For a complete message that ends in a CheckSum field with a three-character value, and whose characters the charset maps to themselves, the character short cut equals encoding and summing bytes. |
| ChecksumProperties.CharPathDiffersFromBytePath | quickfixj-messagebase/src/main/java/org/quickfixj/CharsetSupport.java:70-89 | Outside that case the two paths differ: for "8=A" SOH "10=5" SOH under ISO-8859-1, the character path gives 183 and the byte path gives 139. |
| ChecksumProperties.SumCodesIsSumBytes | quickfixj-messagebase/src/main/java/org/quickfixj/CharsetSupport.java:75-86 | Summing characters equals summing bytes that hold their codes. |
| ChecksumFinding.ShortEntireMessageThrowsAsWritten | quickfixj-messagebase/src/main/java/org/quickfixj/CharsetSupport.java:79-83 | Under UTF-8, "8=A" SOH as an entire message throws as written. The default charset and the guarded path give 183. |
| RejectReasons.GetMessage | quickfixj-messagebase/src/main/java/quickfix/SessionRejectReasonText.java:50-71 | A text exists exactly for codes 0-16 other than 12. The texts of 6, 13, 14, 15 and 16 are given. |
| RejectReasons.CodesDistinct | quickfixj-messagebase/src/main/java/quickfix/SessionRejectReasonText.java:28-48 | The declared codes are distinct and are exactly 0-18 and 99. The reason travels in tag 373. |
| RejectReasons.DeclaredWithoutText | quickfixj-messagebase/src/main/java/quickfix/SessionRejectReasonText.java:41-48 | Codes 12, 17, 18 and 99 have no text. |

## Left out

- XML rendering (toXML), clone, the header/trailer group delegation methods, isEmpty, clear and isApp: these are not part of the parse/stamp engine.
- `synchronized` and the mutable fields of Message: the model is pure. Concurrency is out of scope.
- setCharset, validate and getCharset: the global charset is a parameter of every operation that uses it.
- The order in which toString renders fields: calculateString, calculateLength and calculateChecksum belong to FieldMap, which is not part of this model. Serialization.Stamp takes them as a function from a section to its length and checksum.
- Serialization.StampIdempotent: holds only for section metrics in which the length ignores the text of tag 9 and the metrics ignore the text of tag 10. FieldMap.calculateLength and calculateChecksum skip those two tags, but FieldMap is not part of this model.
- Characters outside the Basic Multilingual Plane: a Dafny `char` is a Unicode scalar value, while Java's `charAt`, `indexOf` and `length` count UTF-16 code units. For such a character, ChecksumChars adds its code point where Java adds its two surrogates, CharsetSupport.Length counts one character where Java counts two, and Java's ISO-8859-1 encoding writes one '?' for the pair. The model therefore matches Java only for text inside the Basic Multilingual Plane.
- The reference for section contents (PlainParse) covers a parse without dictionaries and without validation, so it has no repeating groups. With a dictionary, the phases' own step contracts say where each field read goes.
- GroupParser.ParseGroup: there is no list-level reference for how a group's instances are filled. The step contracts say that a member goes into the open instance and that a delimiter starts a new one.
- Serialization.Stamp: only the fields set by toString are modelled, not the rendered text.
- Integer.parseInt and the getInt converter accept only ASCII digits here. Java also accepts other Unicode decimal digits.
- FieldMap.getInt on a data field's length and on CheckSum: a non-integer value is modelled as the reason-6 FieldException. The FieldMap code is not part of this model.
- setGroupCount's rewrite of the NumInGroup field text: the count is recorded in a separate map.
- hasValidStructure, getException and getInvalidTag: plain accessors of the deferred exception, which the model exposes directly.
- DataDictionary.HEADER_ID is taken to be "HEADER". DataDictionary.isAdminMessage is modelled as membership in the dictionary's set of admin types.
- The position update before the "Bad tag format" InvalidMessage: the exception escapes the parse, so the position is never read again.
- The detail text of InvalidMessage is shortened. The raw message is not appended.
- The character path and the byte path of checksum are guaranteed to agree only when the last eight bytes are SOH "10=", three characters and SOH, or when there is no SOH "10=" at all. The character path cuts at the last SOH "10=" anywhere in the text; the byte path only looks at the last eight bytes. The model keeps both behaviours as written, and ChecksumProperties.CharPathDiffersFromBytePath shows an input where they differ.
- `& 0xFF` on a Java `int` is modelled as the Euclidean remainder modulo 256 of the wrapped value.

## Findings

| source | as written | input that shows it | evidently intended | confidence | as-written member | corrected member |
|---|---|---|---|---|---|---|
| quickfixj-messagebase/src/main/java/org/quickfixj/CharsetSupport.java:79-83 | For a non-string-equivalent charset and an entire message, `bytes[len - 8]` is read before the length is checked. | "8=A" followed by SOH, under UTF-8, with isEntireMessage true: 4 bytes, so ArrayIndexOutOfBoundsException. | Sum all bytes when fewer than eight, as the character path does, giving 183. ChecksumFinding.ShortEntireMessageThrowsAsWritten exhibits the exception. CharsetSupport.ChecksumAsWritten states that the corrected path agrees wherever the original returns. | not executed | CharsetSupport.ChecksumBytesAsWritten | CharsetSupport.ChecksumBytes |
