/**
  What toString does before rendering: BodyLength <9> and CheckSum <10> are
  recomputed from the three sections' own byte counts and byte sums and written
  into the header and trailer.  The per-section results come from FieldMap's
  calculateLength and calculateChecksum and are taken as given.
 */
module Serialization {
  import opened Optional
  import opened JavaText
  import opened CharsetSupport
  import opened FieldMaps
  import opened FieldTags
  import opened Messages

  /** A section's calculateLength and calculateChecksum results, as Java ints. */
  datatype SectionMetrics = SectionMetrics(length: int, checksum: int)

  const TwoToThe32: int := 0x1_0000_0000

  /** Java int arithmetic: the mathematical value wrapped into the 32-bit two's complement range. */
  function Wrap32(x: int): (r: int)
    ensures InIntRange(r)
    ensures InIntRange(x) ==> r == x
  {
    (x - IntMin) % TwoToThe32 + IntMin
  }

  /** Euclidean remainder by 2^32 ignores multiples of 2^32. */
  lemma ModShift32(z: int, k: int)
    ensures (z + k * TwoToThe32) % TwoToThe32 == z % TwoToThe32
  {
    var a, r := z / TwoToThe32, z % TwoToThe32;
    assert z + k * TwoToThe32 == (a + k) * TwoToThe32 + r;
  }

  /** Euclidean remainder by 256 ignores multiples of 256. */
  lemma ModShift256(z: int, k: int)
    ensures (z + k * 256) % 256 == z % 256
  {
    var a, r := z / 256, z % 256;
    assert z + k * 256 == (a + k) * 256 + r;
  }

  /** Wrapping moves a value by a whole number of 2^32 steps. */
  lemma WrapShift(x: int) returns (k: int)
    ensures Wrap32(x) == x + k * TwoToThe32
  {
    k := -((x - IntMin) / TwoToThe32);
  }

  /** Wrapping after each addition, as Java does, is wrapping once at the end. */
  lemma WrapAdd(x: int, y: int)
    ensures Wrap32(Wrap32(x) + y) == Wrap32(x + y)
  {
    var k := WrapShift(x);
    ModShift32(x + y - IntMin, k);
  }

  /**
    `w & 0xFF` on a Java int keeps the low eight bits of its two's complement
    form, whose value is the Euclidean remainder of `w` modulo 256; wrapping
    changes a value by a multiple of 2^32 = 256 * 2^24 and so leaves it alone.
   */
  lemma WrapKeepsLowByte(x: int)
    ensures Wrap32(x) % 256 == x % 256
  {
    var k := WrapShift(x);
    ModShift256(x, k * 0x100_0000);
  }

  /** bodyLength: the three sections' lengths added as Java ints. */
  function BodyLengthOf(h: SectionMetrics, b: SectionMetrics, t: SectionMetrics): (r: int)
    ensures InIntRange(r)
    ensures r == Wrap32(h.length + b.length + t.length)
    ensures InIntRange(h.length + b.length + t.length) ==> r == h.length + b.length + t.length
  {
    WrapAdd(h.length + b.length, t.length);
    Wrap32(Wrap32(h.length + b.length) + t.length)
  }

  /** checksum(): the three sections' sums added as Java ints, masked with 0xFF and written with three digits. */
  function ChecksumText(h: SectionMetrics, b: SectionMetrics, t: SectionMetrics): (r: string)
    ensures |r| == 3 && AllDigits(r)
    ensures ConvertInt(r) == Some((h.checksum + b.checksum + t.checksum) % 256)
  {
    var sum := Wrap32(Wrap32(h.checksum + b.checksum) + t.checksum);
    WrapAdd(h.checksum + b.checksum, t.checksum);
    WrapKeepsLowByte(h.checksum + b.checksum + t.checksum);
    var low := sum % 256;
    Pad3RoundTrip(low);
    Pad3(low)
  }

  /**
    The effect of toString on the message.  `measure` stands for FieldMap's
    calculateLength and calculateChecksum of a section.  bodyLength() is taken
    first and written to tag 9 of the header; checksum() is taken after that,
    so the header's sum covers the new BodyLength field, and is then written
    to tag 10 of the trailer.  Nothing else changes.
   */
  function Stamp(m: Message, measure: FieldMap -> SectionMetrics): (r: Message)
    ensures BodyLength in r.header.fields && CheckSum in r.trailer.fields
    ensures ConvertInt(r.header.fields[BodyLength]) == Some(BodyLengthOf(measure(m.header), measure(m.body), measure(m.trailer)))
    ensures ConvertInt(r.trailer.fields[CheckSum]) ==
      Some((measure(r.header).checksum + measure(m.body).checksum + measure(m.trailer).checksum) % 256)
    ensures forall tag :: tag != BodyLength ==> (tag in r.header.fields <==> tag in m.header.fields)
    ensures forall tag :: tag != BodyLength && tag in r.header.fields ==> r.header.fields[tag] == m.header.fields[tag]
    ensures forall tag :: tag != CheckSum ==> (tag in r.trailer.fields <==> tag in m.trailer.fields)
    ensures forall tag :: tag != CheckSum && tag in r.trailer.fields ==> r.trailer.fields[tag] == m.trailer.fields[tag]
    ensures r.body == m.body && r.exception == m.exception
    ensures r.header.groups == m.header.groups && r.trailer.groups == m.trailer.groups
  {
    var length := BodyLengthOf(measure(m.header), measure(m.body), measure(m.trailer));
    IntToStringRoundTrip(length);
    var header := Set(m.header, Field(BodyLength, IntToString(length)));
    m.(header := header,
       trailer := Set(m.trailer, Field(CheckSum, ChecksumText(measure(header), measure(m.body), measure(m.trailer)))))
  }

  /**
    A stamped message passes validateCheckSum against the text it is rendered
    to exactly when the section sums, the header's taken with its new
    BodyLength, add up to that text's checksum.
   */
  lemma StampedCheckSumValidates(m: Message, measure: FieldMap -> SectionMetrics, data: string, cs: Charset)
    ensures var s := Stamp(m, measure);
      ValidateCheckSum(data, s.trailer, cs).Matches? <==>
        (measure(s.header).checksum + measure(m.body).checksum + measure(m.trailer).checksum) % 256 == ChecksumOfMessage(cs, data)
  {
  }

  /**
    Stamping twice is stamping once, given what FieldMap's counts leave out:
    the header's length does not count BodyLength, and neither count of a
    section sees its CheckSum field.
   */
  lemma StampIdempotent(m: Message, measure: FieldMap -> SectionMetrics)
    requires forall fm: FieldMap, v: string :: measure(Set(fm, Field(BodyLength, v))).length == measure(fm).length
    requires forall fm: FieldMap, v: string :: measure(Set(fm, Field(CheckSum, v))) == measure(fm)
    ensures Stamp(Stamp(m, measure), measure) == Stamp(m, measure)
  {
    var length := BodyLengthOf(measure(m.header), measure(m.body), measure(m.trailer));
    var header := Set(m.header, Field(BodyLength, IntToString(length)));
    var sum := ChecksumText(measure(header), measure(m.body), measure(m.trailer));
    var trailer := Set(m.trailer, Field(CheckSum, sum));
    assert Stamp(m, measure) == m.(header := header, trailer := trailer);
    assert measure(header).length == measure(m.header).length;
    assert measure(trailer) == measure(m.trailer);
    assert BodyLengthOf(measure(header), measure(m.body), measure(trailer)) == length;
    assert Set(header, Field(BodyLength, IntToString(length))) == header;
    assert Set(trailer, Field(CheckSum, sum)) == trailer;
  }
}
