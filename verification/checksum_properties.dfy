/**
  Properties of the CheckSum arithmetic: which characters or bytes it covers, and
  agreement between the character path and the byte path.
 */
module ChecksumProperties {
  import opened Optional
  import opened JavaText
  import opened CharsetSupport

  lemma {:induction false} SumCodesAppend(a: string, b: string)
    ensures SumCodes(a + b) == SumCodes(a) + SumCodes(b)
    decreases |b|
  {
    if |b| == 0 {
      assert a + b == a;
    } else {
      var b' := b[..|b| - 1];
      assert (a + b)[..|a + b| - 1] == a + b';
      SumCodesAppend(a, b');
    }
  }

  lemma {:induction false} SumBytesAppend(a: seq<Byte>, b: seq<Byte>)
    ensures SumBytes(a + b) == SumBytes(a) + SumBytes(b)
    decreases |b|
  {
    if |b| == 0 {
      assert a + b == a;
    } else {
      var b' := b[..|b| - 1];
      assert (a + b)[..|a + b| - 1] == a + b';
      SumBytesAppend(a, b');
    }
  }

  /** Summing characters equals summing bytes whose values are those characters' codes. */
  lemma {:induction false} SumCodesIsSumBytes(s: string, b: seq<Byte>)
    requires |b| == |s|
    requires forall i :: 0 <= i < |s| ==> b[i] == s[i] as int
    ensures SumCodes(s) == SumBytes(b)
    decreases |s|
  {
    if |s| > 0 {
      SumCodesIsSumBytes(s[..|s| - 1], b[..|b| - 1]);
    }
  }

  /** A complete message `body 10=vvv SOH`, where `body` ends in SOH and `vvv` holds no SOH. */
  predicate EndsWithCheckSum(data: string, bodyLen: nat) {
    && 0 < bodyLen && bodyLen + 4 <= |data|
    && data[bodyLen - 1] == SOH
    && data[bodyLen..bodyLen + 3] == "10="
    && data[|data| - 1] == SOH
    && NoneOf(data, SOH, bodyLen, |data| - 1)
  }

  /**
    On the character path, the checksum of a complete message covers exactly the
    characters before "10=", the SOH that ends the previous field included.
   */
  lemma CharsChecksumStopsBeforeCheckSumField(data: string, bodyLen: nat)
    requires EndsWithCheckSum(data, bodyLen)
    ensures ChecksumChars(data, true) == SumCodes(data[..bodyLen]) % 256
  {
    assert OccursAt(data, ChecksumMarker, bodyLen - 1);
    forall i | bodyLen - 1 < i < |data|
      ensures !OccursAt(data, ChecksumMarker, i)
    {
      if i + 4 <= |data| {
        assert data[i..i + 4][0] == data[i] != SOH;
      }
    }
    var last := LastIndexOfText(data, ChecksumMarker, |data|);
    assert last == Some(bodyLen - 1);
  }

  /**
    The character shortcut is sound: for a string-equivalent charset and a complete
    message whose characters that charset maps to themselves, summing characters
    gives the same checksum as encoding and summing bytes.
   */
  lemma CharPathAgreesWithBytePath(c: Charset, data: string, bodyLen: nat)
    requires IsStringEquivalent(c)
    requires forall i :: 0 <= i < |data| ==> data[i] as int < 128 || (c.name == Latin1Name && data[i] as int < 256)
    requires EndsWithCheckSum(data, bodyLen) && bodyLen + 7 == |data|
    ensures Checksum(c, data, true) == ChecksumBytes(c.encode(data), true)
  {
    var b := c.encode(data);
    assert |b| == |data|;
    forall i | 0 <= i < |data|
      ensures b[i] == data[i] as int
    {
      if c.name == Latin1Name {
        assert b == Latin1Bytes(data);
      } else {
        assert b == AsciiBytes(data);
      }
    }
    CharsChecksumStopsBeforeCheckSumField(data, bodyLen);
    assert data[bodyLen..bodyLen + 3] == "10=";
    assert data[bodyLen] == '1' && data[bodyLen + 1] == '0' && data[bodyLen + 2] == '=';
    var k := bodyLen - 1;
    assert b[k] == data[k] as int && b[k + 1] == data[k + 1] as int;
    assert b[k + 2] == data[k + 2] as int && b[k + 3] == data[k + 3] as int;
    assert MarkedTail(b);
    SumCodesIsSumBytes(data[..bodyLen], b[..|b| - 7]);
  }

  /** "8=A" SOH "10=5" SOH: an entire message whose CheckSum value has one digit. */
  const ShortCheckSumMessage: string := "8=A" + [SOH] + "10=5" + [SOH]

  /**
    The two paths are not interchangeable in general.  On a message whose CheckSum
    value is not three characters, the character path still stops after the SOH of
    the last SOH "10=", while the byte path, which only looks at the last eight
    bytes, sums everything; under ISO-8859-1 the sums are 183 and 139.
   */
  lemma CharPathDiffersFromBytePath()
    ensures Checksum(DefaultCharset, ShortCheckSumMessage, true) == 183
    ensures ChecksumBytes(DefaultCharset.encode(ShortCheckSumMessage), true) == 139
  {
    var d := ShortCheckSumMessage;
    var head, tail := "8=A" + [SOH], "10=5" + [SOH];
    assert d == head + tail;
    assert head[..3] == "8=A" && head[..3][..2] == "8=" && head[..3][..2][..1] == "8";
    assert SumCodes("8") == 56;
    assert SumCodes("8=") == 117;
    assert SumCodes("8=A") == 182;
    assert SumCodes(head) == 183;
    assert tail[..4] == "10=5" && tail[..4][..3] == "10=" && tail[..4][..3][..2] == "10" && tail[..4][..3][..2][..1] == "1";
    assert SumCodes("1") == 49;
    assert SumCodes("10") == 97;
    assert SumCodes("10=") == 158;
    assert SumCodes("10=5") == 211;
    assert SumCodes(tail) == 212;
    assert OccursAt(d, ChecksumMarker, 3);
    forall i | 3 < i < |d|
      ensures !OccursAt(d, ChecksumMarker, i)
    {
      if i + 4 <= |d| {
        assert d[i..i + 4][0] == d[i] != SOH;
      }
    }
    assert LastIndexOfText(d, ChecksumMarker, |d|) == Some(3);
    assert d[..4] == head;
    var b := Latin1Bytes(d);
    assert DefaultCharset.encode(d) == b;
    SumCodesIsSumBytes(d, b);
    SumCodesAppend(head, tail);
    assert b[1] == '=' as int;
    assert !MarkedTail(b);
  }
}
