/**
  The byte path of checksum(Charset, String, boolean) reads the eighth byte from the
  end before checking the length.  With UTF-8 and an entire message shorter than
  eight bytes the Java code throws ArrayIndexOutOfBoundsException, where the
  character path (and the guarded byte path) return the plain sum.
 */
module ChecksumFinding {
  import opened Optional
  import opened JavaText
  import opened CharsetSupport

  /** The UTF-8 bytes of one Unicode scalar value. */
  function Utf8Char(c: char): (r: seq<Byte>)
    ensures 1 <= |r| <= 4
    ensures c as int < 0x80 ==> r == [c as int]
  {
    var n := c as int;
    if n < 0x80 then [n]
    else if n < 0x800 then [0xC0 + n / 64, 0x80 + n % 64]
    else if n < 0x1_0000 then [0xE0 + n / 4096, 0x80 + n / 64 % 64, 0x80 + n % 64]
    else [0xF0 + n / 262144, 0x80 + n / 4096 % 64, 0x80 + n / 64 % 64, 0x80 + n % 64]
  }

  /** String.getBytes("UTF-8"). */
  function Utf8Bytes(s: string): (r: seq<Byte>)
    ensures |r| >= |s|
  {
    if |s| == 0 then [] else Utf8Bytes(s[..|s| - 1]) + Utf8Char(s[|s| - 1])
  }

  const Utf8: Charset := CharsetRec("UTF-8", Utf8Bytes)

  /** A four-character message fragment: "8=A" and SOH. */
  const ShortInput: string := "8=A" + [SOH]

  lemma ShortInputSum()
    ensures SumCodes(ShortInput) == 183
  {
    var s := ShortInput;
    assert s[..3] == "8=A" && s[..3][..2] == "8=" && s[..3][..2][..1] == "8";
    assert SumCodes("8") == 56;
    assert SumCodes("8=") == 117;
  }

  lemma ShortInputUtf8()
    ensures Utf8Bytes(ShortInput) == [56, 61, 65, 1]
  {
    var s := ShortInput;
    assert s[..3] == "8=A" && s[..3][..2] == "8=" && s[..3][..2][..1] == "8";
    assert Utf8Bytes("8") == [56];
    assert Utf8Bytes("8=") == [56, 61];
  }

  /**
    As written, the UTF-8 checksum of the entire-message fragment "8=A" SOH throws,
    while the same fragment under the default charset sums to 183; the guarded
    byte path gives 183 under UTF-8 too.
   */
  lemma ShortEntireMessageThrowsAsWritten()
    ensures ChecksumAsWritten(Utf8, ShortInput, true) == None
    ensures ChecksumAsWritten(DefaultCharset, ShortInput, true) == Some(183)
    ensures Checksum(Utf8, ShortInput, true) == 183
  {
    ShortInputSum();
    ShortInputUtf8();
    var b: seq<Byte> := [56, 61, 65, 1];
    assert b[..3] == [56, 61, 65] && b[..3][..2] == [56, 61] && b[..3][..2][..1] == [56];
    assert SumBytes([56]) == 56;
    assert SumBytes([56, 61]) == 117;
    assert SumBytes(b) == 183;
    assert forall i :: 0 <= i < |ShortInput| ==> !OccursAt(ShortInput, ChecksumMarker, i);
  }
}
