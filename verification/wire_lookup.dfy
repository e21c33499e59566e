/**
  Reading one field straight from the raw message text, without parsing it
  (getStringField, getMessageType).  A field counts only where its tag starts
  the message or follows an SOH, so tag 5 is never found inside "35=".
 */
module WireLookup {
  import opened Optional
  import opened JavaText
  import opened FieldMaps
  import opened FieldTags

  /** Position `i` starts field `t`: the tag text at the start or after SOH, then '=' and at least one more character. */
  predicate FieldStartsAt(s: string, t: string, i: int) {
    && OccursAt(s, t, i)
    && (i == 0 || s[i - 1] == SOH)
    && i + |t| + 1 < |s| && s[i + |t|] == '='
  }

  /** The text from `k` up to the next SOH, or None when no SOH follows. */
  function ValueAt(s: string, k: nat): (r: Option<string>)
    ensures r.Some? ==> k + |r.value| < |s| && s[k..k + |r.value|] == r.value && s[k + |r.value|] == SOH && SOH !in r.value
    ensures r.None? ==> k >= |s| || NoneOf(s, SOH, k, |s|)
  {
    match IndexOfChar(s, SOH, k)
    case None => None
    case Some(e) =>
      var v := s[k..e];
      assert forall j :: 0 <= j < |v| ==> v[j] == s[k + j];
      Some(v)
  }

  /** Reference definition: the value of the first field `t` at or after `i`, scanning position by position. */
  function FirstValueFrom(s: string, t: string, i: nat): Option<string>
    decreases |s| - i
  {
    if i >= |s| then None
    else if FieldStartsAt(s, t, i) then ValueAt(s, i + |t| + 1)
    else FirstValueFrom(s, t, i + 1)
  }

  /**
    The loop of getStringField from a candidate `start` (an occurrence of the tag
    text, or None when indexOf found none): a candidate that starts a field ends
    the search with its value (null if it is not SOH-terminated); any other
    candidate moves the search to the next occurrence.
   */
  function Search(s: string, t: string, start: Option<nat>): Option<string>
    requires |t| > 0
    requires start.Some? ==> OccursAt(s, t, start.value)
    decreases if start.Some? then |s| - start.value else 0
  {
    match start
    case None => None
    case Some(i) =>
      if FieldStartsAt(s, t, i) then ValueAt(s, i + |t| + 1)
      else
        var next := IndexOfText(s, t, i + 1);
        Search(s, t, next)
  }

  /** getStringField: the value of the first field with this tag in the raw text. */
  function GetStringField(s: string, tag: int): (r: Option<string>)
    ensures r == FirstValueFrom(s, IntToString(tag), 0)
  {
    var t := IntToString(tag);
    var r := Search(s, t, IndexOfText(s, t, 0));
    SearchIsFirstValue(s, t, 0, IndexOfText(s, t, 0));
    r
  }

  /** Skipping positions where the tag text does not occur does not change the reference. */
  lemma {:induction false} SkipNonOccurrences(s: string, t: string, from: nat, k: nat)
    requires from <= k
    requires forall j :: from <= j < k ==> !OccursAt(s, t, j)
    ensures FirstValueFrom(s, t, from) == FirstValueFrom(s, t, k)
    decreases k - from
  {
    if from < k && from < |s| {
      SkipNonOccurrences(s, t, from + 1, k);
    } else if from < k {
      SkipPastEnd(s, t, from, k);
    }
  }

  lemma {:induction false} SkipPastEnd(s: string, t: string, from: nat, k: nat)
    requires |s| <= from <= k
    ensures FirstValueFrom(s, t, from) == None && FirstValueFrom(s, t, k) == None
  {
  }

  /** The indexOf-driven loop computes the reference, started from wherever indexOf starts it. */
  lemma {:induction false} SearchIsFirstValue(s: string, t: string, from: nat, start: Option<nat>)
    requires |t| > 0
    requires start == IndexOfText(s, t, from)
    ensures Search(s, t, start) == FirstValueFrom(s, t, from)
    decreases if from <= |s| then |s| - from else 0, 1
  {
    if start.None? {
      if from < |s| {
        SkipNonOccurrences(s, t, from, |s|);
      }
      SkipPastEnd(s, t, |s|, |s|);
    } else {
      SkipNonOccurrences(s, t, from, start.value);
      SearchFromOccurrence(s, t, start.value);
    }
  }

  /** From an occurrence of the tag text, the loop computes the reference. */
  lemma {:induction false} SearchFromOccurrence(s: string, t: string, i: nat)
    requires |t| > 0 && OccursAt(s, t, i)
    ensures Search(s, t, Some(i)) == FirstValueFrom(s, t, i)
    decreases |s| - i, 0
  {
    if !FieldStartsAt(s, t, i) {
      var next := IndexOfText(s, t, i + 1);
      assert Search(s, t, Some(i)) == Search(s, t, next);
      assert FirstValueFrom(s, t, i) == FirstValueFrom(s, t, i + 1);
      SearchIsFirstValue(s, t, i + 1, next);
    }
  }

  /**
    What the reference finds: the value of a field `t` whose tag begins the
    message or follows an SOH, with no such field earlier; and None exactly when
    the first such field is not SOH-terminated or there is none.
   */
  lemma {:induction false} FirstValueMeaning(s: string, t: string, i: nat)
    ensures FirstValueFrom(s, t, i).Some? ==>
      exists k :: i <= k && FieldStartsAt(s, t, k) && FirstValueFrom(s, t, i) == ValueAt(s, k + |t| + 1)
        && forall j :: i <= j < k ==> !FieldStartsAt(s, t, j)
    ensures (forall k :: i <= k ==> !FieldStartsAt(s, t, k)) ==> FirstValueFrom(s, t, i).None?
    decreases |s| - i
  {
    if i < |s| && !FieldStartsAt(s, t, i) {
      FirstValueMeaning(s, t, i + 1);
    }
  }

  /** The outcome of getMessageType: the MsgType value, or InvalidMessage when it is missing or garbled. */
  datatype MsgTypeLookup = Missing(error: ParseError) | Found(msgType: string)

  /** getMessageType: the raw MsgType <35> value; a null lookup becomes InvalidMessage. */
  function GetMessageType(s: string): (r: MsgTypeLookup)
    ensures r.Found? <==> GetStringField(s, MsgType).Some?
    ensures r.Found? ==> r.msgType == GetStringField(s, MsgType).value && SOH !in r.msgType
    ensures r.Missing? ==> r.error.InvalidMessage?
  {
    match GetStringField(s, MsgType)
    case None => Missing(InvalidMessage("Missing or garbled message type"))
    case Some(v) =>
      FirstValueMeaning(s, IntToString(MsgType), 0);
      Found(v)
  }

  /** A sample logon: BeginString, then MsgType. */
  const Sample: string := "8=FIX.4.2" + [SOH] + "35=A" + [SOH]

  /** In the sample, the "5" of "35=" never reads as tag 5, while tag 35 reads as "A". */
  lemma TagInsideAnotherTag()
    ensures GetStringField(Sample, 5) == None
    ensures GetMessageType(Sample) == Found("A")
  {
    var five := IntToString(5);
    assert five == "5";
    forall k | 0 <= k
      ensures !FieldStartsAt(Sample, five, k)
    {
      if OccursAt(Sample, five, k) {
        assert Sample[k] == '5';
        assert k == 11;
      }
    }
    FirstValueMeaning(Sample, five, 0);
    var tf := IntToString(35);
    assert tf == "35";
    assert FieldStartsAt(Sample, tf, 10);
    forall j | 0 <= j < 10
      ensures !FieldStartsAt(Sample, tf, j)
    {
      if OccursAt(Sample, tf, j) {
        assert Sample[j] == '3';
      }
    }
    FirstAt(Sample, tf, 0, 10);
    assert Sample[13] == 'A' && Sample[14] == SOH && Sample[13..14] == "A";
    assert ValueAt(Sample, 13) == Some("A") by {
      IndexOfCharFinds(Sample, SOH, 13, 14);
    }
  }

  /** When position `k` is the first field start from `i` on, the reference reads its value. */
  lemma {:induction false} FirstAt(s: string, t: string, i: nat, k: nat)
    requires i <= k < |s| && FieldStartsAt(s, t, k)
    requires forall j :: i <= j < k ==> !FieldStartsAt(s, t, j)
    ensures FirstValueFrom(s, t, i) == ValueAt(s, k + |t| + 1)
    decreases k - i
  {
    if i < k {
      FirstAt(s, t, i + 1, k);
    }
  }
}
