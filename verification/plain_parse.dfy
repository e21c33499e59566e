/**
  A reference for what a clean parse keeps when no dictionary is given and
  validation is off: the input read as a plain list of framed tag=value fields,
  and each section as the fields of that list whose tags belong to it by the
  built-in tag sets, a later value replacing an earlier one.  The lemmas below
  connect the three section loops, and the whole of parse, to this reference.
 */
module PlainParse {
  import opened Optional
  import opened JavaText
  import opened CharsetSupport
  import opened FieldMaps
  import opened Classification
  import opened Tokenizer
  import opened GroupParser
  import opened Phases
  import opened Messages

  /** `fs` is `data` from `pos` to its end, cut into framed fields none of whose values holds SOH. */
  ghost predicate Frames(data: string, pos: nat, fs: seq<Field>)
    decreases |fs|
  {
    if |fs| == 0 then pos == |data|
    else exists end: nat {:trigger Framed(data, pos, end, fs[0])} ::
      Framed(data, pos, end, fs[0]) && SOH !in fs[0].value && Frames(data, end + 1, fs[1..])
  }

  /** The fields still to be read at `c`: the pushed-back one first, then the rest of the input. */
  ghost predicate Pending(data: string, c: Cursor, fs: seq<Field>) {
    if c.pushedBack.Some? then |fs| > 0 && fs[0] == c.pushedBack.value && Frames(data, c.pos, fs[1..])
    else Frames(data, c.pos, fs)
  }

  /** Two fields framed from the same position, neither holding SOH, end at the same SOH and are the same field. */
  lemma FramedUnique(data: string, pos: nat, end: nat, end': nat, f: Field, g: Field)
    requires Framed(data, pos, end, f) && Framed(data, pos, end', g)
    requires SOH !in f.value && SOH !in g.value
    ensures end == end' && f == g
  {
    var eq := end - |f.value| - 1;
    assert eq == end' - |g.value| - 1;
  }

  /** Where the tokenizer's searches land on a framed field without SOH in its value. */
  lemma FramedSearches(data: string, pos: nat, end: nat, f: Field)
    requires Framed(data, pos, end, f) && SOH !in f.value
    ensures var eq := end - |f.value| - 1;
      && pos < eq < end < |data|
      && IndexOfChar(data, '=', pos) == Some(eq)
      && ParseInt(data[pos..eq]) == Some(f.tag)
      && IndexOfChar(data, SOH, eq + 1) == Some(end)
      && data[eq + 1..end] == f.value
  {
    var eq := end - |f.value| - 1;
    assert NoneOf(data, SOH, eq + 1, end) by {
      var v := data[eq + 1..end];
      assert v == f.value;
      forall i | eq + 1 <= i < end
        ensures data[i] != SOH
      {
        assert data[i] == v[i - eq - 1];
      }
    }
    IndexOfCharFinds(data, '=', pos, eq);
    IndexOfCharFinds(data, SOH, eq + 1, end);
  }

  /** Without a dictionary, a framed field without SOH in its value is read whole, and the cursor moves past its SOH. */
  lemma ExtractFramed(data: string, pos: nat, end: nat, f: Field, scope: FieldMap, cs: Charset)
    requires Framed(data, pos, end, f) && SOH !in f.value
    ensures pos < |data| && ExtractAt(data, pos, None, scope, cs) == Next(Some(f), Cursor(end + 1, None))
  {
    FramedSearches(data, pos, end, f);
    var r := ExtractAt(data, pos, None, scope, cs);
    assert r.Next?;
    FramedUnique(data, pos, end, r.cursor.pos - 1, r.field.value, f);
  }

  /** The first framed field and where the rest begins. */
  lemma FramesFirst(data: string, pos: nat, fs: seq<Field>) returns (end: nat)
    requires Frames(data, pos, fs) && |fs| > 0
    ensures Framed(data, pos, end, fs[0]) && SOH !in fs[0].value && Frames(data, end + 1, fs[1..])
  {
    end :| Framed(data, pos, end, fs[0]) && SOH !in fs[0].value && Frames(data, end + 1, fs[1..]);
  }

  /** With an empty pushback slot, the pending fields are those framed from the position on. */
  lemma PendingAt(data: string, pos: nat, fs: seq<Field>)
    requires Frames(data, pos, fs)
    ensures Pending(data, Cursor(pos, None), fs)
  {
  }

  /** Without a dictionary, extraction hands out the pending fields one at a time, and None once they are used up. */
  lemma ExtractPending(data: string, c: Cursor, fs: seq<Field>, scope: FieldMap, cs: Charset)
    requires Pending(data, c, fs)
    ensures var e := Extract(data, c, None, scope, cs);
      && e.Next? && (|fs| == 0 <==> e.field.None?)
      && (|fs| == 0 ==> e.cursor == c)
      && (|fs| > 0 ==> e.field == Some(fs[0]) && Pending(data, e.cursor, fs[1..]))
  {
    var e := Extract(data, c, None, scope, cs);
    if c.pushedBack.Some? {
      assert e == Next(c.pushedBack, Cursor(c.pos, None));
      PendingAt(data, c.pos, fs[1..]);
    } else if |fs| == 0 {
      assert e == Next(None, c);
    } else {
      var end := FramesFirst(data, c.pos, fs);
      ExtractFramed(data, c.pos, end, fs[0], scope, cs);
      assert e == Next(Some(fs[0]), Cursor(end + 1, None));
      PendingAt(data, end + 1, fs[1..]);
    }
  }

  /** The cursor after the first pending field, read without a dictionary. */
  lemma NextPending(data: string, c: Cursor, fs: seq<Field>, scope: FieldMap, cs: Charset) returns (next: Cursor)
    requires Pending(data, c, fs) && |fs| > 0
    ensures Extract(data, c, None, scope, cs) == Next(Some(fs[0]), next)
    ensures Pending(data, next, fs[1..])
  {
    ExtractPending(data, c, fs, scope, cs);
    next := Extract(data, c, None, scope, cs).cursor;
  }

  /** The section a field belongs to by the built-in tag sets. */
  datatype Section = HeaderSection | BodySection | TrailerSection

  function SectionOf(tag: int): Section {
    if IsHeaderTag(tag) then HeaderSection else if IsTrailerTag(tag) then TrailerSection else BodySection
  }

  /** `m` updated, in order, with the fields of `fs` that belong to section `s`. */
  function Fold(m: map<int, string>, fs: seq<Field>, s: Section): map<int, string>
    decreases |fs|
  {
    if |fs| == 0 then m
    else Fold(if SectionOf(fs[0].tag) == s then m[fs[0].tag := fs[0].value] else m, fs[1..], s)
  }

  /** The fields of section `s` in `fs`, a later value replacing an earlier one. */
  function Collect(fs: seq<Field>, s: Section): map<int, string> {
    Fold(map[], fs, s)
  }

  lemma {:induction false} FoldAppend(m: map<int, string>, a: seq<Field>, b: seq<Field>, s: Section)
    ensures Fold(m, a + b, s) == Fold(Fold(m, a, s), b, s)
    decreases |a|
  {
    if |a| > 0 {
      assert (a + b)[1..] == a[1..] + b;
      FoldAppend(if SectionOf(a[0].tag) == s then m[a[0].tag := a[0].value] else m, a[1..], b, s);
    } else {
      assert a + b == b;
    }
  }

  lemma {:induction false} FoldSkip(m: map<int, string>, fs: seq<Field>, s: Section)
    requires forall i :: 0 <= i < |fs| ==> SectionOf(fs[i].tag) != s
    ensures Fold(m, fs, s) == m
    decreases |fs|
  {
    if |fs| > 0 {
      FoldSkip(m, fs[1..], s);
    }
  }

  /**
    What a fold keeps: a tag is present when it was in `m` or some field of the
    section carries it, and its value is that of the last such field.
   */
  lemma {:induction false} FoldKeys(m: map<int, string>, fs: seq<Field>, s: Section, t: int)
    ensures t in Fold(m, fs, s) <==> t in m || exists i :: 0 <= i < |fs| && fs[i].tag == t && SectionOf(t) == s
    decreases |fs|
  {
    if |fs| > 0 {
      FoldKeys(if SectionOf(fs[0].tag) == s then m[fs[0].tag := fs[0].value] else m, fs[1..], s, t);
      if exists i :: 0 <= i < |fs| && fs[i].tag == t && SectionOf(t) == s {
        var i :| 0 <= i < |fs| && fs[i].tag == t && SectionOf(t) == s;
        if i > 0 {
          assert fs[1..][i - 1].tag == t;
        }
      }
    }
  }

  lemma {:induction false} FoldLastWins(m: map<int, string>, fs: seq<Field>, s: Section, i: nat)
    requires i < |fs| && SectionOf(fs[i].tag) == s
    requires forall j :: i < j < |fs| ==> fs[j].tag != fs[i].tag
    ensures fs[i].tag in Fold(m, fs, s) && Fold(m, fs, s)[fs[i].tag] == fs[i].value
    decreases |fs|
  {
    if i > 0 {
      FoldLastWins(if SectionOf(fs[0].tag) == s then m[fs[0].tag := fs[0].value] else m, fs[1..], s, i - 1);
    } else {
      var m' := m[fs[0].tag := fs[0].value];
      FoldUntouched(m', fs[1..], fs[0].tag);
    }
  }

  lemma {:induction false} FoldUntouched(m: map<int, string>, fs: seq<Field>, t: int)
    requires t in m
    requires forall j :: 0 <= j < |fs| ==> fs[j].tag != t
    ensures forall s :: t in Fold(m, fs, s) && Fold(m, fs, s)[t] == m[t]
    decreases |fs|
  {
    if |fs| > 0 {
      forall s
        ensures t in Fold(m, fs, s) && Fold(m, fs, s)[t] == m[t]
      {
        var m' := if SectionOf(fs[0].tag) == s then m[fs[0].tag := fs[0].value] else m;
        FoldUntouched(m', fs[1..], t);
      }
    }
  }

  /**
    The meaning of Collect: a section holds exactly the tags of its fields in
    `fs`, each with the value of the last field that carries it.
   */
  lemma CollectMeaning(fs: seq<Field>, s: Section, i: nat)
    requires i < |fs| && SectionOf(fs[i].tag) == s
    requires forall j :: i < j < |fs| ==> fs[j].tag != fs[i].tag
    ensures fs[i].tag in Collect(fs, s) && Collect(fs, s)[fs[i].tag] == fs[i].value
    ensures forall t :: t in Collect(fs, s) <==> exists j :: 0 <= j < |fs| && fs[j].tag == t && SectionOf(t) == s
  {
    FoldLastWins(map[], fs, s, i);
    forall t
      ensures t in Collect(fs, s) <==> exists j :: 0 <= j < |fs| && fs[j].tag == t && SectionOf(t) == s
    {
      FoldKeys(map[], fs, s, t);
    }
  }

  /** The number of leading fields of `fs` with built-in header tags. */
  function HeaderRun(fs: seq<Field>): (k: nat)
    ensures k <= |fs|
    ensures forall i :: 0 <= i < k ==> IsHeaderTag(fs[i].tag)
    ensures k < |fs| ==> !IsHeaderTag(fs[k].tag)
  {
    if |fs| == 0 || !IsHeaderTag(fs[0].tag) then 0 else 1 + HeaderRun(fs[1..])
  }

  /** The number of leading fields of `fs` before the first built-in trailer tag. */
  function BodyRun(fs: seq<Field>): (k: nat)
    ensures k <= |fs|
    ensures forall i :: 0 <= i < k ==> !IsTrailerTag(fs[i].tag)
    ensures k < |fs| ==> IsTrailerTag(fs[k].tag)
  {
    if |fs| == 0 || IsTrailerTag(fs[0].tag) then 0 else 1 + BodyRun(fs[1..])
  }

  /** `rest` cut before its first built-in trailer tag. */
  lemma SplitAtTrailer(rest: seq<Field>)
    ensures var k := BodyRun(rest);
      && rest == rest[..k] + rest[k..]
      && (forall i :: 0 <= i < |rest[..k]| ==> !IsTrailerTag(rest[..k][i].tag))
      && (|rest[k..]| > 0 ==> IsTrailerTag(rest[k..][0].tag))
  {
  }

  /** One step of the header loop over a pending built-in header field, without a dictionary. */
  lemma HeaderNext(data: string, c: Cursor, fs: seq<Field>, header: FieldMap, cs: Charset) returns (next: Cursor)
    requires Pending(data, c, fs) && |fs| > 0 && IsHeaderTag(fs[0].tag)
    ensures HeaderLoop(data, c, None, header, cs) == HeaderLoop(data, next, None, Set(header, fs[0]), cs)
    ensures Pending(data, next, fs[1..])
  {
    next := NextPending(data, c, fs, header, cs);
  }

  /**
    Without a dictionary the header loop stores a leading run of header-tag
    fields, later values replacing earlier ones, and stops at the first other
    field with the rest pending.
   */
  lemma {:induction false} HeaderLoopPlain(data: string, c: Cursor, run: seq<Field>, rest: seq<Field>, header: FieldMap, cs: Charset)
    requires Pending(data, c, run + rest)
    requires forall i :: 0 <= i < |run| ==> IsHeaderTag(run[i].tag)
    requires |rest| > 0 ==> !IsHeaderTag(rest[0].tag)
    ensures var r := HeaderLoop(data, c, None, header, cs);
      && r.Done?
      && r.value == header.(fields := Fold(header.fields, run, HeaderSection))
      && Pending(data, r.cursor, rest)
    decreases |run|
  {
    if |run| > 0 {
      assert (run + rest)[1..] == run[1..] + rest;
      var next := HeaderNext(data, c, run + rest, header, cs);
      HeaderLoopPlain(data, next, run[1..], rest, Set(header, run[0]), cs);
    } else {
      assert run + rest == rest;
      ExtractPending(data, c, rest, header, cs);
    }
  }

  /** One step of the trailer loop over a trailer field. */
  lemma TrailerStep(data: string, c: Cursor, f: Field, next: Cursor, trailer: FieldMap, cs: Charset)
    requires Extract(data, c, None, trailer, cs) == Next(Some(f), next)
    requires IsTrailerTag(f.tag)
    ensures TrailerLoop(data, c, None, trailer, cs) == TrailerLoop(data, next, None, Set(trailer, f), cs)
  {
  }

  /**
    One step of the body loop over a pending field that is not a trailer field,
    without a dictionary and without validation: a repeated tag stops the loop,
    any other is stored in its section and the loop goes on.
   */
  lemma BodyNext(data: string, c: Cursor, fs: seq<Field>, parts: Parts, cs: Charset) returns (next: Cursor)
    requires Pending(data, c, fs) && |fs| > 0 && !IsTrailerTag(fs[0].tag)
    ensures Pending(data, next, fs[1..])
    ensures var f, r := fs[0], BodyLoop(data, c, None, false, parts, cs);
      && (IsHeaderTag(f.tag) && IsSet(parts.header, f.tag) ==> r.Stopped?)
      && (IsHeaderTag(f.tag) && !IsSet(parts.header, f.tag) ==>
            r == BodyLoop(data, next, None, false, Parts(Set(parts.header, f), parts.body), cs))
      && (!IsHeaderTag(f.tag) && IsSet(parts.body, f.tag) ==> r.Stopped?)
      && (!IsHeaderTag(f.tag) && !IsSet(parts.body, f.tag) ==>
            r == BodyLoop(data, next, None, false, Parts(parts.header, Set(parts.body, f)), cs))
  {
    next := NextPending(data, c, fs, parts.body, cs);
    var f, r := fs[0], BodyLoop(data, c, None, false, parts, cs);
    if IsHeaderTag(f.tag) {
      assert r == BodyHeaderField(data, c, next, f, None, false, parts, cs);
      if !IsSet(parts.header, f.tag) {
        var stored := Parts(Set(parts.header, f), parts.body);
        assert r == HeaderFieldOrder(data, c, next, f, None, false, stored, cs);
      }
    } else {
      assert r == BodyField(data, c, next, f, None, false, parts, cs);
    }
  }

  /**
    Without a dictionary and without validation the body loop never fails on a
    plain list of framed fields: it completes or stops on a repeated tag.
   */
  lemma {:induction false} BodyLoopPlain(data: string, c: Cursor, run: seq<Field>, rest: seq<Field>, parts: Parts, cs: Charset)
    requires Pending(data, c, run + rest)
    requires forall i :: 0 <= i < |run| ==> !IsTrailerTag(run[i].tag)
    requires |rest| > 0 ==> IsTrailerTag(rest[0].tag)
    ensures !BodyLoop(data, c, None, false, parts, cs).Fatal?
    decreases |run|
  {
    if |run| > 0 {
      var f := run[0];
      assert (run + rest)[1..] == run[1..] + rest;
      assert forall i :: 0 <= i < |run[1..]| ==> !IsTrailerTag(run[1..][i].tag);
      assert SectionOf(f.tag) == if IsHeaderTag(f.tag) then HeaderSection else BodySection;
      var next := BodyNext(data, c, run + rest, parts, cs);
      if IsHeaderTag(f.tag) && !IsSet(parts.header, f.tag) {
        BodyLoopPlain(data, next, run[1..], rest, Parts(Set(parts.header, f), parts.body), cs);
      } else if !IsHeaderTag(f.tag) && !IsSet(parts.body, f.tag) {
        BodyLoopPlain(data, next, run[1..], rest, Parts(parts.header, Set(parts.body, f)), cs);
      }
    } else {
      assert run + rest == rest;
      ExtractPending(data, c, rest, parts.body, cs);
    }
  }

  /**
    A completed body loop, without a dictionary and without validation, has
    stored the run of fields before the first trailer tag, header tags in the
    header and the others in the body, and stops there with the rest pending.
   */
  lemma {:induction false} BodyLoopCollects(data: string, c: Cursor, run: seq<Field>, rest: seq<Field>, parts: Parts, cs: Charset)
    requires Pending(data, c, run + rest)
    requires forall i :: 0 <= i < |run| ==> !IsTrailerTag(run[i].tag)
    requires |rest| > 0 ==> IsTrailerTag(rest[0].tag)
    ensures var r := BodyLoop(data, c, None, false, parts, cs);
      r.Done? ==>
        && r.value.header == parts.header.(fields := Fold(parts.header.fields, run, HeaderSection))
        && r.value.body == parts.body.(fields := Fold(parts.body.fields, run, BodySection))
        && Pending(data, r.cursor, rest)
    decreases |run|
  {
    if |run| > 0 {
      var f := run[0];
      assert (run + rest)[1..] == run[1..] + rest;
      assert forall i :: 0 <= i < |run[1..]| ==> !IsTrailerTag(run[1..][i].tag);
      assert SectionOf(f.tag) == if IsHeaderTag(f.tag) then HeaderSection else BodySection;
      var next := BodyNext(data, c, run + rest, parts, cs);
      if IsHeaderTag(f.tag) && !IsSet(parts.header, f.tag) {
        BodyLoopCollects(data, next, run[1..], rest, Parts(Set(parts.header, f), parts.body), cs);
      } else if !IsHeaderTag(f.tag) && !IsSet(parts.body, f.tag) {
        BodyLoopCollects(data, next, run[1..], rest, Parts(parts.header, Set(parts.body, f)), cs);
      }
    } else {
      assert run + rest == rest;
      ExtractPending(data, c, rest, parts.body, cs);
    }
  }

  /** Without a dictionary the trailer loop never fails on a plain list of framed fields. */
  lemma {:induction false} TrailerLoopPlain(data: string, c: Cursor, fs: seq<Field>, trailer: FieldMap, cs: Charset)
    requires Pending(data, c, fs)
    ensures !TrailerLoop(data, c, None, trailer, cs).Fatal?
    decreases |fs|
  {
    ExtractPending(data, c, fs, trailer, cs);
    var e := Extract(data, c, None, trailer, cs);
    if |fs| > 0 && IsTrailerTag(fs[0].tag) {
      TrailerStep(data, c, fs[0], e.cursor, trailer, cs);
      TrailerLoopPlain(data, e.cursor, fs[1..], Set(trailer, fs[0]), cs);
    }
  }

  /** Without a dictionary the trailer loop completes exactly when every pending field has a trailer tag. */
  lemma {:induction false} TrailerLoopCompletes(data: string, c: Cursor, fs: seq<Field>, trailer: FieldMap, cs: Charset)
    requires Pending(data, c, fs)
    ensures TrailerLoop(data, c, None, trailer, cs).Done? <==> forall i :: 0 <= i < |fs| ==> IsTrailerTag(fs[i].tag)
    decreases |fs|
  {
    assert forall i :: 1 <= i < |fs| ==> fs[i] == fs[1..][i - 1];
    ExtractPending(data, c, fs, trailer, cs);
    var e := Extract(data, c, None, trailer, cs);
    if |fs| > 0 && IsTrailerTag(fs[0].tag) {
      TrailerStep(data, c, fs[0], e.cursor, trailer, cs);
      TrailerLoopCompletes(data, e.cursor, fs[1..], Set(trailer, fs[0]), cs);
    }
  }

  /** A completed trailer loop holds every pending field, later values replacing earlier ones. */
  lemma {:induction false} TrailerLoopCollects(data: string, c: Cursor, fs: seq<Field>, trailer: FieldMap, cs: Charset)
    requires Pending(data, c, fs)
    ensures var r := TrailerLoop(data, c, None, trailer, cs);
      r.Done? ==> r.value == trailer.(fields := Fold(trailer.fields, fs, TrailerSection))
    decreases |fs|
  {
    if |fs| > 0 && IsTrailerTag(fs[0].tag) {
      FixedTagSets(fs[0].tag);
      assert Fold(trailer.fields, fs, TrailerSection) == Fold(Set(trailer, fs[0]).fields, fs[1..], TrailerSection);
    }
    ExtractPending(data, c, fs, trailer, cs);
    var e := Extract(data, c, None, trailer, cs);
    if |fs| > 0 && IsTrailerTag(fs[0].tag) {
      TrailerStep(data, c, fs[0], e.cursor, trailer, cs);
      TrailerLoopCollects(data, e.cursor, fs[1..], Set(trailer, fs[0]), cs);
    }
  }

  /** Without a dictionary and without validation, parseHeader is the header loop from the start of the input. */
  lemma CleanHeader(data: string, fs: seq<Field>, cs: Charset)
    requires Frames(data, 0, fs)
    ensures var h, k := ParseHeader(data, None, false, cs), HeaderRun(fs);
      && h.Done?
      && h.value == Empty.(fields := Fold(map[], fs[..k], HeaderSection))
      && Pending(data, h.cursor, fs[k..])
  {
    var k := HeaderRun(fs);
    assert fs == fs[..k] + fs[k..];
    PendingAt(data, 0, fs);
    HeaderLoopPlain(data, Start, fs[..k], fs[k..], Empty, cs);
    assert ParseHeader(data, None, false, cs) == HeaderLoop(data, Start, None, Empty, cs);
  }

  /** Every field of `fs` has a built-in trailer tag. */
  predicate AllTrailer(fs: seq<Field>) {
    forall i :: 0 <= i < |fs| ==> IsTrailerTag(fs[i].tag)
  }

  /** How the built-in sections split a list of header fields, then fields without trailer tags, then trailer fields. */
  lemma CollectSplit(a: seq<Field>, mid: seq<Field>, tail: seq<Field>)
    requires forall i :: 0 <= i < |a| ==> IsHeaderTag(a[i].tag)
    requires forall i :: 0 <= i < |mid| ==> !IsTrailerTag(mid[i].tag)
    requires AllTrailer(tail)
    ensures Collect(a + mid + tail, HeaderSection) == Fold(Fold(map[], a, HeaderSection), mid, HeaderSection)
    ensures Collect(a + mid + tail, BodySection) == Fold(map[], mid, BodySection)
    ensures Collect(a + mid + tail, TrailerSection) == Fold(map[], tail, TrailerSection)
  {
    forall s: Section
      ensures Collect(a + mid + tail, s) == Fold(Fold(Fold(map[], a, s), mid, s), tail, s)
    {
      FoldAppend(map[], a + mid, tail, s);
      FoldAppend(map[], a, mid, s);
    }
    forall i | 0 <= i < |tail|
      ensures SectionOf(tail[i].tag) == TrailerSection
    {
      FixedTagSets(tail[i].tag);
    }
    FoldSkip(Fold(Fold(map[], a, HeaderSection), mid, HeaderSection), tail, HeaderSection);
    FoldSkip(map[], a, BodySection);
    FoldSkip(Fold(map[], mid, BodySection), tail, BodySection);
    FoldSkip(map[], a, TrailerSection);
    FoldSkip(map[], mid, TrailerSection);
  }

  /** Without a dictionary and without validation the trailer loop over pending fields completes exactly on trailer fields and then holds them. */
  lemma CleanTrailer(data: string, c: Cursor, tail: seq<Field>, cs: Charset)
    requires Pending(data, c, tail)
    ensures var t := TrailerLoop(data, c, None, Empty, cs);
      && !t.Fatal?
      && (t.Done? ==>
            && t.value == Empty.(fields := Fold(map[], tail, TrailerSection))
            && AllTrailer(tail))
  {
    TrailerLoopPlain(data, c, tail, Empty, cs);
    TrailerLoopCollects(data, c, tail, Empty, cs);
    TrailerLoopCompletes(data, c, tail, Empty, cs);
  }

  /** Without dictionaries and without validation, no phase of parse fails outright. */
  ghost predicate PhasesSucceed(data: string, cs: Charset) {
    var h := ParseHeader(data, None, false, cs);
    && h.Done?
    && var b := BodyLoop(data, h.cursor, None, false, Parts(h.value, Empty), cs);
    && !b.Fatal?
    && (b.Done? ==> !TrailerLoop(data, b.cursor, None, Empty, cs).Fatal?)
  }

  /**
    From `c`, with `header` read so far, when the body loop and then the trailer
    loop both complete, the three sections hold the given fields.
   */
  ghost predicate RestHolds(data: string, c: Cursor, header: FieldMap, hf: map<int, string>, bf: map<int, string>,
                            tf: map<int, string>, cs: Charset) {
    var b := BodyLoop(data, c, None, false, Parts(header, Empty), cs);
    b.Done? && TrailerLoop(data, b.cursor, None, Empty, cs).Done? ==>
      && b.value.header == Empty.(fields := hf)
      && b.value.body == Empty.(fields := bf)
      && TrailerLoop(data, b.cursor, None, Empty, cs).value == Empty.(fields := tf)
  }

  /** Without dictionaries and without validation, the phases of parse that complete hold the given fields. */
  ghost predicate PhasesHold(data: string, cs: Charset, hf: map<int, string>, bf: map<int, string>, tf: map<int, string>) {
    var h := ParseHeader(data, None, false, cs);
    h.Done? && RestHolds(data, h.cursor, h.value, hf, bf, tf, cs)
  }

  lemma SucceedsFromPhases(data: string, cs: Charset)
    requires PhasesSucceed(data, cs)
    ensures ParseSections(data, None, None, false, cs).Success?
  {
  }

  lemma HoldsFromPhases(data: string, cs: Charset, header: map<int, string>, body: map<int, string>, trailer: map<int, string>)
    requires PhasesHold(data, cs, header, body, trailer)
    ensures var r := ParseSections(data, None, None, false, cs);
      r.Success? && r.msg.exception.None? ==>
        && r.msg.header == Empty.(fields := header)
        && r.msg.body == Empty.(fields := body)
        && r.msg.trailer == Empty.(fields := trailer)
  {
  }

  /** Over a plain list of framed fields, without dictionaries and without validation, no phase fails outright. */
  lemma {:induction false} PlainPhasesSucceed(data: string, fs: seq<Field>, cs: Charset)
    requires Frames(data, 0, fs)
    ensures PhasesSucceed(data, cs)
  {
    var k := HeaderRun(fs);
    var rest := fs[k..];
    var k2 := BodyRun(rest);
    var mid, tail := rest[..k2], rest[k2..];
    SplitAtTrailer(rest);
    CleanHeader(data, fs, cs);
    var h := ParseHeader(data, None, false, cs);
    BodyLoopPlain(data, h.cursor, mid, tail, Parts(h.value, Empty), cs);
    BodyLoopCollects(data, h.cursor, mid, tail, Parts(h.value, Empty), cs);
    var b := BodyLoop(data, h.cursor, None, false, Parts(h.value, Empty), cs);
    if b.Done? {
      CleanTrailer(data, b.cursor, tail, cs);
    }
  }

  /** How the built-in sections split a header run followed by the rest, when the rest ends in trailer fields only. */
  lemma CollectRest(a: seq<Field>, mid: seq<Field>, tail: seq<Field>)
    requires forall i :: 0 <= i < |a| ==> IsHeaderTag(a[i].tag)
    requires forall i :: 0 <= i < |mid| ==> !IsTrailerTag(mid[i].tag)
    ensures AllTrailer(tail) ==>
      && Collect(a + (mid + tail), HeaderSection) == Fold(Fold(map[], a, HeaderSection), mid, HeaderSection)
      && Collect(a + (mid + tail), BodySection) == Fold(map[], mid, BodySection)
      && Collect(a + (mid + tail), TrailerSection) == Fold(map[], tail, TrailerSection)
  {
    if AllTrailer(tail) {
      assert a + (mid + tail) == a + mid + tail;
      CollectSplit(a, mid, tail);
    }
  }

  /** From `c`, when the trailer loop completes it holds the fields of `tail`, all of them trailer fields. */
  ghost predicate TrailerHolds(data: string, c: Cursor, tail: seq<Field>, cs: Charset) {
    var t := TrailerLoop(data, c, None, Empty, cs);
    t.Done? ==> t.value == Empty.(fields := Fold(map[], tail, TrailerSection)) && AllTrailer(tail)
  }

  /** The body loop over a run without trailer tags, then the trailer loop over the rest. */
  lemma BodyThenTrailer(data: string, c: Cursor, mid: seq<Field>, tail: seq<Field>, header: FieldMap, cs: Charset)
    requires Pending(data, c, mid + tail)
    requires forall i :: 0 <= i < |mid| ==> !IsTrailerTag(mid[i].tag)
    requires |tail| > 0 ==> IsTrailerTag(tail[0].tag)
    ensures var b := BodyLoop(data, c, None, false, Parts(header, Empty), cs);
      b.Done? ==>
        && b.value.header == header.(fields := Fold(header.fields, mid, HeaderSection))
        && b.value.body == Empty.(fields := Fold(map[], mid, BodySection))
        && TrailerHolds(data, b.cursor, tail, cs)
  {
    BodyLoopCollects(data, c, mid, tail, Parts(header, Empty), cs);
    var b := BodyLoop(data, c, None, false, Parts(header, Empty), cs);
    if b.Done? {
      CleanTrailer(data, b.cursor, tail, cs);
    }
  }

  /** After a header run `a`, the body and trailer loops over the pending framed fields hold the fields of their sections. */
  lemma RestCollects(data: string, c: Cursor, a: seq<Field>, rest: seq<Field>, cs: Charset)
    requires Pending(data, c, rest)
    requires forall i :: 0 <= i < |a| ==> IsHeaderTag(a[i].tag)
    ensures RestHolds(data, c, Empty.(fields := Fold(map[], a, HeaderSection)),
                      Collect(a + rest, HeaderSection), Collect(a + rest, BodySection), Collect(a + rest, TrailerSection), cs)
  {
    var k := BodyRun(rest);
    var mid, tail := rest[..k], rest[k..];
    SplitAtTrailer(rest);
    CollectRest(a, mid, tail);
    BodyThenTrailer(data, c, mid, tail, Empty.(fields := Fold(map[], a, HeaderSection)), cs);
  }

  /** Over a plain list of framed fields, the phases of parse that complete hold the fields of their sections. */
  lemma PlainPhasesHold(data: string, fs: seq<Field>, cs: Charset)
    requires Frames(data, 0, fs)
    ensures PhasesHold(data, cs, Collect(fs, HeaderSection), Collect(fs, BodySection), Collect(fs, TrailerSection))
  {
    var k := HeaderRun(fs);
    var a, rest := fs[..k], fs[k..];
    assert fs == a + rest;
    assert forall i :: 0 <= i < |a| ==> IsHeaderTag(a[i].tag);
    CleanHeader(data, fs, cs);
    var h := ParseHeader(data, None, false, cs);
    RestCollects(data, h.cursor, a, rest, cs);
  }

  /** A message that is a plain list of framed fields parses without dictionaries and without validation. */
  lemma CleanParseSucceeds(data: string, fs: seq<Field>, cs: Charset)
    requires Frames(data, 0, fs)
    ensures ParseSections(data, None, None, false, cs).Success?
  {
    PlainPhasesSucceed(data, fs, cs);
    SucceedsFromPhases(data, cs);
  }

  /**
    When a clean parse of a plain list of framed fields recorded no structural
    violation, each section holds exactly the fields of that list that belong to
    it, each tag with the last value given for it, and no groups.
   */
  lemma CleanParseCollectsFields(data: string, fs: seq<Field>, cs: Charset)
    requires Frames(data, 0, fs)
    ensures var r := ParseSections(data, None, None, false, cs);
      r.Success? && r.msg.exception.None? ==>
        && r.msg.header == Empty.(fields := Collect(fs, HeaderSection))
        && r.msg.body == Empty.(fields := Collect(fs, BodySection))
        && r.msg.trailer == Empty.(fields := Collect(fs, TrailerSection))
  {
    PlainPhasesHold(data, fs, cs);
    HoldsFromPhases(data, cs, Collect(fs, HeaderSection), Collect(fs, BodySection), Collect(fs, TrailerSection));
  }
}
