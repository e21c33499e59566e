/**
  reverseRoute: preparing the header of a reply from the header of the message
  being answered.  The sender and target identities trade places, and so do
  OnBehalfOf and DeliverTo; the location pair is carried only from FIX.4.1 on.
  Other header fields of the reply are left alone.
 */
module Routing {
  import opened JavaText
  import opened FieldMaps
  import opened FieldTags

  /** The earliest version whose headers carry OnBehalfOfLocationID and DeliverToLocationID. */
  const BeginStringFix41: string := "FIX.4.1"

  /** The fields reverseRoute always clears from the reply header. */
  const AlwaysCleared: set<int> :=
    {BeginString, SenderCompID, SenderSubID, SenderLocationID, TargetCompID, TargetSubID, TargetLocationID}

  /** Every field reverseRoute may write: the identities above plus OnBehalfOf and DeliverTo. */
  const RouteTags: set<int> :=
    AlwaysCleared + {OnBehalfOfCompID, OnBehalfOfSubID, DeliverToCompID, DeliverToSubID, OnBehalfOfLocationID, DeliverToLocationID}

  /** The field of the original header whose value lands in `t` of the reply. */
  function Counterpart(t: int): int {
    if t == SenderCompID then TargetCompID
    else if t == TargetCompID then SenderCompID
    else if t == SenderSubID then TargetSubID
    else if t == TargetSubID then SenderSubID
    else if t == SenderLocationID then TargetLocationID
    else if t == TargetLocationID then SenderLocationID
    else if t == OnBehalfOfCompID then DeliverToCompID
    else if t == DeliverToCompID then OnBehalfOfCompID
    else if t == OnBehalfOfSubID then DeliverToSubID
    else if t == DeliverToSubID then OnBehalfOfSubID
    else if t == OnBehalfOfLocationID then DeliverToLocationID
    else if t == DeliverToLocationID then OnBehalfOfLocationID
    else t
  }

  /** Swapping twice is the identity, and routing tags swap among themselves. */
  lemma CounterpartInvolution(t: int)
    ensures Counterpart(Counterpart(t)) == t
    ensures t in RouteTags <==> Counterpart(t) in RouteTags
    ensures t in AlwaysCleared <==> Counterpart(t) in AlwaysCleared
  {
  }

  /** Under BeginString `version`, reverseRoute carries tag `t` into the reply. */
  predicate Carried(version: string, t: int) {
    && t in RouteTags
    && (t == OnBehalfOfLocationID || t == DeliverToLocationID ==> CompareTo(version, BeginStringFix41) >= 0)
  }

  /** `t` is set in `m` with a non-empty value: what copyField needs to copy it. */
  predicate Present(m: map<int, string>, t: int) {
    t in m && |m[t]| > 0
  }

  /**
    Reference definition of the reply header's fields: every field reverseRoute
    clears is dropped; when the original header has a BeginString, each carried
    routing field takes the non-empty value of its counterpart.
   */
  function ReversedFields(dst: map<int, string>, src: map<int, string>): (r: map<int, string>)
    ensures forall t :: t !in RouteTags ==> (t in r <==> t in dst) && (t in r ==> r[t] == dst[t])
    ensures BeginString !in src ==>
      forall t :: t in RouteTags ==>
        && (t in AlwaysCleared ==> t !in r)
        && (t !in AlwaysCleared ==> (t in r <==> t in dst) && (t in r ==> r[t] == dst[t]))
    ensures BeginString in src ==>
      forall t :: t in RouteTags ==>
        && (t in r <==> Carried(src[BeginString], t) && Present(src, Counterpart(t)))
        && (t in r ==> r[t] == src[Counterpart(t)])
  {
    var cleared := if BeginString in src then RouteTags else AlwaysCleared;
    var kept := map t | t in dst && t !in cleared :: dst[t];
    if BeginString !in src then kept
    else
      var version := src[BeginString];
      var mirrored := map t | t in RouteTags && Carried(version, t) && Present(src, Counterpart(t)) :: src[Counterpart(t)];
      kept + mirrored
  }

  /** copyField: `to` takes the value of `from` in `source`, when that is set and non-empty. */
  function CopyField(target: FieldMap, source: FieldMap, from: int, to: int): (r: FieldMap)
    ensures Present(source.fields, from) ==> r.fields == target.fields[to := source.fields[from]]
    ensures !Present(source.fields, from) ==> r == target
    ensures r.groups == target.groups && r.counts == target.counts
  {
    if IsSet(source, from) && |source.fields[from]| > 0 then Set(target, Field(to, source.fields[from]))
    else target
  }

  /** removeField for each of `tags` in turn. */
  function ClearAll(m: FieldMap, tags: seq<int>): (r: FieldMap)
    ensures r.fields == m.fields - (set t | t in tags)
    ensures r.groups == m.groups && r.counts == m.counts
    decreases |tags|
  {
    if |tags| == 0 then m
    else
      var r := ClearAll(Remove(m, tags[0]), tags[1..]);
      assert (set t | t in tags) == {tags[0]} + (set t | t in tags[1..]);
      r
  }

  /** The values copyField brings into each of `targets`: the non-empty values of their counterparts in `source`. */
  function Copied(source: map<int, string>, targets: set<int>): map<int, string> {
    map t | t in targets && Present(source, Counterpart(t)) :: source[Counterpart(t)]
  }

  /** copyField into each of `targets` in turn, each from its counterpart. */
  function CopyAll(m: FieldMap, source: FieldMap, targets: seq<int>): (r: FieldMap)
    ensures r.fields == m.fields + Copied(source.fields, set t | t in targets)
    ensures r.groups == m.groups && r.counts == m.counts
    decreases |targets|
  {
    if |targets| == 0 then
      assert Copied(source.fields, set t | t in targets) == map[];
      m
    else
      var m1 := CopyField(m, source, Counterpart(targets[0]), targets[0]);
      var r := CopyAll(m1, source, targets[1..]);
      CopyFirst(m.fields, m1.fields, source.fields, targets);
      r
  }

  /** Copying the first target and then the rest is copying them all. */
  lemma CopyFirst(m: map<int, string>, m1: map<int, string>, source: map<int, string>, targets: seq<int>)
    requires |targets| > 0
    requires var t := targets[0];
      m1 == if Present(source, Counterpart(t)) then m[t := source[Counterpart(t)]] else m
    ensures m1 + Copied(source, set t | t in targets[1..]) == m + Copied(source, set t | t in targets)
  {
    var a := m1 + Copied(source, set t | t in targets[1..]);
    var b := m + Copied(source, set t | t in targets);
    forall u
      ensures u in a <==> u in b
      ensures u in a ==> a[u] == b[u]
    {
      assert u in targets <==> u == targets[0] || u in targets[1..];
    }
  }

  /** The seven fields cleared whatever the original header holds, in the order of the source. */
  const FirstCleared: seq<int> :=
    [BeginString, SenderCompID, SenderSubID, SenderLocationID, TargetCompID, TargetSubID, TargetLocationID]

  /** The targets of the first copies, in the order of the source: BeginString, then the target side, then the sender side. */
  const IdentityTargets: seq<int> :=
    [BeginString, TargetCompID, TargetSubID, TargetLocationID, SenderCompID, SenderSubID, SenderLocationID]

  /** The OnBehalfOf and DeliverTo company and sub identifiers. */
  const OnBehalfTags: seq<int> := [OnBehalfOfCompID, OnBehalfOfSubID, DeliverToCompID, DeliverToSubID]

  /** The targets of the OnBehalfOf/DeliverTo copies, in the order of the source. */
  const OnBehalfTargets: seq<int> := [DeliverToCompID, DeliverToSubID, OnBehalfOfCompID, OnBehalfOfSubID]

  /** The location identifiers, cleared and then, from FIX.4.1 on, swapped. */
  const LocationTags: seq<int> := [OnBehalfOfLocationID, DeliverToLocationID]

  /** The targets of the location copies, in the order of the source. */
  const LocationTargets: seq<int> := [DeliverToLocationID, OnBehalfOfLocationID]

  /**
    reverseRoute: the reply header `dst` after reversing the route of `src`, the
    header of the message being answered.
   */
  function ReverseRoute(dst: FieldMap, src: FieldMap): (r: FieldMap)
    ensures r.fields == ReversedFields(dst.fields, src.fields)
    ensures r.groups == dst.groups && r.counts == dst.counts
  {
    var h0 := ClearAll(dst, FirstCleared);
    if !IsSet(src, BeginString) then
      ClearedFirst(dst.fields, src.fields);
      h0
    else
      var h1 := CopyAll(h0, src, IdentityTargets);
      var h2 := ClearAll(h1, OnBehalfTags);
      var h3 := CopyAll(h2, src, OnBehalfTargets);
      var h4 := ClearAll(h3, LocationTags);
      var carry := CompareTo(src.fields[BeginString], BeginStringFix41) >= 0;
      var r := if carry then CopyAll(h4, src, LocationTargets) else h4;
      TagLists();
      assert r.fields == Stages(dst.fields, src.fields, carry);
      ReversedInStages(dst.fields, src.fields, carry);
      r
  }

  /** Without a BeginString in the original header, only the first seven fields are cleared. */
  lemma ClearedFirst(dst: map<int, string>, src: map<int, string>)
    requires BeginString !in src
    ensures dst - (set t | t in FirstCleared) == ReversedFields(dst, src)
  {
    assert (set t | t in FirstCleared) == AlwaysCleared;
  }

  /** With a BeginString, the stages of reverseRoute compose to the reference. */
  lemma ReversedInStages(dst: map<int, string>, src: map<int, string>, carry: bool)
    requires BeginString in src
    requires carry <==> CompareTo(src[BeginString], BeginStringFix41) >= 0
    ensures Stages(dst, src, carry) == ReversedFields(dst, src)
  {
    var r := Stages(dst, src, carry);
    var e := ReversedFields(dst, src);
    forall t
      ensures t in r <==> t in e
      ensures t in r ==> r[t] == e[t]
    {
      StagesAt(dst, src, carry, t);
    }
  }

  /** Each stage clears and fills the same tags. */
  lemma TagLists()
    ensures (set t | t in FirstCleared) == AlwaysCleared
    ensures (set t | t in IdentityTargets) == AlwaysCleared
    ensures (set t | t in OnBehalfTags) == OnBehalfSet
    ensures (set t | t in OnBehalfTargets) == OnBehalfSet
    ensures (set t | t in LocationTags) == {OnBehalfOfLocationID, DeliverToLocationID}
    ensures (set t | t in LocationTargets) == {OnBehalfOfLocationID, DeliverToLocationID}
  {
  }

  /** The fields after the stages of reverseRoute, as map operations. */
  function Stages(dst: map<int, string>, src: map<int, string>, carry: bool): map<int, string> {
    var locations := {OnBehalfOfLocationID, DeliverToLocationID};
    var h1 := dst - AlwaysCleared + Copied(src, AlwaysCleared);
    var h3 := h1 - OnBehalfSet + Copied(src, OnBehalfSet);
    var h4 := h3 - locations;
    if carry then h4 + Copied(src, locations) else h4
  }

  /** The OnBehalfOf and DeliverTo company and sub identifiers, as a set. */
  const OnBehalfSet: set<int> := {OnBehalfOfCompID, OnBehalfOfSubID, DeliverToCompID, DeliverToSubID}

  /** One tag of the staged fields agrees with the reference. */
  lemma StagesAt(dst: map<int, string>, src: map<int, string>, carry: bool, t: int)
    requires BeginString in src
    requires carry <==> CompareTo(src[BeginString], BeginStringFix41) >= 0
    ensures var r := Stages(dst, src, carry); var e := ReversedFields(dst, src);
      (t in r <==> t in e) && (t in r ==> r[t] == e[t])
  {
    CounterpartInvolution(t);
  }

  /**
    Reversing the route of a reply restores the route of the original message:
    every routing field of the original that has a value comes back unchanged,
    except the location pair before FIX.4.1.
   */
  lemma {:induction false} ReverseTwice(d1: FieldMap, d2: FieldMap, h: FieldMap)
    requires Present(h.fields, BeginString)
    ensures var back := ReverseRoute(d2, ReverseRoute(d1, h));
      forall t :: t in RouteTags ==>
        && (t in back.fields <==> Carried(h.fields[BeginString], t) && Present(h.fields, t))
        && (t in back.fields ==> back.fields[t] == h.fields[t])
  {
    var reply := ReverseRoute(d1, h);
    var back := ReverseRoute(d2, reply);
    forall t | t in RouteTags
      ensures t in back.fields <==> Carried(h.fields[BeginString], t) && Present(h.fields, t)
      ensures t in back.fields ==> back.fields[t] == h.fields[t]
    {
      TwiceAt(d1.fields, d2.fields, h.fields, t);
    }
  }

  /** ReverseTwice at one routing tag, on the reference. */
  lemma TwiceAt(d1: map<int, string>, d2: map<int, string>, h: map<int, string>, t: int)
    requires Present(h, BeginString) && t in RouteTags
    ensures var back := ReversedFields(d2, ReversedFields(d1, h));
      && (t in back <==> Carried(h[BeginString], t) && Present(h, t))
      && (t in back ==> back[t] == h[t])
  {
    CounterpartInvolution(t);
    ReplyAt(d1, h, Counterpart(t));
    BackAt(d2, ReversedFields(d1, h), t);
  }

  /** The reply carries the BeginString, and its field `u` takes the value of the original's counterpart. */
  lemma ReplyAt(d1: map<int, string>, h: map<int, string>, u: int)
    requires Present(h, BeginString) && u in RouteTags
    ensures var reply := ReversedFields(d1, h);
      && BeginString in reply && reply[BeginString] == h[BeginString]
      && (Present(reply, u) <==> Carried(h[BeginString], u) && Present(h, Counterpart(u)))
      && (u in reply ==> reply[u] == h[Counterpart(u)])
  {
    assert BeginString in AlwaysCleared && Counterpart(BeginString) == BeginString;
    assert Carried(h[BeginString], BeginString);
  }

  /** One more reversal: `t` of the result comes from the counterpart of `t` in `reply`. */
  lemma BackAt(d2: map<int, string>, reply: map<int, string>, t: int)
    requires BeginString in reply && t in RouteTags
    ensures var back := ReversedFields(d2, reply);
      && (t in back <==> Carried(reply[BeginString], t) && Present(reply, Counterpart(t)))
      && (t in back ==> back[t] == reply[Counterpart(t)])
  {
  }
}
