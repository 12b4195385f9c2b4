/**
  Which items of the navigation tree a menu shows, item by item: told by what stands
  before and behind an item, not by the loop.
*/
module MenuMeaning {
  import opened NavigationMenu

  /** The reader is in one of the item's groups, and the item is a header, a divider or a link that may be followed. */
  ghost predicate ForReader(item: Item, groups: seq<int>, destination: Judge) {
    match item.visibility
    case Unreadable => false
    case Restricted(allowed) => exists id <- allowed :: id in groups && Usable(item, destination)
    case All => Usable(item, destination)
  }

  ghost predicate Usable(item: Item, destination: Judge) {
    match item.kind
    case Link => destination(item.targetType, item.target) != ""
    case Header => true
    case Divider => true
    case Unknown(_) => false
  }

  lemma TakesPartMeaning(item: Item, groups: seq<int>, destination: Judge)
    ensures TakesPart(item, groups, destination) <==> ForReader(item, groups, destination)
  {
  }

  /** Only headers without a link of their own stand between a link and item `i`. */
  ghost predicate FollowsLink(v: seq<Item>, i: nat)
    requires i <= |v|
  {
    exists l :: 0 <= l < i && v[l].kind.Link? && BareHeaders(v, l + 1, i)
  }

  ghost predicate BareHeaders(v: seq<Item>, from: nat, to: nat)
    requires to <= |v|
  {
    forall k :: from <= k < to ==> v[k].kind.Header? && !LinkBeforeNextHeader(v, k)
  }

  ghost predicate LinkBehind(v: seq<Item>, i: int) {
    exists l :: i < l < |v| && 0 <= l && v[l].kind.Link?
  }

  /** A link stays, a header with a link before the next header, and a divider between a link and what is still to come. */
  ghost predicate Stays(v: seq<Item>, i: nat)
    requires i < |v|
  {
    match v[i].kind
    case Header => LinkBeforeNextHeader(v, i)
    case Divider => FollowsLink(v, i) && LinkBehind(v, i)
    case _ => true
  }

  ghost function StayingFrom(v: seq<Item>, n: nat): (at: seq<nat>)
    requires n <= |v|
    ensures forall j :: 0 <= j < |at| ==> n <= at[j] < |v|
    decreases |v| - n
  {
    if n == |v| then [] else (if Stays(v, n) then [n] else []) + StayingFrom(v, n + 1)
  }

  /** The kind of the last item before `n` that stays. */
  ghost function KindBefore(v: seq<Item>, n: nat): Kind
    requires n <= |v|
  {
    if n == 0 then Divider else if Stays(v, n - 1) then v[n - 1].kind else KindBefore(v, n - 1)
  }

  ghost function ItemsAt(v: seq<Item>, at: seq<nat>): seq<Item>
    requires forall j :: 0 <= j < |at| ==> at[j] < |v|
  {
    seq(|at|, j requires 0 <= j < |at| => v[at[j]])
  }

  lemma BehindIsSome(v: seq<Item>, n: nat)
    requires n < |v|
    ensures LinkBehind(v, n) <==> SomeLink(v[n + 1..])
  {
    var more := v[n + 1..];
    if l :| n < l < |v| && v[l].kind.Link? { assert more[l - n - 1].kind.Link?; }
    if l :| 0 <= l < |more| && more[l].kind.Link? { assert v[l + n + 1].kind.Link?; }
  }

  lemma FollowsStep(v: seq<Item>, n: nat)
    requires 0 < n <= |v|
    ensures FollowsLink(v, n) <==>
              v[n - 1].kind.Link? || (v[n - 1].kind.Header? && !LinkBeforeNextHeader(v, n - 1) && FollowsLink(v, n - 1))
  {
    hide LinkBeforeNextHeader;
    if v[n - 1].kind.Link? { assert BareHeaders(v, n, n); }
    if FollowsLink(v, n) && !v[n - 1].kind.Link? {
      var l :| 0 <= l < n && v[l].kind.Link? && BareHeaders(v, l + 1, n);
      assert BareHeaders(v, l + 1, n - 1);
    }
    if v[n - 1].kind.Header? && !LinkBeforeNextHeader(v, n - 1) && FollowsLink(v, n - 1) {
      var l :| 0 <= l < n - 1 && v[l].kind.Link? && BareHeaders(v, l + 1, n - 1);
      assert BareHeaders(v, l + 1, n);
    }
  }

  /** While links are still to come, the last staying item is a link exactly where a divider would follow one. */
  lemma {:induction false} LastStays(v: seq<Item>, n: nat)
    requires Known(v) && n <= |v| && LinkBehind(v, n - 1)
    ensures KindBefore(v, n).Link? <==> FollowsLink(v, n)
  {
    if n > 0 {
      BehindEarlier(v, n);
      LastStays(v, n - 1);
      FollowsStep(v, n);
      assert v[n - 1] in v;
      hide LinkBeforeNextHeader, FollowsLink, LinkBehind;
    }
  }

  lemma BehindEarlier(v: seq<Item>, n: nat)
    requires 0 < n <= |v| && LinkBehind(v, n - 1)
    ensures LinkBehind(v, n - 2)
  {
    var l :| n - 1 < l < |v| && v[l].kind.Link?;
  }

  lemma {:induction false} ReduceMeaning(v: seq<Item>, n: nat)
    requires Known(v) && n <= |v|
    ensures Reduce(KindBefore(v, n), v[n..]) == ItemsAt(v, StayingFrom(v, n))
    decreases |v| - n
  {
    hide LinkAhead, SomeLink, Stays, LinkBeforeNextHeader;
    if n < |v| {
      var item, more := v[n], v[n + 1..];
      ReduceMeaning(v, n + 1);
      assert v[n..][0] == item && v[n..][1..] == more;
      DecisionsAgree(v, n);
      assert ItemsAt(v, [n] + StayingFrom(v, n + 1)) == [item] + ItemsAt(v, StayingFrom(v, n + 1));
      assert [] + StayingFrom(v, n + 1) == StayingFrom(v, n + 1);
    }
  }

  lemma DecisionsAgree(v: seq<Item>, n: nat)
    requires Known(v) && n < |v|
    ensures Stays(v, n) <==>
              if v[n].kind.Header? then LinkAhead(v[n + 1..])
              else if v[n].kind.Divider? then KindBefore(v, n).Link? && SomeLink(v[n + 1..])
              else true
  {
    hide LinkAhead, SomeLink, KindBefore, FollowsLink;
    assert v[n] in v;
    HeaderWhere(v, n);
    BehindIsSome(v, n);
    if v[n].kind.Divider? && LinkBehind(v, n) {
      var l :| n < l < |v| && v[l].kind.Link?;
      assert LinkBehind(v, n - 1);
      LastStays(v, n);
    }
  }

  ghost predicate MineAt(items: seq<Item>, groups: seq<int>, destination: Judge, i: nat)
    requires i < |items|
  {
    ForReader(items[i], groups, destination)
  }

  /** The places of `items` in which the reader has a part, in order. */
  ghost function ForReaderFrom(items: seq<Item>, groups: seq<int>, destination: Judge, n: nat): (at: seq<nat>)
    requires n <= |items|
    ensures forall j :: 0 <= j < |at| ==> n <= at[j] < |items|
    decreases |items| - n
  {
    if n == |items| then []
    else (if MineAt(items, groups, destination, n) then [n] else []) + ForReaderFrom(items, groups, destination, n + 1)
  }

  lemma {:induction false} ParticipantsMeaning(items: seq<Item>, groups: seq<int>, destination: Judge, n: nat)
    requires n <= |items|
    ensures Participants(items[n..], groups, destination) == ItemsAt(items, ForReaderFrom(items, groups, destination, n))
    decreases |items| - n
  {
    if n < |items| {
      hide TakesPart, ForReader;
      var rest := ForReaderFrom(items, groups, destination, n + 1);
      ParticipantsMeaning(items, groups, destination, n + 1);
      TakesPartMeaning(items[n], groups, destination);
      assert items[n..][0] == items[n] && items[n..][1..] == items[n + 1..];
      assert ItemsAt(items, [n] + rest) == [items[n]] + ItemsAt(items, rest);
      assert [] + rest == rest;
    }
  }

  ghost predicate Rising(at: seq<nat>) {
    forall i, j :: 0 <= i < j < |at| ==> at[i] < at[j]
  }

  lemma RisingCons(n: nat, rest: seq<nat>)
    requires Rising(rest) && forall j :: 0 <= j < |rest| ==> n < rest[j]
    ensures Rising([n] + rest)
  {
  }

  lemma {:induction false} StayingRises(v: seq<Item>, n: nat)
    requires n <= |v|
    ensures Rising(StayingFrom(v, n)) && forall i: nat :: i in StayingFrom(v, n) <==> n <= i < |v| && Stays(v, i)
    decreases |v| - n
  {
    hide Stays, Rising;
    if n < |v| {
      StayingRises(v, n + 1);
      RisingCons(n, StayingFrom(v, n + 1));
      assert [] + StayingFrom(v, n + 1) == StayingFrom(v, n + 1);
    } else {
      NothingRises();
    }
  }

  lemma NothingRises()
    ensures Rising([])
  {
  }

  lemma {:induction false} ForReaderRises(items: seq<Item>, groups: seq<int>, destination: Judge, n: nat)
    requires n <= |items|
    ensures var at := ForReaderFrom(items, groups, destination, n);
            Rising(at) && forall i: nat :: i in at <==> n <= i < |items| && MineAt(items, groups, destination, i)
    decreases |items| - n
  {
    hide MineAt, Rising;
    if n < |items| {
      ForReaderRises(items, groups, destination, n + 1);
      RisingCons(n, ForReaderFrom(items, groups, destination, n + 1));
      assert [] + ForReaderFrom(items, groups, destination, n + 1) == ForReaderFrom(items, groups, destination, n + 1);
    } else {
      NothingRises();
    }
  }

  /**
    The menu is, in the order of the tree, the items that stay among those for the reader; where an item stays depends
    on the items for the reader alone.
  */
  lemma MenuExactly(items: seq<Item>, groups: seq<int>, destination: Judge) returns (mine: seq<nat>, shown: seq<nat>)
    ensures Rising(mine) && (forall j :: 0 <= j < |mine| ==> mine[j] < |items|)
    ensures forall i: nat :: i in mine <==> i < |items| && MineAt(items, groups, destination, i)
    ensures Rising(shown) && (forall j :: 0 <= j < |shown| ==> shown[j] < |mine|)
    ensures forall j: nat :: j in shown <==> j < |mine| && Stays(ItemsAt(items, mine), j)
    ensures Menu(items, groups, destination) == ItemsAt(ItemsAt(items, mine), shown)
  {
    hide Stays, MineAt, Reduce, Participants;
    mine := ForReaderFrom(items, groups, destination, 0);
    ForReaderRises(items, groups, destination, 0);
    ParticipantsMeaning(items, groups, destination, 0);
    assert items[0..] == items;
    var v := ItemsAt(items, mine);
    ParticipantsKnown(items, groups, destination);
    shown := StayingFrom(v, 0);
    StayingRises(v, 0);
    ReduceMeaning(v, 0);
    assert v[0..] == v;
  }
}
