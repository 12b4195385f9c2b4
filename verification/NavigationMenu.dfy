/**
  The navigation menu a reader sees. Judging a link's address is a parameter (`destination`):
  the empty string means that the address is refused.
*/
module NavigationMenu {

  datatype Kind = Link | Header | Divider | Unknown(name: string)

  datatype Visibility = All | Restricted(groups: seq<int>) | Unreadable

  datatype Item = Item(id: string, kind: Kind, targetType: string, target: string, visibility: Visibility)

  type Judge = (string, string) -> string

  // ----- which items take part

  predicate Visible(item: Item, groups: seq<int>) {
    item.visibility.All? || (item.visibility.Restricted? && exists id :: id in item.visibility.groups && id in groups)
  }

  predicate TakesPart(item: Item, groups: seq<int>, destination: Judge) {
    Visible(item, groups) &&
    (item.kind.Header? || item.kind.Divider? || (item.kind.Link? && destination(item.targetType, item.target) != ""))
  }

  function Participants(items: seq<Item>, groups: seq<int>, destination: Judge): seq<Item> {
    if items == [] then []
    else (if TakesPart(items[0], groups, destination) then [items[0]] else []) + Participants(items[1..], groups, destination)
  }

  // ----- the menu

  predicate SomeLink(s: seq<Item>) {
    exists i :: 0 <= i < |s| && s[i].kind.Link?
  }

  /** A link before the next header. */
  predicate LinkAhead(s: seq<Item>) {
    s != [] && !s[0].kind.Header? && (s[0].kind.Link? || LinkAhead(s[1..]))
  }

  /** What is left of `rest` in a menu that so far ends in an item of kind `previous`. */
  function Reduce(previous: Kind, rest: seq<Item>): seq<Item>
    decreases |rest|
  {
    if rest == [] then []
    else
      var item, more := rest[0], rest[1..];
      var kept :=
        if item.kind.Header? then LinkAhead(more)
        else if item.kind.Divider? then previous.Link? && SomeLink(more)
        else true;
      if kept then [item] + Reduce(item.kind, more) else Reduce(previous, more)
  }

  function Last(menu: seq<Item>): Kind {
    if menu == [] then Divider else menu[|menu| - 1].kind
  }

  function Trim(menu: seq<Item>): seq<Item> {
    if menu != [] && menu[|menu| - 1].kind.Divider? then Trim(menu[..|menu| - 1]) else menu
  }

  function Menu(items: seq<Item>, groups: seq<int>, destination: Judge): seq<Item> {
    Reduce(Divider, Participants(items, groups, destination))
  }

  /** The finished menu, seen from the middle of the loop. */
  function Pending(menu: seq<Item>, rest: seq<Item>): seq<Item> {
    if SomeLink(rest) then menu + Reduce(Last(menu), rest) else Trim(menu)
  }

  predicate Known(s: seq<Item>) {
    forall item <- s :: item.kind.Header? || item.kind.Divider? || item.kind.Link?
  }

  lemma {:induction false} NothingWithoutLinks(previous: Kind, rest: seq<Item>)
    requires Known(rest) && !SomeLink(rest)
    ensures Reduce(previous, rest) == [] && !LinkAhead(rest)
  {
    if rest != [] {
      assert forall i :: 0 <= i < |rest| - 1 ==> rest[1..][i] == rest[i + 1];
      assert rest[0] in rest && Known(rest[1..]);
      NothingWithoutLinks(previous, rest[1..]);
    }
  }

  lemma SomeLinkStep(rest: seq<Item>)
    requires rest != []
    ensures SomeLink(rest) <==> rest[0].kind.Link? || SomeLink(rest[1..])
  {
    if SomeLink(rest[1..]) {
      var i :| 0 <= i < |rest[1..]| && rest[1..][i].kind.Link?;
      assert rest[i + 1].kind.Link?;
    }
    if SomeLink(rest) && !rest[0].kind.Link? {
      var i :| 0 <= i < |rest| && rest[i].kind.Link?;
      assert rest[1..][i - 1].kind.Link?;
    }
  }

  /** One turn of the loop: the finished menu stays the same. */
  lemma PendingStep(menu: seq<Item>, rest: seq<Item>)
    requires rest != [] && Known(rest) && Known(menu)
    ensures var item, more := rest[0], rest[1..];
            var dropped := (item.kind.Header? && !LinkAhead(more)) ||
                           (item.kind.Divider? && (menu == [] || Last(menu).Divider? || Last(menu).Header?));
            Pending(menu, rest) == Pending(if dropped then menu else menu + [item], more)
    ensures Known(rest[1..]) && Known(menu + [rest[0]])
  {
    hide SomeLink, LinkAhead;
    var item, more := rest[0], rest[1..];
    SomeLinkStep(rest);
    assert item in rest && forall x <- more :: x in rest;
    assert Last(menu + [item]) == item.kind && (menu + [item])[..|menu|] == menu;
    assert menu != [] ==> menu[|menu| - 1] in menu;
    if !SomeLink(more) {
      NothingWithoutLinks(Last(menu), more);
      NothingWithoutLinks(item.kind, more);
      assert item.kind.Link? ==> Reduce(Last(menu), rest) == [item];
    } else {
      assert menu + ([item] + Reduce(item.kind, more)) == menu + [item] + Reduce(item.kind, more);
    }
  }

  lemma {:induction false} ParticipantsKnown(items: seq<Item>, groups: seq<int>, destination: Judge)
    ensures Known(Participants(items, groups, destination))
  {
    if items != [] { ParticipantsKnown(items[1..], groups, destination); }
  }

  lemma PendingStart(visible: seq<Item>)
    requires Known(visible)
    ensures Known([]) && Pending([], visible) == Reduce(Divider, visible)
  {
    hide SomeLink, LinkAhead;
    assert [] + Reduce(Divider, visible) == Reduce(Divider, visible);
    if !SomeLink(visible) { NothingWithoutLinks(Divider, visible); }
  }

  lemma PendingEnd(menu: seq<Item>)
    ensures Pending(menu, []) == Trim(menu)
  {
  }

  lemma TrimStep(menu: seq<Item>)
    ensures Trim(menu) == if menu != [] && menu[|menu| - 1].kind.Divider? then Trim(menu[..|menu| - 1]) else menu
  {
  }

  method NavigationMenuItems(items: seq<Item>, groups: seq<int>, destination: Judge) returns (menu: seq<Item>)
    ensures menu == Menu(items, groups, destination)
  {
    hide SomeLink, LinkAhead, Reduce, Pending, Participants, Known, Trim;
    var visible := Participants(items, groups, destination);
    ParticipantsKnown(items, groups, destination);
    menu := [];
    PendingStart(visible);
    assert visible[0..] == visible;
    for index := 0 to |visible|
      invariant Known(menu) && Known(visible[index..])
      invariant Pending(menu, visible[index..]) == Reduce(Divider, visible)
    {
      var item := visible[index];
      assert visible[index..][1..] == visible[index + 1..];
      PendingStep(menu, visible[index..]);
      if item.kind.Header? {
        var hasLink := LinkBefore(visible, index + 1);
        if !hasLink {
          continue;
        }
      }
      if item.kind.Divider? && (menu == [] || menu[|menu| - 1].kind.Divider? || menu[|menu| - 1].kind.Header?) {
        continue;
      }
      menu := menu + [item];
    }
    assert visible[|visible|..] == [];
    PendingEnd(menu);
    while menu != [] && menu[|menu| - 1].kind.Divider?
      invariant Trim(menu) == Reduce(Divider, visible)
      decreases |menu|
    {
      TrimStep(menu);
      menu := menu[..|menu| - 1];
    }
    TrimStep(menu);
  }

  /** The inner loop: any link from `start` up to the next header. */
  method LinkBefore(visible: seq<Item>, start: nat) returns (hasLink: bool)
    requires start <= |visible|
    ensures hasLink == LinkAhead(visible[start..])
  {
    hasLink := false;
    var next := start;
    while next < |visible| && !visible[next].kind.Header?
      invariant start <= next <= |visible|
      invariant LinkAhead(visible[start..]) == (hasLink || LinkAhead(visible[next..]))
    {
      assert visible[next..][0] == visible[next] && visible[next..][1..] == visible[next + 1..];
      if visible[next].kind.Link? {
        hasLink := true;
      }
      next := next + 1;
    }
  }

  // ----- what a menu looks like

  ghost predicate LinkBeforeNextHeader(m: seq<Item>, i: nat) {
    exists j :: i < j < |m| && m[j].kind.Link? && forall k :: i < k < j ==> !m[k].kind.Header?
  }

  /** No divider first, last, doubled or behind a header, and something to open under every header. */
  ghost predicate Shaped(m: seq<Item>) {
    forall i: nat :: i < |m| ==> ShapedAt(m, i)
  }

  ghost predicate ShapedAt(m: seq<Item>, i: nat)
    requires i < |m|
  {
    (m[i].kind.Divider? ==> 0 < i < |m| - 1 && m[i - 1].kind.Link? && !m[i + 1].kind.Divider?) &&
    (m[i].kind.Header? ==> LinkBeforeNextHeader(m, i))
  }

  /** The same, item by item, behind an item of kind `previous`. */
  predicate Fits(previous: Kind, m: seq<Item>)
    decreases |m|
  {
    m == [] ||
    ((m[0].kind.Header? ==> LinkAhead(m[1..])) &&
     (m[0].kind.Divider? ==> previous.Link? && SomeLink(m[1..])) &&
     Fits(m[0].kind, m[1..]))
  }

  lemma {:induction false} LinkAheadWhere(m: seq<Item>)
    ensures LinkAhead(m) <==> exists j :: 0 <= j < |m| && m[j].kind.Link? && forall k :: 0 <= k < j ==> !m[k].kind.Header?
  {
    if m != [] && !m[0].kind.Header? && !m[0].kind.Link? {
      LinkAheadWhere(m[1..]);
      if LinkAhead(m[1..]) {
        var j :| 0 <= j < |m[1..]| && m[1..][j].kind.Link? && forall k :: 0 <= k < j ==> !m[1..][k].kind.Header?;
        assert m[j + 1].kind.Link?;
        forall k | 0 <= k < j + 1 ensures !m[k].kind.Header? {
          if k > 0 { assert m[k] == m[1..][k - 1]; }
        }
      }
      if j :| 0 <= j < |m| && m[j].kind.Link? && forall k :: 0 <= k < j ==> !m[k].kind.Header? {
        assert m[1..][j - 1].kind.Link? && forall k :: 0 <= k < j - 1 ==> m[1..][k] == m[k + 1];
      }
    }
  }

  lemma HeaderWhere(m: seq<Item>, i: nat)
    requires i < |m|
    ensures LinkAhead(m[i + 1..]) <==> LinkBeforeNextHeader(m, i)
  {
    var more := m[i + 1..];
    LinkAheadWhere(more);
    if LinkAhead(more) {
      var j :| 0 <= j < |more| && more[j].kind.Link? && forall k :: 0 <= k < j ==> !more[k].kind.Header?;
      assert m[j + i + 1].kind.Link?;
      forall k | i < k < j + i + 1 ensures !m[k].kind.Header? { assert m[k] == more[k - i - 1]; }
    }
    if LinkBeforeNextHeader(m, i) {
      var j :| i < j < |m| && m[j].kind.Link? && forall k :: i < k < j ==> !m[k].kind.Header?;
      assert more[j - i - 1].kind.Link? && forall k :: 0 <= k < j - i - 1 ==> more[k] == m[k + i + 1];
    }
  }

  lemma {:induction false} FitsAt(previous: Kind, m: seq<Item>, i: nat)
    requires Fits(previous, m) && i < |m|
    ensures Fits(if i == 0 then previous else m[i - 1].kind, m[i..])
    decreases |m|
  {
    if i == 0 {
      assert m[0..] == m;
    } else {
      FitsAt(m[0].kind, m[1..], i - 1);
      assert m[1..][i - 1..] == m[i..];
    }
  }

  lemma FittingIsShaped(m: seq<Item>)
    requires Fits(Divider, m)
    ensures Shaped(m)
  {
    forall i: nat | i < |m| ensures ShapedAt(m, i) {
      hide LinkAhead;
      FitsAt(Divider, m, i);
      HeaderWhere(m, i);
      assert m[i..][0] == m[i] && m[i..][1..] == m[i + 1..];
      if i + 1 < |m| {
        FitsAt(Divider, m, i + 1);
        assert m[i + 1..][0] == m[i + 1];
      }
    }
  }

  lemma {:induction false} ShapedFits(m: seq<Item>, i: nat)
    requires Known(m) && Shaped(m) && i <= |m|
    ensures Fits(if i == 0 then Divider else m[i - 1].kind, m[i..])
    decreases |m| - i
  {
    hide LinkAhead;
    if i < |m| {
      assert ShapedAt(m, i);
      ShapedFits(m, i + 1);
      HeaderWhere(m, i);
      assert m[i..][0] == m[i] && m[i..][1..] == m[i + 1..];
      if m[i].kind.Divider? {
        assert m[i + 1] in m;
        assert m[i + 1..][0] == m[i + 1];
        if m[i + 1].kind.Header? {
          assert ShapedAt(m, i + 1) && LinkBeforeNextHeader(m, i + 1);
          var j :| i + 1 < j < |m| && m[j].kind.Link?;
          assert m[i + 1..][j - i - 1].kind.Link?;
        }
      }
    }
  }

  lemma {:induction false} ReduceKeepsLinks(previous: Kind, rest: seq<Item>)
    requires Known(rest)
    ensures SomeLink(rest) ==> SomeLink(Reduce(previous, rest))
    ensures LinkAhead(rest) ==> LinkAhead(Reduce(previous, rest))
    decreases |rest|
  {
    if rest != [] {
      var item, more := rest[0], rest[1..];
      assert item in rest && forall x <- more :: x in rest;
      ReduceKeepsLinks(item.kind, more);
      ReduceKeepsLinks(previous, more);
      SomeLinkStep(rest);
      var r := Reduce(previous, rest);
      if r != [] { SomeLinkStep(r); }
    }
  }

  lemma {:induction false} ReduceFits(previous: Kind, rest: seq<Item>)
    requires Known(rest)
    ensures Fits(previous, Reduce(previous, rest)) && Known(Reduce(previous, rest))
    decreases |rest|
  {
    hide LinkAhead, SomeLink;
    if rest != [] {
      var item, more := rest[0], rest[1..];
      assert item in rest && forall x <- more :: x in rest;
      ReduceFits(item.kind, more);
      ReduceFits(previous, more);
      ReduceKeepsLinks(item.kind, more);
    }
  }

  lemma {:induction false} FittingIsFixed(previous: Kind, m: seq<Item>)
    requires Fits(previous, m)
    ensures Reduce(previous, m) == m
    decreases |m|
  {
    hide LinkAhead, SomeLink;
    if m != [] { FittingIsFixed(m[0].kind, m[1..]); }
  }

  lemma {:induction false} ParticipantsFixed(items: seq<Item>, groups: seq<int>, destination: Judge)
    ensures Participants(items, groups, destination) == items <==> forall item <- items :: TakesPart(item, groups, destination)
    ensures |Participants(items, groups, destination)| <= |items|
  {
    hide TakesPart;
    if items != [] {
      ParticipantsFixed(items[1..], groups, destination);
      assert items == [items[0]] + items[1..];
      assert forall x <- items[1..] :: x in items;
      if Participants(items, groups, destination) == items {
        assert TakesPart(items[0], groups, destination);
        assert Participants(items, groups, destination)[1..] == items[1..];
        forall item | item in items ensures TakesPart(item, groups, destination) {
          assert item == items[0] || item in items[1..];
        }
      } else if forall item <- items :: TakesPart(item, groups, destination) {
        assert items[0] in items;
      }
    }
  }

  lemma {:induction false} ParticipantsTakePart(items: seq<Item>, groups: seq<int>, destination: Judge)
    ensures forall item <- Participants(items, groups, destination) :: item in items && TakesPart(item, groups, destination)
  {
    hide TakesPart;
    if items != [] {
      ParticipantsTakePart(items[1..], groups, destination);
      assert items[0] in items && forall x <- items[1..] :: x in items;
    }
  }

  lemma {:induction false} ReduceSelects(previous: Kind, rest: seq<Item>)
    ensures forall item <- Reduce(previous, rest) :: item in rest
    decreases |rest|
  {
    hide LinkAhead, SomeLink;
    if rest != [] {
      ReduceSelects(rest[0].kind, rest[1..]);
      ReduceSelects(previous, rest[1..]);
      assert rest[0] in rest && forall x <- rest[1..] :: x in rest;
    }
  }

  // ----- the theorems

  /** Every menu is shaped and shows nothing hidden or unsafe. */
  lemma MenuIsShaped(items: seq<Item>, groups: seq<int>, destination: Judge)
    ensures Shaped(Menu(items, groups, destination))
    ensures forall item <- Menu(items, groups, destination) :: item in items && TakesPart(item, groups, destination)
  {
    hide Shaped, TakesPart, Reduce, Participants, Fits;
    var v := Participants(items, groups, destination);
    ParticipantsKnown(items, groups, destination);
    ParticipantsTakePart(items, groups, destination);
    ReduceFits(Divider, v);
    ReduceSelects(Divider, v);
    FittingIsShaped(Reduce(Divider, v));
  }

  /** Exactly the shaped lists of participants are left as they are. */
  lemma FixedIffShaped(items: seq<Item>, groups: seq<int>, destination: Judge)
    ensures Menu(items, groups, destination) == items <==>
            Shaped(items) && forall item <- items :: TakesPart(item, groups, destination)
  {
    hide Shaped, Reduce, Participants, Fits, Visible;
    if Menu(items, groups, destination) == items {
      MenuIsShaped(items, groups, destination);
    } else if Shaped(items) && forall item <- items :: TakesPart(item, groups, destination) {
      ParticipantsFixed(items, groups, destination);
      assert Known(items);
      ShapedFits(items, 0);
      assert items[0..] == items;
      FittingIsFixed(Divider, items);
      assert false;
    }
  }

  lemma MenuIsIdempotent(items: seq<Item>, groups: seq<int>, destination: Judge)
    ensures Menu(Menu(items, groups, destination), groups, destination) == Menu(items, groups, destination)
  {
    hide Shaped, TakesPart, Menu;
    MenuIsShaped(items, groups, destination);
    FixedIffShaped(Menu(items, groups, destination), groups, destination);
  }

  function Links(s: seq<Item>): seq<Item> {
    if s == [] then [] else (if s[0].kind.Link? then [s[0]] else []) + Links(s[1..])
  }

  /** The links a reader may follow, in the order of the tree. */
  function GoodLinks(items: seq<Item>, groups: seq<int>, destination: Judge): seq<Item> {
    if items == [] then []
    else
      (if items[0].kind.Link? && TakesPart(items[0], groups, destination) then [items[0]] else []) +
      GoodLinks(items[1..], groups, destination)
  }

  /** The headers with a link before the next header. */
  function LinkedHeaders(s: seq<Item>): seq<Item> {
    if s == [] then [] else (if s[0].kind.Header? && LinkAhead(s[1..]) then [s[0]] else []) + LinkedHeaders(s[1..])
  }

  function Headers(s: seq<Item>): seq<Item> {
    if s == [] then [] else (if s[0].kind.Header? then [s[0]] else []) + Headers(s[1..])
  }

  lemma Cons(item: Item, more: seq<Item>)
    ensures Links([item] + more) == (if item.kind.Link? then [item] else []) + Links(more)
    ensures Headers([item] + more) == (if item.kind.Header? then [item] else []) + Headers(more)
  {
    assert ([item] + more)[1..] == more;
  }

  lemma {:induction false} ReduceKeeps(previous: Kind, rest: seq<Item>)
    requires Known(rest)
    ensures Links(Reduce(previous, rest)) == Links(rest)
    ensures Headers(Reduce(previous, rest)) == LinkedHeaders(rest)
    decreases |rest|
  {
    hide LinkAhead, SomeLink, Links, Headers;
    if rest == [] {
      EmptyKeeps();
    } else {
      var item, more := rest[0], rest[1..];
      assert item in rest && forall x <- more :: x in rest;
      assert rest == [item] + more;
      Cons(item, more);
      Cons(item, Reduce(item.kind, more));
      ReduceKeeps(item.kind, more);
      ReduceKeeps(previous, more);
    }
  }

  lemma EmptyKeeps()
    ensures Links([]) == [] && Headers([]) == []
  {
  }

  lemma {:induction false} ParticipantLinks(items: seq<Item>, groups: seq<int>, destination: Judge)
    ensures Links(Participants(items, groups, destination)) == GoodLinks(items, groups, destination)
  {
    hide TakesPart;
    if items != [] {
      var more := Participants(items[1..], groups, destination);
      ParticipantLinks(items[1..], groups, destination);
      assert ([items[0]] + more)[1..] == more && [] + more == more;
    }
  }

  /** No link a reader may follow is lost or moved, and a header stays exactly when a link follows it. */
  lemma MenuKeepsLinks(items: seq<Item>, groups: seq<int>, destination: Judge)
    ensures Links(Menu(items, groups, destination)) == GoodLinks(items, groups, destination)
    ensures Headers(Menu(items, groups, destination)) == LinkedHeaders(Participants(items, groups, destination))
  {
    ParticipantsKnown(items, groups, destination);
    ReduceKeeps(Divider, Participants(items, groups, destination));
    ParticipantLinks(items, groups, destination);
  }
}
