/**
  Automatic glossary links. The regular expressions' hits are given: per text node the explicit
  [[Glossary:…]] markers, and the automatic hits of all terms.
*/
module Glossary {
  import opened Basics
  import Sorting

  datatype Match = Match(start: nat, end: nat, id: int, term: string, shown: Option<string>)

  datatype Node = Node(data: string, marks: seq<Match>)

  datatype Hit = Hit(order: nat, start: nat, end: nat, id: int, term: string, length: nat)

  /** What the regular expressions guarantee: markers in order, apart, inside the text, and with a label. */
  ghost predicate GoodNode(node: Node) {
    (forall m <- node.marks :: m.start < m.end <= |node.data| && m.shown.Some?) &&
    forall i, j :: 0 <= i < j < |node.marks| ==> node.marks[i].end <= node.marks[j].start
  }

  ghost predicate GoodHit(nodes: seq<Node>, h: Hit) {
    h.order < |nodes| && h.start < h.end <= |nodes[h.order].data|
  }

  ghost predicate GoodInput(nodes: seq<Node>, hits: seq<Hit>) {
    (forall node <- nodes :: GoodNode(node)) && forall h <- hits :: GoodHit(nodes, h)
  }

  // ----- choosing

  predicate Clashes(matches: seq<Match>, start: nat, end: nat) {
    exists m <- matches :: start < m.end && end > m.start
  }

  function Linked(h: Hit): Match {
    Match(h.start, h.end, h.id, h.term, None)
  }

  /** Longest name first, then document order, then the lower term id. */
  predicate Earlier(a: Hit, b: Hit) {
    a.length > b.length ||
    (a.length == b.length &&
     (a.order < b.order ||
      (a.order == b.order && (a.start < b.start || (a.start == b.start && a.id < b.id)))))
  }

  function ByRank(): Sorting.Less<Hit> {
    (a: Hit, b: Hit) => Earlier(a, b)
  }

  function ClearOfMarks(nodes: seq<Node>, hits: seq<Hit>): seq<Hit>
    requires forall h <- hits :: h.order < |nodes|
  {
    if hits == [] then []
    else
      var h := hits[|hits| - 1];
      ClearOfMarks(nodes, hits[..|hits| - 1]) + (if Clashes(nodes[h.order].marks, h.start, h.end) then [] else [h])
  }

  function Ranked(nodes: seq<Node>, hits: seq<Hit>): (ranked: seq<Hit>)
    requires forall h <- hits :: h.order < |nodes|
  {
    Sorting.Sort(ClearOfMarks(nodes, hits), ByRank())
  }

  /** `local[o]` holds the matches of node `o` so far. */
  datatype Choice = Choice(used: set<int>, local: seq<seq<Match>>)

  function NoChoice(nodes: seq<Node>): (c: Choice)
    ensures |c.local| == |nodes|
  {
    Choice({}, seq(|nodes|, i requires 0 <= i < |nodes| => nodes[i].marks))
  }

  predicate Accepts(c: Choice, h: Hit)
    requires h.order < |c.local|
  {
    h.id !in c.used && !Clashes(c.local[h.order], h.start, h.end)
  }

  function Choose(nodes: seq<Node>, ranked: seq<Hit>): (c: Choice)
    requires forall h <- ranked :: h.order < |nodes|
    ensures |c.local| == |nodes|
  {
    if ranked == [] then NoChoice(nodes)
    else
      var c, h := Choose(nodes, ranked[..|ranked| - 1]), ranked[|ranked| - 1];
      if Accepts(c, h) then Choice(c.used + {h.id}, c.local[h.order := c.local[h.order] + [Linked(h)]]) else c
  }

  method CollectAutomatic(nodes: seq<Node>, hits: seq<Hit>) returns (automatic: seq<Hit>)
    requires forall h <- hits :: h.order < |nodes|
    ensures automatic == ClearOfMarks(nodes, hits)
  {
    hide Clashes;
    automatic := [];
    for i := 0 to |hits|
      invariant automatic == ClearOfMarks(nodes, hits[..i])
    {
      assert hits[..i + 1][..i] == hits[..i];
      var h := hits[i];
      if Clashes(nodes[h.order].marks, h.start, h.end) {
        continue;
      }
      automatic := automatic + [h];
    }
    assert hits[..|hits|] == hits;
  }

  lemma ChooseNothing(nodes: seq<Node>, ranked: seq<Hit>)
    ensures ranked[..0] == [] && Choose(nodes, ranked[..0]) == NoChoice(nodes)
  {
  }

  lemma ChooseNext(nodes: seq<Node>, ranked: seq<Hit>, i: nat)
    requires i < |ranked| && forall h <- ranked :: h.order < |nodes|
    ensures (forall h <- ranked[..i] :: h.order < |nodes|) && (forall h <- ranked[..i + 1] :: h.order < |nodes|)
    ensures var c, h := Choose(nodes, ranked[..i]), ranked[i];
            Choose(nodes, ranked[..i + 1]) ==
            if Accepts(c, h) then Choice(c.used + {h.id}, c.local[h.order := c.local[h.order] + [Linked(h)]]) else c
  {
    assert ranked[..i + 1][..i] == ranked[..i];
  }

  method ChooseMatches(nodes: seq<Node>, hits: seq<Hit>) returns (local: seq<seq<Match>>)
    requires forall h <- hits :: h.order < |nodes|
    ensures (forall h <- Ranked(nodes, hits) :: h.order < |nodes|) && local == Choose(nodes, Ranked(nodes, hits)).local
  {
    hide Clashes, ClearOfMarks, Choose;
    var automatic := CollectAutomatic(nodes, hits);
    RankedMeaning(nodes, hits);
    automatic := Sorting.Sort(automatic, ByRank());
    var used: set<int> := {};
    local := seq(|nodes|, i requires 0 <= i < |nodes| => nodes[i].marks);
    ChooseNothing(nodes, automatic);
    for i := 0 to |automatic|
      invariant forall h <- automatic[..i] :: h.order < |nodes|
      invariant Choice(used, local) == Choose(nodes, automatic[..i])
    {
      var h := automatic[i];
      assert h in automatic;
      ChooseNext(nodes, automatic, i);
      if h.id in used || Clashes(local[h.order], h.start, h.end) {
        continue;
      }
      used := used + {h.id};
      local := local[h.order := local[h.order] + [Linked(h)]];
    }
    assert automatic[..|automatic|] == automatic;
  }

  lemma {:induction false} ClearMeaning(nodes: seq<Node>, hits: seq<Hit>, h: Hit)
    requires forall h <- hits :: h.order < |nodes|
    ensures h in ClearOfMarks(nodes, hits) <==> h in hits && !Clashes(nodes[h.order].marks, h.start, h.end)
  {
    hide Clashes;
    if hits != [] {
      ClearMeaning(nodes, hits[..|hits| - 1], h);
      assert hits == hits[..|hits| - 1] + [hits[|hits| - 1]];
    }
  }

  /** The candidates are the hits clear of every marker, best first. */
  lemma RankedMeaning(nodes: seq<Node>, hits: seq<Hit>)
    requires forall h <- hits :: h.order < |nodes|
    ensures forall h :: h in Ranked(nodes, hits) <==> h in hits && !Clashes(nodes[h.order].marks, h.start, h.end)
    ensures forall i, j :: 0 <= i < j < |Ranked(nodes, hits)| ==> !Earlier(Ranked(nodes, hits)[j], Ranked(nodes, hits)[i])
  {
    hide Clashes;
    forall h ensures h in ClearOfMarks(nodes, hits) <==> h in hits && !Clashes(nodes[h.order].marks, h.start, h.end) {
      ClearMeaning(nodes, hits, h);
    }
    Sorting.SortMeaning(ClearOfMarks(nodes, hits), ByRank());
  }

  // ----- what was chosen

  ghost predicate InNodes(nodes: seq<Node>, ranked: seq<Hit>) {
    forall h <- ranked :: h.order < |nodes|
  }

  /** Hit number `i` becomes a link. */
  predicate Picked(nodes: seq<Node>, ranked: seq<Hit>, i: nat)
    requires i < |ranked| && forall h <- ranked :: h.order < |nodes|
  {
    assert ranked[i] in ranked;
    assert forall h <- ranked[..i] :: h in ranked;
    Accepts(Choose(nodes, ranked[..i]), ranked[i])
  }

  lemma PickedEarly(nodes: seq<Node>, ranked: seq<Hit>, n: nat, i: nat)
    requires i < n <= |ranked| && InNodes(nodes, ranked)
    ensures InNodes(nodes, ranked[..n]) && Picked(nodes, ranked[..n], i) == Picked(nodes, ranked, i)
  {
    assert forall h <- ranked[..n] :: h in ranked;
    assert ranked[..n][..i] == ranked[..i];
  }

  lemma PickedInit(nodes: seq<Node>, ranked: seq<Hit>)
    requires ranked != [] && InNodes(nodes, ranked)
    ensures var n := |ranked| - 1;
            InNodes(nodes, ranked[..n]) && ranked[n].order < |nodes| &&
            (Picked(nodes, ranked, n) <==> Accepts(Choose(nodes, ranked[..n]), ranked[n])) &&
            forall i: nat :: i < n ==> Picked(nodes, ranked[..n], i) == Picked(nodes, ranked, i) && ranked[..n][i] == ranked[i]
  {
    var n := |ranked| - 1;
    assert forall x <- ranked[..n] :: x in ranked;
    assert ranked[n] in ranked;
    forall i: nat | i < n ensures Picked(nodes, ranked[..n], i) == Picked(nodes, ranked, i) && ranked[..n][i] == ranked[i] {
      PickedEarly(nodes, ranked, n, i);
    }
  }

  lemma ChooseStep(nodes: seq<Node>, ranked: seq<Hit>)
    requires ranked != [] && InNodes(nodes, ranked)
    ensures var n := |ranked| - 1;
            InNodes(nodes, ranked[..n]) && ranked[n].order < |nodes| &&
            var c, h := Choose(nodes, ranked[..n]), ranked[n];
            Choose(nodes, ranked) ==
            if Picked(nodes, ranked, n) then Choice(c.used + {h.id}, c.local[h.order := c.local[h.order] + [Linked(h)]]) else c
  {
    hide Accepts;
    PickedInit(nodes, ranked);
  }

  /** The used ids are those of the picked hits. */
  lemma {:induction false} UsedMeaning(nodes: seq<Node>, ranked: seq<Hit>, id: int)
    requires InNodes(nodes, ranked)
    ensures id in Choose(nodes, ranked).used <==>
            exists i: nat :: i < |ranked| && Picked(nodes, ranked, i) && ranked[i].id == id
  {
    if ranked != [] {
      hide Accepts, Picked, Choose, InNodes;
      PickedInit(nodes, ranked);
      ChooseStep(nodes, ranked);
      UsedMeaning(nodes, ranked[..|ranked| - 1], id);
    }
  }

  /** Hit `i` is picked and gives match `m` of node `o`. */
  predicate Gives(nodes: seq<Node>, ranked: seq<Hit>, i: nat, o: nat, m: Match)
    requires i < |ranked| && forall h <- ranked :: h.order < |nodes|
  {
    Picked(nodes, ranked, i) && ranked[i].order == o && Linked(ranked[i]) == m
  }

  lemma SomeGives(nodes: seq<Node>, ranked: seq<Hit>, o: nat, m: Match)
    requires ranked != [] && InNodes(nodes, ranked)
    ensures var n := |ranked| - 1;
            InNodes(nodes, ranked[..n]) &&
            ((exists i: nat :: i < |ranked| && Gives(nodes, ranked, i, o, m)) <==>
             (exists i: nat :: i < n && Gives(nodes, ranked[..n], i, o, m)) || Gives(nodes, ranked, n, o, m))
  {
    hide Picked, Linked;
    PickedInit(nodes, ranked);
    var n := |ranked| - 1;
    if i: nat :| i < n && Gives(nodes, ranked[..n], i, o, m) {
      assert Gives(nodes, ranked, i, o, m);
    } else if i: nat :| i < |ranked| && Gives(nodes, ranked, i, o, m) {
      assert i < n ==> Gives(nodes, ranked[..n], i, o, m);
    }
  }

  /** The matches of a node are its markers and its picked hits. */
  lemma {:induction false} LocalMeaning(nodes: seq<Node>, ranked: seq<Hit>, o: nat, m: Match)
    requires InNodes(nodes, ranked) && o < |nodes|
    ensures m in Choose(nodes, ranked).local[o] <==>
            m in nodes[o].marks || exists i: nat :: i < |ranked| && Gives(nodes, ranked, i, o, m)
  {
    if ranked != [] {
      var n := |ranked| - 1;
      SomeGives(nodes, ranked, o, m);
      ChooseStep(nodes, ranked);
      GivesLast(nodes, ranked, o, m);
      hide Picked, Linked, InNodes, Choose, Gives;
      LocalMeaning(nodes, ranked[..n], o, m);
      var c, d, h := Choose(nodes, ranked[..n]), Choose(nodes, ranked), ranked[n];
      if Picked(nodes, ranked, n) {
        assert m in d.local[o] <==> m in c.local[o] || (o == h.order && m == Linked(h));
      }
    }
  }

  lemma GivesLast(nodes: seq<Node>, ranked: seq<Hit>, o: nat, m: Match)
    requires ranked != [] && InNodes(nodes, ranked)
    ensures var n := |ranked| - 1;
            Gives(nodes, ranked, n, o, m) <==> Picked(nodes, ranked, n) && ranked[n].order == o && Linked(ranked[n]) == m
  {
  }

  predicate Cross(a: Hit, b: Hit) {
    a.order == b.order && a.start < b.end && a.end > b.start
  }

  /**
    A candidate is linked exactly when no better linked candidate has its term or overlaps it,
    and no marker does.
  */
  lemma PickedIff(nodes: seq<Node>, ranked: seq<Hit>, i: nat)
    requires InNodes(nodes, ranked) && i < |ranked|
    ensures ranked[i] in ranked
    ensures Picked(nodes, ranked, i) <==>
            !Clashes(nodes[ranked[i].order].marks, ranked[i].start, ranked[i].end) &&
            forall j: nat :: j < i && Picked(nodes, ranked, j) ==> ranked[j].id != ranked[i].id && !Cross(ranked[i], ranked[j])
  {
    hide Choose;
    var h, init := ranked[i], ranked[..i];
    assert forall x <- init :: x in ranked;
    var c := Choose(nodes, init);
    forall j: nat | j < i ensures Picked(nodes, init, j) == Picked(nodes, ranked, j) && init[j] == ranked[j] {
      PickedEarly(nodes, ranked, i, j);
    }
    forall id ensures id in c.used <==> exists j: nat :: j < i && Picked(nodes, init, j) && init[j].id == id {
      UsedMeaning(nodes, init, id);
    }
    forall m ensures m in c.local[h.order] <==>
      m in nodes[h.order].marks || exists j: nat :: j < i && Gives(nodes, init, j, h.order, m)
    {
      LocalMeaning(nodes, init, h.order, m);
    }
    if !Picked(nodes, ranked, i) && h.id !in c.used {
      var m :| m in c.local[h.order] && h.start < m.end && h.end > m.start;
      if m !in nodes[h.order].marks {
        var j: nat :| j < i && Gives(nodes, init, j, h.order, m);
        assert Cross(h, ranked[j]);
      }
    }
    if Picked(nodes, ranked, i) {
      forall j: nat | j < i && Picked(nodes, ranked, j) ensures ranked[j].id != h.id && !Cross(h, ranked[j]) {
        assert Picked(nodes, init, j) && init[j].id in c.used;
        if ranked[j].order == h.order { assert Gives(nodes, init, j, h.order, Linked(init[j])); }
      }
    }
  }

  /** Each term is linked at most once, over all nodes. */
  lemma OncePerTerm(nodes: seq<Node>, ranked: seq<Hit>, i: nat, j: nat)
    requires InNodes(nodes, ranked) && i < j < |ranked| && Picked(nodes, ranked, i) && Picked(nodes, ranked, j)
    ensures ranked[i].id != ranked[j].id && !Cross(ranked[i], ranked[j])
  {
    hide Picked, Clashes;
    PickedIff(nodes, ranked, j);
  }

  /** Every hit overlaps a marker, is linked, or gave way to a linked hit that is no worse. */
  lemma EveryHitIsAccountedFor(nodes: seq<Node>, hits: seq<Hit>, h: Hit)
    requires InNodes(nodes, hits) && h in hits
    ensures h.order < |nodes| && InNodes(nodes, Ranked(nodes, hits))
    ensures var ranked := Ranked(nodes, hits);
            Clashes(nodes[h.order].marks, h.start, h.end) ||
            Linked(h) in Choose(nodes, ranked).local[h.order] ||
            exists j: nat :: j < |ranked| && Picked(nodes, ranked, j) && !Earlier(h, ranked[j]) &&
                             (ranked[j].id == h.id || Cross(h, ranked[j]))
  {
    hide Picked, Choose, Clashes, Ranked, Earlier, Linked;
    RankedMeaning(nodes, hits);
    var ranked := Ranked(nodes, hits);
    if !Clashes(nodes[h.order].marks, h.start, h.end) {
      var i :| 0 <= i < |ranked| && ranked[i] == h;
      PickedIff(nodes, ranked, i);
      LocalMeaning(nodes, ranked, h.order, Linked(h));
      if Picked(nodes, ranked, i) { assert Gives(nodes, ranked, i, h.order, Linked(h)); }
    }
  }

  predicate AreApart(a: Match, b: Match) {
    a.end <= b.start || b.end <= a.start
  }

  ghost predicate Apart(matches: seq<Match>) {
    Sorting.Pairwise(matches, AreApart)
  }

  lemma ApartAppend(matches: seq<Match>, m: Match)
    requires Apart(matches) && !Clashes(matches, m.start, m.end)
    ensures Apart(matches + [m])
  {
    assert forall x <- matches :: x.end <= m.start || m.end <= x.start;
  }

  /** The matches of one node never overlap and lie inside its text. */
  lemma {:induction false} ChosenAreApart(nodes: seq<Node>, ranked: seq<Hit>, o: nat)
    requires InNodes(nodes, ranked) && o < |nodes| && GoodNode(nodes[o])
    requires forall h <- ranked :: GoodHit(nodes, h)
    ensures Apart(Choose(nodes, ranked).local[o])
    ensures forall m <- Choose(nodes, ranked).local[o] :: m.start < m.end <= |nodes[o].data|
    ensures nodes[o].marks <= Choose(nodes, ranked).local[o]
    ensures forall k :: |nodes[o].marks| <= k < |Choose(nodes, ranked).local[o]| ==> Choose(nodes, ranked).local[o][k].shown.None?
  {
    if ranked != [] {
      hide Clashes, Apart;
      var n := |ranked| - 1;
      assert forall x <- ranked[..n] :: x in ranked;
      assert GoodHit(nodes, ranked[n]);
      ChosenAreApart(nodes, ranked[..n], o);
      var c := Choose(nodes, ranked[..n]);
      if Accepts(c, ranked[n]) && ranked[n].order == o {
        ApartAppend(c.local[o], Linked(ranked[n]));
      }
    }
  }

  // ----- putting the node together

  datatype Piece = Plain(text: string) | Anchor(text: string, term: string)

  /** `slice` on indices that may be out of order. */
  function Slice(s: string, from: nat, to: nat): string {
    if from <= to <= |s| then s[from..to] else if from <= |s| < to then s[from..] else ""
  }

  predicate StartsBefore(a: Match, b: Match) {
    a.start < b.start
  }

  function ByStart(): Sorting.Less<Match> {
    (a: Match, b: Match) => StartsBefore(a, b)
  }

  function AnchorText(data: string, m: Match): string {
    match m.shown case Some(text) => text case None => Slice(data, m.start, m.end)
  }

  function Pieces(data: string, position: nat, sorted: seq<Match>): seq<Piece>
    decreases |sorted|
  {
    if sorted == [] then [Plain(Slice(data, position, |data|))]
    else
      var m := sorted[0];
      [Plain(Slice(data, position, m.start)), Anchor(AnchorText(data, m), m.term)] + Pieces(data, m.end, sorted[1..])
  }

  method Assemble(data: string, local: seq<Match>) returns (pieces: seq<Piece>)
    ensures pieces == Pieces(data, 0, Sorting.Sort(local, ByStart()))
  {
    var sorted := Sorting.Sort(local, ByStart());
    var position := 0;
    pieces := [];
    assert sorted[0..] == sorted;
    for i := 0 to |sorted|
      invariant pieces + Pieces(data, position, sorted[i..]) == Pieces(data, 0, sorted)
    {
      var m := sorted[i];
      assert sorted[i..][1..] == sorted[i + 1..];
      pieces := pieces + [Plain(Slice(data, position, m.start))];
      pieces := pieces + [Anchor(AnchorText(data, m), m.term)];
      position := m.end;
    }
    pieces := pieces + [Plain(Slice(data, position, |data|))];
  }

  function TextOf(pieces: seq<Piece>): string {
    if pieces == [] then "" else pieces[0].text + TextOf(pieces[1..])
  }

  /** The text from `position` on, with every marker replaced by its label. */
  function Relabelled(data: string, position: nat, marks: seq<Match>): string
    decreases |marks|
  {
    if marks == [] then Slice(data, position, |data|)
    else Slice(data, position, marks[0].start) + AnchorText(data, marks[0]) + Relabelled(data, marks[0].end, marks[1..])
  }

  function Labelled(s: seq<Match>): seq<Match> {
    if s == [] then [] else (if s[0].shown.Some? then [s[0]] else []) + Labelled(s[1..])
  }

  /** In order, apart, and from `position` on. */
  ghost predicate Chain(data: string, position: nat, s: seq<Match>) {
    position <= |data| && (forall m <- s :: position <= m.start < m.end <= |data|) &&
    forall i, j :: 0 <= i < j < |s| ==> s[i].end <= s[j].start
  }

  lemma ChainRest(data: string, position: nat, s: seq<Match>)
    requires Chain(data, position, s) && s != []
    ensures Chain(data, s[0].end, s[1..])
  {
    forall m | m in s[1..] ensures s[0].end <= m.start < m.end <= |data| {
      var i :| 0 <= i < |s[1..]| && s[1..][i] == m;
      assert s[i + 1] in s && s[0].end <= s[i + 1].start;
    }
    assert forall i :: 0 <= i < |s| - 1 ==> s[1..][i] == s[i + 1];
  }

  lemma {:induction false} LabelledSelects(s: seq<Match>)
    ensures forall m :: m in Labelled(s) <==> m in s && m.shown.Some?
  {
    if s != [] {
      LabelledSelects(s[1..]);
      assert s == [s[0]] + s[1..];
    }
  }

  lemma SliceCut(data: string, from: nat, middle: nat, to: nat)
    requires from <= middle <= to <= |data|
    ensures Slice(data, from, to) == Slice(data, from, middle) + Slice(data, middle, to)
  {
    assert data[from..to] == data[from..middle] + data[middle..to];
  }

  /** Plain text may be cut anywhere before the first marker. */
  lemma Recut(data: string, position: nat, middle: nat, marks: seq<Match>)
    requires position <= middle <= |data| && (marks != [] ==> middle <= marks[0].start <= |data|)
    ensures Relabelled(data, position, marks) == Slice(data, position, middle) + Relabelled(data, middle, marks)
  {
    hide Slice, AnchorText;
    SliceCut(data, position, middle, if marks == [] then |data| else marks[0].start);
  }

  lemma TextOfTwo(a: Piece, b: Piece, rest: seq<Piece>)
    ensures TextOf([a, b] + rest) == a.text + b.text + TextOf(rest)
  {
    assert ([a, b] + rest)[1..] == [b] + rest && ([b] + rest)[1..] == rest;
  }

  /** Automatic links do not change the text. */
  lemma {:induction false} PiecesText(data: string, position: nat, s: seq<Match>)
    requires Chain(data, position, s)
    ensures TextOf(Pieces(data, position, s)) == Relabelled(data, position, Labelled(s))
    decreases |s|
  {
    if s == [] {
      assert Pieces(data, position, s)[1..] == [];
    } else {
      hide Chain;
      var m, rest := s[0], s[1..];
      assert position <= m.start < m.end <= |data| by { HeadOfChain(data, position, s); }
      ChainRest(data, position, s);
      PiecesText(data, m.end, rest);
      TextOfTwo(Plain(Slice(data, position, m.start)), Anchor(AnchorText(data, m), m.term), Pieces(data, m.end, rest));
      if m.shown.Some? {
        assert ([m] + Labelled(rest))[1..] == Labelled(rest);
      } else {
        assert [] + Labelled(rest) == Labelled(rest);
        LabelledStarts(data, m.end, rest);
        Recut(data, position, m.start, Labelled(rest));
        Recut(data, m.start, m.end, Labelled(rest));
      }
    }
  }

  lemma HeadOfChain(data: string, position: nat, s: seq<Match>)
    requires Chain(data, position, s) && s != []
    ensures position <= s[0].start < s[0].end <= |data|
  {
    assert s[0] in s;
  }

  lemma LabelledStarts(data: string, position: nat, s: seq<Match>)
    requires Chain(data, position, s)
    ensures Labelled(s) != [] ==> position <= Labelled(s)[0].start <= |data|
  {
    LabelledSelects(s);
    if Labelled(s) != [] { assert Labelled(s)[0] in Labelled(s); }
  }

  ghost predicate Ascending(s: seq<Match>) {
    Sorting.Pairwise(s, ByStart())
  }

  lemma {:induction false} LabelledAscends(s: seq<Match>)
    requires Ascending(s)
    ensures Ascending(Labelled(s))
  {
    if s != [] {
      Sorting.PairwiseTail(s, ByStart());
      LabelledAscends(s[1..]);
      LabelledSelects(s[1..]);
      var l := Labelled(s[1..]);
      Sorting.PairwiseCons(s[0], l, ByStart());
      assert [] + l == l;
    }
  }

  /** Matches that are apart are a chain once they are sorted. */
  lemma SortedChain(data: string, local: seq<Match>)
    requires Apart(local) && forall m <- local :: m.start < m.end <= |data|
    ensures var s := Sorting.Sort(local, ByStart());
            Chain(data, 0, s) && Ascending(s) && forall m :: m in s <==> m in local
  {
    var s := Sorting.Sort(local, ByStart());
    Sorting.SortMeaning(local, ByStart());
    Sorting.SortPairwise(local, ByStart(), AreApart);
    SortedAndApart(data, s);
  }

  lemma SortedAndApart(data: string, s: seq<Match>)
    requires Apart(s) && Sorting.Sorted(s, ByStart()) && forall m <- s :: m.start < m.end <= |data|
    ensures Chain(data, 0, s) && Ascending(s)
  {
    forall i, j | 0 <= i < j < |s| ensures s[i].end <= s[j].start && s[i].start < s[j].start {
      assert AreApart(s[i], s[j]) && !StartsBefore(s[j], s[i]);
      assert s[i] in s && s[j] in s;
    }
  }

  /** What a reader sees is the original text with only the markers replaced by their labels. */
  lemma LinkedTextIsOriginal(nodes: seq<Node>, hits: seq<Hit>, o: nat)
    requires GoodInput(nodes, hits) && o < |nodes|
    ensures forall h <- Ranked(nodes, hits) :: h.order < |nodes|
    ensures var local := Choose(nodes, Ranked(nodes, hits)).local[o];
            TextOf(Pieces(nodes[o].data, 0, Sorting.Sort(local, ByStart()))) == Relabelled(nodes[o].data, 0, nodes[o].marks)
  {
    hide Clashes, Apart, Pieces, Relabelled, TextOf, Ranked, Choose, GoodNode;
    RankedMeaning(nodes, hits);
    var ranked := Ranked(nodes, hits);
    assert forall h <- ranked :: GoodHit(nodes, h);
    ChosenAreApart(nodes, ranked, o);
    NodeText(nodes[o], Choose(nodes, ranked).local[o]);
  }

  lemma NodeText(node: Node, local: seq<Match>)
    requires GoodNode(node) && Apart(local) && (forall m <- local :: m.start < m.end <= |node.data|) && node.marks <= local
    requires forall k :: |node.marks| <= k < |local| ==> local[k].shown.None?
    ensures TextOf(Pieces(node.data, 0, Sorting.Sort(local, ByStart()))) == Relabelled(node.data, 0, node.marks)
  {
    hide Apart, Chain, Pieces, Relabelled, TextOf, Ascending;
    SortedChain(node.data, local);
    var s := Sorting.Sort(local, ByStart());
    PiecesText(node.data, 0, s);
    LabelledAscends(s);
    LabelledSelects(s);
    forall m ensures m in Labelled(s) <==> m in node.marks {
      if m in node.marks { MarkStays(node, local, m); }
      if m in local && m.shown.Some? {
        var k :| 0 <= k < |local| && local[k] == m;
        assert k < |node.marks| && node.marks[k] == m;
      }
    }
    MarksAscend(node);
    SameAscending(Labelled(s), node.marks);
  }

  lemma MarksAscend(node: Node)
    requires GoodNode(node)
    ensures Ascending(node.marks)
  {
    forall i, j | 0 <= i < j < |node.marks| ensures StartsBefore(node.marks[i], node.marks[j]) {
      assert node.marks[i] in node.marks;
    }
  }

  lemma SameAscending(a: seq<Match>, b: seq<Match>)
    requires Ascending(a) && Ascending(b) && forall m :: m in a <==> m in b
    ensures a == b
  {
    Sorting.StrictUnique(a, b, ByStart());
  }

  lemma MarkStays(node: Node, local: seq<Match>, m: Match)
    requires GoodNode(node) && node.marks <= local && m in node.marks
    ensures m in local && m.shown.Some?
  {
    var k :| 0 <= k < |node.marks| && node.marks[k] == m;
    assert local[k] == m;
  }

  // ----- offsets of the normalised text

  /** One grapheme and its normal form, which may differ in length. */
  datatype Segment = Segment(raw: string, value: string)

  function Source(segments: seq<Segment>): string {
    if segments == [] then "" else Source(segments[..|segments| - 1]) + segments[|segments| - 1].raw
  }

  function Composed(segments: seq<Segment>): string {
    if segments == [] then "" else Composed(segments[..|segments| - 1]) + segments[|segments| - 1].value
  }

  function Repeat(n: nat, v: nat): (s: seq<nat>)
    ensures |s| == n && forall x <- s :: x == v
  {
    seq(n, _ => v)
  }

  function Starts(segments: seq<Segment>): seq<nat> {
    if segments == [] then []
    else
      var init, last := segments[..|segments| - 1], segments[|segments| - 1];
      Starts(init) + Repeat(|last.value|, |Source(init)|)
  }

  function Ends(segments: seq<Segment>): seq<nat> {
    if segments == [] then []
    else
      var init, last := segments[..|segments| - 1], segments[|segments| - 1];
      Ends(init) + Repeat(|last.value|, |Source(init)| + |last.raw|)
  }

  method Normalized(segments: seq<Segment>) returns (text: string, starts: seq<nat>, ends: seq<nat>)
    ensures text == Composed(segments) && starts == Starts(segments) && ends == Ends(segments)
  {
    text, starts, ends := "", [], [];
    var index := 0;
    for k := 0 to |segments|
      invariant index == |Source(segments[..k])|
      invariant text == Composed(segments[..k]) && starts == Starts(segments[..k]) && ends == Ends(segments[..k])
    {
      assert segments[..k + 1][..k] == segments[..k];
      var value := segments[k].value;
      text := text + value;
      for i := 0 to |value|
        invariant starts == Starts(segments[..k]) + Repeat(i, index)
        invariant ends == Ends(segments[..k]) + Repeat(i, index + |segments[k].raw|)
      {
        starts := starts + [index];
        ends := ends + [index + |segments[k].raw|];
      }
      index := index + |segments[k].raw|;
    }
    assert segments[..|segments|] == segments;
  }

  /** Every normalised position belongs to one segment, and carries that segment's place in the source. */
  lemma {:induction false} SegmentOf(segments: seq<Segment>, i: nat) returns (k: nat)
    requires i < |Composed(segments)|
    ensures |Starts(segments)| == |Ends(segments)| == |Composed(segments)|
    ensures k < |segments| && |Composed(segments[..k])| <= i < |Composed(segments[..k + 1])|
    ensures Starts(segments)[i] == |Source(segments[..k])| && Ends(segments)[i] == |Source(segments[..k + 1])|
  {
    hide Starts, Ends, Source, Composed;
    LastSegment(segments);
    var n := |segments| - 1;
    var init := segments[..n];
    SameLengths(segments);
    SameLengths(init);
    if i < |Composed(init)| {
      k := SegmentOf(init, i);
      assert init[..k] == segments[..k] && init[..k + 1] == segments[..k + 1];
    } else {
      k := n;
      assert segments[..k + 1] == segments;
    }
  }

  lemma LastSegment(segments: seq<Segment>)
    ensures segments == [] ==> Composed(segments) == ""
    ensures segments != [] ==>
              var init, last := segments[..|segments| - 1], segments[|segments| - 1];
              |Composed(segments)| == |Composed(init)| + |last.value| && |Source(segments)| == |Source(init)| + |last.raw| &&
              Starts(segments) == Starts(init) + Repeat(|last.value|, |Source(init)|) &&
              Ends(segments) == Ends(init) + Repeat(|last.value|, |Source(segments)|)
  {
  }

  lemma {:induction false} SameLengths(segments: seq<Segment>)
    ensures |Starts(segments)| == |Ends(segments)| == |Composed(segments)|
  {
    if segments != [] { SameLengths(segments[..|segments| - 1]); }
  }

  lemma SourceStep(segments: seq<Segment>, j: nat, k: nat)
    requires j < k <= |segments|
    ensures Source(segments[j..k]) == Source(segments[j..k - 1]) + segments[k - 1].raw
    ensures Composed(segments[j..k]) == Composed(segments[j..k - 1]) + segments[k - 1].value
  {
    assert segments[j..k][..k - j - 1] == segments[j..k - 1] && segments[j..k][k - j - 1] == segments[k - 1];
  }

  lemma {:induction false} SourceGrows(segments: seq<Segment>, j: nat, k: nat)
    requires j <= k <= |segments|
    ensures Source(segments[..j]) <= Source(segments[..k]) && Composed(segments[..j]) <= Composed(segments[..k])
    ensures Source(segments[..k])[|Source(segments[..j])|..] == Source(segments[j..k])
    decreases k
  {
    if j == k {
      assert segments[j..k] == [];
    } else {
      hide Source, Composed;
      SourceGrows(segments, j, k - 1);
      SourceStep(segments, j, k);
      SourceStep(segments, 0, k);
      assert segments[0..k] == segments[..k] && segments[0..k - 1] == segments[..k - 1];
      PrefixGrows(Source(segments[..j]), Source(segments[..k - 1]), segments[k - 1].raw);
      PrefixGrows(Composed(segments[..j]), Composed(segments[..k - 1]), segments[k - 1].value);
    }
  }

  lemma PrefixGrows(a: string, b: string, more: string)
    requires a <= b
    ensures a <= b + more && (b + more)[|a|..] == b[|a|..] + more
  {
  }

  /** A hit on the normalised text covers whole graphemes of the source, in order and not none. */
  lemma HitCoversSegments(segments: seq<Segment>, a: nat, b: nat) returns (j: nat, k: nat)
    requires a < b <= |Composed(segments)| && forall s <- segments :: s.raw != ""
    ensures |Starts(segments)| == |Ends(segments)| == |Composed(segments)|
    ensures j < k <= |segments|
    ensures |Composed(segments[..j])| <= a && b <= |Composed(segments[..k])|
    ensures var start, end := Starts(segments)[a], Ends(segments)[b - 1];
            start < end <= |Source(segments)| && Source(segments)[start..end] == Source(segments[j..k])
  {
    hide Starts, Ends, Source, Composed;
    j := SegmentOf(segments, a);
    var last := SegmentOf(segments, b - 1);
    k := last + 1;
    if last < j {
      SourceGrows(segments, k, j);
      assert false;
    }
    SourceGrows(segments, j, k);
    SourceGrows(segments, k, |segments|);
    assert segments[..|segments|] == segments;
    assert Source(segments)[..|Source(segments[..k])|] == Source(segments[..k]);
    NotEmpty(segments, j, k);
  }

  lemma NotEmpty(segments: seq<Segment>, j: nat, k: nat)
    requires j < k <= |segments| && forall s <- segments :: s.raw != ""
    ensures |Source(segments[j..k])| > 0
  {
    assert segments[j..k][k - j - 1] == segments[k - 1] && segments[k - 1] in segments;
  }

  /** Offsets never run backwards, and positions of different segments map to disjoint places. */
  lemma OffsetsAscend(segments: seq<Segment>, a: nat, b: nat)
    requires a <= b < |Composed(segments)|
    ensures |Starts(segments)| == |Ends(segments)| == |Composed(segments)|
    ensures Starts(segments)[a] <= Starts(segments)[b] && Ends(segments)[a] <= Ends(segments)[b]
    ensures (Starts(segments)[a] == Starts(segments)[b] && Ends(segments)[a] == Ends(segments)[b]) ||
            Ends(segments)[a] <= Starts(segments)[b]
  {
    hide Starts, Ends, Source, Composed;
    var j := SegmentOf(segments, a);
    var k := SegmentOf(segments, b);
    if k < j {
      SourceGrows(segments, k + 1, j);
      assert false;
    }
    SourceGrows(segments, j, k);
    SourceGrows(segments, j + 1, k + 1);
    if j < k { SourceGrows(segments, j + 1, k); }
  }
}
